/**
 * ASCIIStyler (sshterminal/ascii_styler.py): the text style of one screen cell and
 * the "Select Graphic Rendition" control sequence it renders to (section 8.3.117 of
 * ECMA-48): ESC '[' then ';'-separated parameters, then 'm'.
 */
module Styler {
  import opened Wrappers
  import opened PyText
  import opened Errors
  import Py

  /** Foreground and background SGR parameters of a named colour. */
  datatype Codes = Codes(fg: string, bg: string)

  const ColorCodes: map<string, Codes> := map[
    "default" := Codes("39", "49"),
    "black" := Codes("30", "40"),
    "red" := Codes("31", "41"),
    "green" := Codes("32", "42"),
    "yellow" := Codes("33", "43"),
    "blue" := Codes("34", "44"),
    "magenta" := Codes("35", "45"),
    "cyan" := Codes("36", "46"),
    "light gray" := Codes("37", "47"),
    "dark gray" := Codes("90", "100"),
    "light red" := Codes("91", "101"),
    "light green" := Codes("92", "102"),
    "light yellow" := Codes("93", "103"),
    "light blue" := Codes("94", "104"),
    "light magenta" := Codes("95", "105"),
    "light cyan" := Codes("96", "106"),
    "white" := Codes("97", "107")]

  /** The styler's state. The constructor stores its arguments unchecked. */
  datatype Style = Style(
    bold: bool, italics: bool, underscore: bool, strikethrough: bool, blink: bool, reverse: bool,
    fg: string, bg: string)

  const Initial: Style := Style(false, false, false, false, false, false, "default", "default")

  datatype Flag = Bold | Italics | Underscore | Strikethrough | Blink | Reverse

  function FlagOf(st: Style, f: Flag): bool {
    match f
    case Bold => st.bold
    case Italics => st.italics
    case Underscore => st.underscore
    case Strikethrough => st.strikethrough
    case Blink => st.blink
    case Reverse => st.reverse
  }

  function WithFlag(st: Style, f: Flag, v: bool): Style {
    match f
    case Bold => st.(bold := v)
    case Italics => st.(italics := v)
    case Underscore => st.(underscore := v)
    case Strikethrough => st.(strikethrough := v)
    case Blink => st.(blink := v)
    case Reverse => st.(reverse := v)
  }

  /** The outcome of a setter: the new state, and the exception if one was raised. */
  datatype Set = Set(style: Style, outcome: Outcome<Exc>)

  /** A boolean property setter: exactly a `bool` is accepted. */
  function SetFlag(st: Style, f: Flag, v: Py.Value): (r: Set)
    ensures r.outcome.Pass? <==> v.Bool?
    ensures r.outcome.Fail? ==> r.outcome.error == TypeError && r.style == st
    ensures v.Bool? ==> FlagOf(r.style, f) == v.b
    ensures forall g :: g != f ==> FlagOf(r.style, g) == FlagOf(st, g)
    ensures r.style.fg == st.fg && r.style.bg == st.bg
  {
    if v.Bool? then
      WithFlagFrame(st, f, v.b);
      Set(WithFlag(st, f, v.b), Pass)
    else Set(st, Fail(TypeError))
  }

  lemma WithFlagFrame(st: Style, f: Flag, v: bool)
    ensures FlagOf(WithFlag(st, f, v), f) == v
    ensures forall g :: g != f ==> FlagOf(WithFlag(st, f, v), g) == FlagOf(st, g)
    ensures WithFlag(st, f, v).fg == st.fg && WithFlag(st, f, v).bg == st.bg
  {
  }

  datatype Plane = Fg | Bg

  function ColorOf(st: Style, p: Plane): string {
    if p == Fg then st.fg else st.bg
  }

  function WithColor(st: Style, p: Plane, name: string): Style {
    if p == Fg then st.(fg := name) else st.(bg := name)
  }

  /**
   * The fg/bg setters. `None` first assigns 'default' through the setter itself and
   * then still fails the `str` type test, so the state changes AND TypeError is raised.
   */
  function SetColor(st: Style, p: Plane, v: Py.Value): (r: Set)
    ensures r.outcome.Pass? <==> v.Str? && v.s in ColorCodes
    ensures r.outcome.Pass? ==> r.style == WithColor(st, p, v.s)
    ensures v.None? ==> r.style == WithColor(st, p, "default") && r.outcome == Fail(TypeError)
    ensures !v.None? && !v.Str? ==> r == Set(st, Fail(TypeError))
    ensures v.Str? && v.s !in ColorCodes ==> r == Set(st, Fail(ValueError))
  {
    var st1 := if v.None? then WithColor(st, p, "default") else st;
    if !v.Str? then Set(st1, Fail(TypeError))
    else if v.s !in ColorCodes then Set(st1, Fail(ValueError))
    else Set(WithColor(st1, p, v.s), Pass)
  }

  /** The attribute parameters, in their fixed order, for the flags that are set. */
  function FlagParams(st: Style): (r: seq<string>)
    ensures |r| == NumFlags(st)
  {
    (if st.bold then ["1"] else []) + (if st.italics then ["3"] else []) +
    (if st.underscore then ["4"] else []) + (if st.blink then ["5"] else []) +
    (if st.strikethrough then ["9"] else [])
  }

  function NumFlags(st: Style): nat {
    (if st.bold then 1 else 0) + (if st.italics then 1 else 0) + (if st.underscore then 1 else 0) +
    (if st.blink then 1 else 0) + (if st.strikethrough then 1 else 0)
  }

  /** All SGR parameters: reset, the flags, then the colour pair (swapped under reverse). */
  function Params(st: Style): (r: Result<seq<string>, Exc>)
    ensures r.Ok? <==> st.fg in ColorCodes && st.bg in ColorCodes
    ensures r.Ok? ==> |r.value| == 3 + NumFlags(st) && r.value[0] == "0"
    ensures r.Ok? && !st.reverse ==>
      r.value[|r.value| - 2] == ColorCodes[st.fg].fg && r.value[|r.value| - 1] == ColorCodes[st.bg].bg
    ensures r.Ok? && st.reverse ==>
      r.value[|r.value| - 2] == ColorCodes[st.bg].fg && r.value[|r.value| - 1] == ColorCodes[st.fg].bg
  {
    if st.fg !in ColorCodes || st.bg !in ColorCodes then Err(KeyError)
    else
      var fgCode := if st.reverse then ColorCodes[st.bg].fg else ColorCodes[st.fg].fg;
      var bgCode := if st.reverse then ColorCodes[st.fg].bg else ColorCodes[st.bg].bg;
      Ok(["0"] + FlagParams(st) + [fgCode, bgCode])
  }

  /** `ascii_sequence()`: ESC '[' parameters 'm'; KeyError for a colour the table lacks. */
  function Sequence(st: Style): (r: Result<string, Exc>)
    ensures r.Ok? <==> Params(st).Ok?
    ensures r.Ok? ==> StartsWith(r.value, "\U{1B}[") && EndsWith(r.value, "m")
  {
    var ps :- Params(st);
    Ok("\U{1B}[" + Join(ps, ";") + "m")
  }

  /** The parameter list can be read back from the sequence: 3 + (flags set) of them. */
  lemma SequenceParams(st: Style)
    requires Sequence(st).Ok?
    ensures var s := Sequence(st).value;
            Split(s[2..|s| - 1], ";") == Params(st).value
    ensures |Split(Sequence(st).value[2..|Sequence(st).value| - 1], ";")| == 3 + NumFlags(st)
  {
    var ps := Params(st).value;
    var s := Sequence(st).value;
    var body := Join(ps, ";");
    assert s == "\U{1B}[" + body + "m";
    assert s[2..|s| - 1] == body;
    ParamsFree(st);
    JoinSplit(ps, ';');
  }

  /** No SGR parameter contains the ';' that separates them. */
  lemma ParamsFree(st: Style)
    requires Params(st).Ok?
    ensures forall k :: 0 <= k < |Params(st).value| ==> Free(Params(st).value[k], ';')
  {
    var ps := Params(st).value;
    var flags := FlagParams(st);
    var fgCode := if st.reverse then ColorCodes[st.bg].fg else ColorCodes[st.fg].fg;
    var bgCode := if st.reverse then ColorCodes[st.fg].bg else ColorCodes[st.bg].bg;
    assert ps == ["0"] + flags + [fgCode, bgCode];
    ColorParamsFree();
    FlagParamsFree(st);
    forall k | 0 <= k < |ps| ensures Free(ps[k], ';') {
      if 1 <= k <= |flags| {
        assert ps[k] == flags[k - 1];
      }
    }
  }

  lemma FlagParamsFree(st: Style)
    ensures forall k :: 0 <= k < |FlagParams(st)| ==> Free(FlagParams(st)[k], ';')
  {
    forall k | 0 <= k < |FlagParams(st)| ensures Free(FlagParams(st)[k], ';') {
      assert FlagParams(st)[k] in FlagParams(st);
    }
  }

  lemma ColorParamsFree()
    ensures forall n :: n in ColorCodes ==> Free(ColorCodes[n].fg, ';') && Free(ColorCodes[n].bg, ';')
  {
  }

  /** Every colour's background parameter is its foreground parameter plus 10. */
  lemma BackgroundIsForegroundPlus10()
    ensures forall n :: n in ColorCodes ==>
      IsNumeric(ColorCodes[n].fg) && IsNumeric(ColorCodes[n].bg) &&
      DigitsValue(ColorCodes[n].bg) == DigitsValue(ColorCodes[n].fg) + 10
  {
    forall n | n in ColorCodes
      ensures IsNumeric(ColorCodes[n].fg) && IsNumeric(ColorCodes[n].bg) &&
              DigitsValue(ColorCodes[n].bg) == DigitsValue(ColorCodes[n].fg) + 10
    {
      AllShaped(n);
      ShapedPlus10(ColorCodes[n]);
    }
  }

  /**
   * The two shapes of a table entry: "3d" with "4d", and "9d" with "10d", for a digit d.
   */
  predicate Shaped(c: Codes) {
    |c.fg| == 2 && IsDigit(c.fg[1]) &&
    ((c.fg[0] == '3' && c.bg == ['4', c.fg[1]]) || (c.fg[0] == '9' && c.bg == ['1', '0', c.fg[1]]))
  }

  lemma AllShaped(n: string)
    requires n in ColorCodes
    ensures Shaped(ColorCodes[n])
  {
  }

  lemma ShapedPlus10(c: Codes)
    requires Shaped(c)
    ensures IsNumeric(c.fg) && IsNumeric(c.bg) && DigitsValue(c.bg) == DigitsValue(c.fg) + 10
  {
    assert c.fg == [c.fg[0], c.fg[1]];
    TwoDigits(c.fg[0], c.fg[1]);
    if c.fg[0] == '3' {
      TwoDigits(c.bg[0], c.bg[1]);
    } else {
      ThreeDigits(c.bg[0], c.bg[1], c.bg[2]);
    }
  }

  lemma TwoDigits(a: char, b: char)
    requires IsDigit(a) && IsDigit(b)
    ensures IsNumeric([a, b]) && DigitsValue([a, b]) == DigitValue(a) * 10 + DigitValue(b)
  {
    assert [a, b][..1] == [a];
    assert [a][..0] == [];
    assert DigitsValue([a]) == DigitValue(a);
  }

  lemma ThreeDigits(a: char, b: char, c: char)
    requires IsDigit(a) && IsDigit(b) && IsDigit(c)
    ensures IsNumeric([a, b, c])
    ensures DigitsValue([a, b, c]) == DigitValue(a) * 100 + DigitValue(b) * 10 + DigitValue(c)
  {
    assert [a, b, c][..2] == [a, b];
    TwoDigits(a, b);
  }

  /** A pyte screen cell: its character and style. */
  datatype Char = Char(data: string, fg: string, bg: string,
                       bold: bool, italics: bool, underscore: bool, strikethrough: bool, reverse: bool)

  /**
   * `update(c)`: copies five flags (not blink), then the colours that are set and not
   * 'default'; an unknown colour name raises ValueError after the earlier assignments.
   */
  function Update(st: Style, c: Char): (r: Set)
    ensures r.style.bold == c.bold && r.style.italics == c.italics && r.style.underscore == c.underscore
    ensures r.style.strikethrough == c.strikethrough && r.style.reverse == c.reverse
    ensures r.style.blink == st.blink
    ensures r.outcome.Pass? <==> Named(c.fg) && Named(c.bg)
    ensures r.outcome.Pass? ==>
      r.style.fg == (if Unset(c.fg) then st.fg else c.fg) &&
      r.style.bg == (if Unset(c.bg) then st.bg else c.bg)
  {
    var s1 := st.(bold := c.bold, italics := c.italics, underscore := c.underscore,
                  strikethrough := c.strikethrough, reverse := c.reverse);
    var f := SetIfSet(s1, Fg, c.fg);
    if f.outcome.Fail? then f
    else SetIfSet(f.style, Bg, c.bg)
  }

  /** A cell colour `update` skips: empty or 'default'. */
  predicate Unset(name: string) {
    name == [] || name == "default"
  }

  /** A cell colour `update` accepts: skipped, or in the table. */
  predicate Named(name: string) {
    Unset(name) || name in ColorCodes
  }

  /** One colour step of `update`: the setter runs only for a colour that is set. */
  function SetIfSet(st: Style, p: Plane, name: string): (r: Set)
    ensures r.outcome.Pass? <==> Named(name)
    ensures r.outcome.Pass? ==> r.style == if Unset(name) then st else WithColor(st, p, name)
    ensures r.style.bold == st.bold && r.style.italics == st.italics && r.style.underscore == st.underscore
    ensures r.style.strikethrough == st.strikethrough && r.style.reverse == st.reverse
    ensures r.style.blink == st.blink
  {
    if Unset(name) then Set(st, Pass) else SetColor(st, p, Py.Str(name))
  }

  /** `styled(c)`: update, then the sequence followed by the character or a blank. */
  function Styled(st: Style, c: Char): (r: (Style, Result<string, Exc>))
    ensures Update(st, c).outcome.Pass? && Sequence(Update(st, c).style).Ok? ==>
      r.1.Ok? && r.1.value == Sequence(Update(st, c).style).value + (if c.data == [] then " " else c.data)
    ensures r.1.Ok? ==> EndsWith(r.1.value, if c.data == [] then " " else c.data)
    ensures r.0 == Update(st, c).style
  {
    var u := Update(st, c);
    if u.outcome.Fail? then (u.style, Err(u.outcome.error))
    else match Sequence(u.style)
      case Err(e) => (u.style, Err(e))
      case Ok(seqn) => (u.style, Ok(seqn + (if c.data == [] then " " else c.data)))
  }

  /** `reset()`: every attribute back to its initial value except reverse. */
  function Reset(st: Style): (r: Style)
    ensures r == Initial.(reverse := st.reverse)
  {
    Style(false, false, false, false, false, st.reverse, "default", "default")
  }

  /** After reset the sequence is the plain reset-plus-default-colours one. */
  lemma ResetSequence(st: Style)
    ensures Sequence(Reset(st)).Ok?
    ensures Params(Reset(st)).value == ["0", "39", "49"]
  {
  }
}
