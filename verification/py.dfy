/**
 * The dynamically typed values the repository passes around where a type matters:
 * `None`, `bool`, `int`, `str`, `bytes`, and anything else (which only has a printed
 * form and a truth value). `bool` is a subclass of `int`, as in Python.
 */
module Py {
  import opened Wrappers
  import opened PyText
  import opened Utf8
  import opened Errors

  datatype Value =
    | None
    | Bool(b: bool)
    | Int(i: int)
    | Str(s: string)
    | Raw(bytes: Bytes)
    | Other(text: string, truthy: bool)

  /** `bool(v)`. */
  predicate Truthy(v: Value) {
    match v
    case None => false
    case Bool(b) => b
    case Int(i) => i != 0
    case Str(s) => s != []
    case Raw(bs) => bs != []
    case Other(_, t) => t
  }

  /** `isinstance(v, int)`: true for `bool` too. */
  predicate IsInt(v: Value) {
    v.Int? || v.Bool?
  }

  /** The integer an `int`-typed value stands for (`True` is 1). */
  function IntOf(v: Value): int
    requires IsInt(v)
  {
    match v
    case Int(i) => i
    case Bool(b) => if b then 1 else 0
  }

  /** `v in (None, '', False)`: equality with False also catches 0. */
  predicate IsMissing(v: Value) {
    match v
    case None => true
    case Str(s) => s == []
    case Bool(b) => !b
    case Int(i) => i == 0
    case _ => false
  }

  /** `str(v)`. */
  function ToStr(v: Value): string {
    match v
    case None => "None"
    case Bool(b) => if b then "True" else "False"
    case Int(i) => IntToStr(i)
    case Str(s) => s
    case Raw(_) => "b'...'"
    case Other(t, _) => t
  }

  /** The values `IsMissing` picks out are all falsy, and a falsy int or str is one of them. */
  lemma MissingIsFalsy(v: Value)
    ensures IsMissing(v) ==> !Truthy(v)
    ensures (IsInt(v) || v.Str? || v.None?) ==> (IsMissing(v) <==> !Truthy(v))
  {
  }

  /** `str()` of an int parses back with `int()`. */
  lemma ToStrIntParses(v: Value)
    requires v.Int?
    ensures ParseInt(ToStr(v)) == Some(v.i)
  {
    IntRoundTrip(v.i);
  }

  /**
   * `int(v)`: an int (or bool) is itself, text is parsed after stripping
   * surrounding whitespace, ASCII bytes are parsed like text; text that is not a
   * number raises ValueError and the remaining types raise TypeError.
   */
  function IntCall(v: Value): (r: Result<int, Exc>)
    ensures IsInt(v) ==> r == Ok(IntOf(v))
    ensures v.Str? ==> (r.Ok? <==> ParseInt(v.s).Some?)
    ensures v.Str? && r.Ok? ==> Some(r.value) == ParseInt(v.s)
    ensures v.Str? && r.Err? ==> r.error == ValueError
    ensures (v.None? || v.Other?) ==> r == Err(TypeError)
  {
    match v
    case Int(i) => Ok(i)
    case Bool(b) => Ok(if b then 1 else 0)
    case Str(s) => if ParseInt(s).Some? then Ok(ParseInt(s).value) else Err(ValueError)
    case Raw(bs) =>
      if IsAscii(DecodeReplace(bs)) && ParseInt(DecodeReplace(bs)).Some? then Ok(ParseInt(DecodeReplace(bs)).value)
      else Err(ValueError)
    case _ => Err(TypeError)
  }

  /** `int(str(i)) == int(i) == i`, and a zero-padded rendering parses to the same number. */
  lemma {:induction false} IntCallAgrees(i: int)
    ensures IntCall(Str(IntToStr(i))) == IntCall(Int(i)) == Ok(i)
    ensures i >= 0 ==> IntCall(Str(Format02(i))) == Ok(i)
  {
    IntRoundTrip(i);
    assert IntCall(Str(IntToStr(i))) == Ok(i);
    if i >= 0 {
      Format02Parses(i);
      assert IntCall(Str(Format02(i))) == Ok(i);
    }
  }
}
