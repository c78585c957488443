/**
 * Xtractor (av2000_terminator/misc/xtractor.py): reads one fixed-column field out
 * of a list of screen rows, strips it and converts it, with None for a blank field.
 */
module Xtractor {
  import opened Wrappers
  import opened PyText
  import opened Errors

  /**
   * The `index` argument: an int (a bool is one too), a tuple or list of slice
   * bounds (`None` is an open bound), or anything else.
   */
  datatype Index =
    | At(i: int)
    | Bounds(items: seq<Option<int>>)
    | Unsupported

  /** `(a, b)`, the common case. */
  function Cols(a: int, b: int): Index {
    Bounds([Some(a), Some(b)])
  }

  /** A conversion applied to the stripped text (`to_type`). */
  type Conv<T> = string -> Result<T, Exc>

  /** `str`, the default conversion. */
  function AsStr(s: string): Result<string, Exc> {
    Ok(s)
  }

  /** `int`, as a conversion: ValueError for text that is not an integer. */
  function AsInt(s: string): (r: Result<int, Exc>)
    ensures r.Ok? <==> ParseInt(s).Some?
    ensures r.Ok? ==> Some(r.value) == ParseInt(s)
    ensures r.Err? ==> r.error == ValueError
  {
    if ParseInt(s).Some? then Ok(ParseInt(s).value) else Err(ValueError)
  }

  /** The part of `line` that `index` selects, or the exception it raises. */
  function Portion(line: string, index: Index): (r: Result<string, Exc>)
    ensures index.At? ==> r == Ok(From(line, index.i))
    ensures index.Bounds? && |index.items| == 2 ==>
      r == Ok(Slice(line, index.items[0].GetOr(0), index.items[1].GetOr(|line|)))
    ensures index.Bounds? && |index.items| != 2 ==> r == Err(ValueError)
    ensures index.Unsupported? ==> r == Err(TypeError)
  {
    match index
    case At(i) => Ok(From(line, i))
    case Bounds(items) =>
      if |items| == 2 then Ok(Slice(line, items[0].GetOr(0), items[1].GetOr(|line|)))
      else Err(ValueError)
    case Unsupported => Err(TypeError)
  }

  /**
   * `Xtractor(lines).x(line_num, index, to_type)`. A missing row raises
   * IndexError; a blank field gives None without calling the conversion.
   */
  function X<T>(lines: seq<string>, lineNum: int, index: Index, conv: Conv<T>): (r: Result<Option<T>, Exc>)
    ensures PyText.Index(lines, lineNum).None? ==> r == Err(IndexError)
    ensures PyText.Index(lines, lineNum).Some? && Portion(PyText.Index(lines, lineNum).value, index).Err? ==>
      r == Err(Portion(PyText.Index(lines, lineNum).value, index).error)
    ensures r == Ok(None) <==>
      && PyText.Index(lines, lineNum).Some?
      && Portion(PyText.Index(lines, lineNum).value, index).Ok?
      && Strip(Portion(PyText.Index(lines, lineNum).value, index).value) == []
    ensures r.Ok? && r.value.Some? ==>
      var p := Strip(Portion(PyText.Index(lines, lineNum).value, index).value);
      p != [] && conv(p) == Ok(r.value.value)
  {
    match PyText.Index(lines, lineNum)
    case None => Err(IndexError)
    case Some(line) =>
      match Portion(line, index)
      case Err(e) => Err(e)
      case Ok(portion) =>
        var stripped := Strip(portion);
        if stripped == [] then Ok(None)
        else
          match conv(stripped)
          case Ok(v) => Ok(Some(v))
          case Err(e) => Err(e)
  }

  /** The text of a field, or "" when it is blank (`x(...) or ''`). */
  function XText(lines: seq<string>, lineNum: int, index: Index): (r: Result<string, Exc>)
    ensures r.Ok? <==> X(lines, lineNum, index, AsStr).Ok?
    ensures r.Ok? ==> r.value == Strip(Portion(PyText.Index(lines, lineNum).value, index).value)
  {
    match X(lines, lineNum, index, AsStr)
    case Ok(v) => Ok(v.GetOr([]))
    case Err(e) => Err(e)
  }

  /** An int index reads the same as an open-ended pair of bounds: `line[i:] == line[i:None]`. */
  lemma AtIsOpenBounds<T>(lines: seq<string>, lineNum: int, i: int, conv: Conv<T>)
    ensures X(lines, lineNum, At(i), conv) == X(lines, lineNum, Bounds([Some(i), None]), conv)
  {
  }

  /**
   * Fixed-column layout round trip: a row laid out as `prefix + field + suffix`
   * gives back the stripped field when read at the field's columns.
   */
  lemma ReadsBackLayout(lines: seq<string>, lineNum: nat, prefix: string, field: string, suffix: string)
    requires lineNum < |lines| && lines[lineNum] == prefix + field + suffix
    ensures X(lines, lineNum, Cols(|prefix|, |prefix| + |field|), AsStr) ==
      if Strip(field) == [] then Ok(None) else Ok(Some(Strip(field)))
  {
    var line := prefix + field + suffix;
    assert Slice(line, |prefix|, |prefix| + |field|) == field;
  }
}
