/**
 * Python string semantics used throughout the repository: whitespace and `strip`,
 * clamped and negative-index slicing, `startswith`/`endswith`/`in`, `replace` of one
 * character, `isnumeric`/`isalpha`, `int()` and `str()` on integers, `rjust`,
 * `split`/`join` on a separator, and code-point ordering of strings.
 * Character classes are ASCII except whitespace, which is Python's full list.
 */
module PyText {
  import opened Wrappers

  /** `str.isspace` / regex `\s` for one character (Python 3, str patterns). */
  predicate IsSpace(c: char) {
    c == ' ' || ('\t' <= c <= '\r') || ('\U{1C}' <= c <= '\U{1F}') || c == '\U{85}' ||
    c == '\U{A0}' || c == '\U{1680}' || ('\U{2000}' <= c <= '\U{200A}') ||
    c == '\U{2028}' || c == '\U{2029}' || c == '\U{202F}' || c == '\U{205F}' || c == '\U{3000}'
  }

  predicate AllSpace(s: string) {
    forall i :: 0 <= i < |s| ==> IsSpace(s[i])
  }

  /** First index at or after `i` that is not whitespace (|s| if none). */
  function SkipSpaces(s: string, i: nat): (k: nat)
    requires i <= |s|
    ensures i <= k <= |s|
    ensures forall m :: i <= m < k ==> IsSpace(s[m])
    ensures k == |s| || !IsSpace(s[k])
    decreases |s| - i
  {
    if i < |s| && IsSpace(s[i]) then SkipSpaces(s, i + 1) else i
  }

  /** Start of the trailing whitespace run of `s[lo..j]`. */
  function BackSpaces(s: string, lo: nat, j: nat): (k: nat)
    requires lo <= j <= |s|
    ensures lo <= k <= j
    ensures forall m :: k <= m < j ==> IsSpace(s[m])
    ensures k == lo || !IsSpace(s[k - 1])
    decreases j - lo
  {
    if lo < j && IsSpace(s[j - 1]) then BackSpaces(s, lo, j - 1) else j
  }

  /** `str.strip()` with no argument. */
  function Strip(s: string): (r: string)
    ensures |r| <= |s|
    ensures r == [] || (!IsSpace(r[0]) && !IsSpace(r[|r| - 1]))
  {
    var i := SkipSpaces(s, 0);
    s[i..BackSpaces(s, i, |s|)]
  }

  /** What `strip` means: the text between a leading and a trailing run of whitespace. */
  lemma StripIsCore(s: string)
    ensures exists i, j :: 0 <= i <= j <= |s| && Strip(s) == s[i..j]
                           && AllSpace(s[..i]) && AllSpace(s[j..])
  {
    var i := SkipSpaces(s, 0);
    var j := BackSpaces(s, i, |s|);
    assert Strip(s) == s[i..j];
    assert AllSpace(s[..i]) by {
      forall m | 0 <= m < i ensures IsSpace(s[..i][m]) {
        assert s[..i][m] == s[m];
      }
    }
    assert AllSpace(s[j..]) by {
      forall m | 0 <= m < |s| - j ensures IsSpace(s[j..][m]) {
        assert s[j..][m] == s[j + m];
      }
    }
  }

  /** A string strips to "" exactly when it is all whitespace. */
  lemma StripEmptyIffBlank(s: string)
    ensures Strip(s) == [] <==> AllSpace(s)
  {
    var i := SkipSpaces(s, 0);
    var j := BackSpaces(s, i, |s|);
    if i < |s| {
      assert j > i;
    }
  }

  /** A string with no whitespace at either end is its own strip. */
  lemma StripFixed(s: string)
    requires s == [] || (!IsSpace(s[0]) && !IsSpace(s[|s| - 1]))
    ensures Strip(s) == s
  {
    assert SkipSpaces(s, 0) == 0;
  }

  /** Text padded with whitespace on both sides strips back to the text. */
  lemma StripPadded(a: string, core: string, b: string)
    requires AllSpace(a) && AllSpace(b)
    requires core != [] && !IsSpace(core[0]) && !IsSpace(core[|core| - 1])
    ensures Strip(a + core + b) == core
  {
    var s := a + core + b;
    var e := |a| + |core|;
    assert forall m :: 0 <= m < |a| ==> s[m] == a[m];
    assert forall m :: e <= m < |s| ==> s[m] == b[m - e];
    assert s[|a|] == core[0] && s[e - 1] == core[|core| - 1];
    var i := SkipSpaces(s, 0);
    assert i == |a|;
    var j := BackSpaces(s, i, |s|);
    assert j == e;
    assert s[i..j] == core;
  }

  lemma StripIdempotent(s: string)
    ensures Strip(Strip(s)) == Strip(s)
  {
    StripFixed(Strip(s));
  }

  /** Python index normalisation for slice bounds. */
  function SliceBound(i: int, n: nat): (r: nat)
    ensures r <= n
  {
    if i < 0 then (if i + n < 0 then 0 else i + n) else if i > n then n else i
  }

  /** `s[a:b]`, with negative and out-of-range bounds as Python treats them. */
  function Slice<T>(s: seq<T>, a: int, b: int): (r: seq<T>)
    ensures 0 <= a <= b <= |s| ==> r == s[a..b]
    ensures |r| <= |s|
  {
    var lo := SliceBound(a, |s|);
    var hi := SliceBound(b, |s|);
    if lo < hi then s[lo..hi] else []
  }

  /** `s[a:]`. */
  function From<T>(s: seq<T>, a: int): (r: seq<T>)
    ensures 0 <= a <= |s| ==> r == s[a..]
    ensures a >= |s| ==> r == []
  {
    Slice(s, a, |s|)
  }

  /** `s[:b]`. */
  function UpTo<T>(s: seq<T>, b: int): (r: seq<T>)
    ensures 0 <= b <= |s| ==> r == s[..b]
    ensures b >= |s| ==> r == s
  {
    Slice(s, 0, b)
  }

  /** `s[i]`, with Python's negative indices; `None` stands for IndexError. */
  function Index<T>(s: seq<T>, i: int): (r: Option<T>)
    ensures r.Some? <==> -|s| <= i < |s|
    ensures 0 <= i < |s| ==> r == Some(s[i])
    ensures -|s| <= i < 0 ==> r == Some(s[|s| + i])
  {
    if 0 <= i < |s| then Some(s[i]) else if -|s| <= i < 0 then Some(s[|s| + i]) else None
  }

  predicate StartsWith(s: string, p: string) {
    |p| <= |s| && s[..|p|] == p
  }

  predicate EndsWith(s: string, p: string) {
    |p| <= |s| && s[|s| - |p|..] == p
  }

  /** `p in s` for strings. */
  predicate Contains(s: string, p: string) {
    exists i :: 0 <= i <= |s| && StartsWith(s[i..], p)
  }

  /** `s.replace(c, '')`. */
  function RemoveChar(s: string, c: char): (r: string)
    ensures |r| <= |s|
    ensures forall i :: 0 <= i < |r| ==> r[i] != c
    ensures (forall i :: 0 <= i < |s| ==> s[i] != c) ==> r == s
  {
    if s == [] then []
    else if s[0] == c then RemoveChar(s[1..], c)
    else [s[0]] + RemoveChar(s[1..], c)
  }

  /** `str.lower()` on ASCII letters. */
  function LowerChar(c: char): char {
    if 'A' <= c <= 'Z' then (c as int + 32) as char else c
  }

  function Lower(s: string): (r: string)
    ensures |r| == |s|
    ensures forall i :: 0 <= i < |s| ==> r[i] == LowerChar(s[i])
  {
    seq(|s|, i requires 0 <= i < |s| => LowerChar(s[i]))
  }

  /** `s.replace(a, b)` for single characters. */
  function ReplaceChar(s: string, a: char, b: char): (r: string)
    ensures |r| == |s|
    ensures forall i :: 0 <= i < |s| ==> r[i] == (if s[i] == a then b else s[i])
  {
    seq(|s|, i requires 0 <= i < |s| => if s[i] == a then b else s[i])
  }

  predicate IsDigit(c: char) {
    '0' <= c <= '9'
  }

  predicate IsAlpha(c: char) {
    ('a' <= c <= 'z') || ('A' <= c <= 'Z')
  }

  /** `str.isnumeric()`: non-empty and every character a digit. */
  predicate IsNumeric(s: string) {
    |s| > 0 && forall i :: 0 <= i < |s| ==> IsDigit(s[i])
  }

  function DigitValue(c: char): (d: nat)
    requires IsDigit(c)
    ensures d < 10
  {
    c as int - '0' as int
  }

  function DigitChar(d: nat): (c: char)
    requires d < 10
    ensures IsDigit(c) && DigitValue(c) == d
  {
    ('0' as int + d) as char
  }

  /** The value of a string of decimal digits. */
  function DigitsValue(s: string): nat
    requires forall i :: 0 <= i < |s| ==> IsDigit(s[i])
  {
    if s == [] then 0 else DigitsValue(s[..|s| - 1]) * 10 + DigitValue(s[|s| - 1])
  }

  /** `str(n)` for a natural number. */
  function NatToStr(n: nat): (r: string)
    ensures IsNumeric(r)
  {
    if n < 10 then [DigitChar(n)] else NatToStr(n / 10) + [DigitChar(n % 10)]
  }

  /** `str(i)` for any integer. */
  function IntToStr(i: int): string {
    if i < 0 then "-" + NatToStr(-i) else NatToStr(i)
  }

  /**
   * A numeral as `int()` reads it: digits, with single underscores allowed
   * between two digits (`1_000`), none leading, trailing or doubled.
   */
  predicate Grouped(s: string) {
    && |s| > 0 && IsDigit(s[0]) && IsDigit(s[|s| - 1])
    && (forall k :: 0 <= k < |s| ==> IsDigit(s[k]) || s[k] == '_')
    && (forall k :: 0 <= k < |s| - 1 && s[k] == '_' ==> s[k + 1] != '_')
  }

  /** The numeral with its underscores dropped. */
  function Ungroup(s: string): (r: string)
    ensures |r| <= |s|
    ensures s != [] && s[0] != '_' ==> r != [] && r[0] == s[0]
  {
    if s == [] then [] else (if s[0] == '_' then [] else [s[0]]) + Ungroup(s[1..])
  }

  /** Dropping underscores distributes over concatenation. */
  lemma {:induction false} UngroupAppend(a: string, b: string)
    ensures Ungroup(a + b) == Ungroup(a) + Ungroup(b)
    decreases |a|
  {
    if a != [] {
      assert (a + b)[1..] == a[1..] + b;
      UngroupAppend(a[1..], b);
    } else {
      assert a + b == b;
    }
  }

  /** Only digits survive when every character is a digit or an underscore. */
  lemma {:induction false} UngroupDigits(s: string)
    requires forall k :: 0 <= k < |s| ==> IsDigit(s[k]) || s[k] == '_'
    ensures forall k :: 0 <= k < |Ungroup(s)| ==> IsDigit(Ungroup(s)[k])
    decreases |s|
  {
    if s != [] {
      UngroupDigits(s[1..]);
    }
  }

  /** A grouped numeral is digits once its underscores are dropped. */
  lemma GroupedDigits(s: string)
    requires Grouped(s)
    ensures IsNumeric(Ungroup(s))
  {
    UngroupDigits(s);
  }

  /** Plain digits are a grouped numeral without underscores. */
  lemma {:induction false} NumericGrouped(s: string)
    requires IsNumeric(s)
    ensures Grouped(s) && Ungroup(s) == s
    decreases |s|
  {
    if |s| > 1 {
      assert IsNumeric(s[1..]);
      NumericGrouped(s[1..]);
      assert s == [s[0]] + s[1..];
    }
  }

  /** The value of a grouped numeral. */
  function GroupedValue(s: string): nat
    requires Grouped(s)
  {
    GroupedDigits(s);
    DigitsValue(Ungroup(s))
  }

  /** Two digit groups joined by an underscore read as their digits run together. */
  lemma GroupedJoin(a: string, b: string)
    requires IsNumeric(a) && Grouped(b)
    ensures Grouped(a + "_" + b) && Ungroup(a + "_" + b) == a + Ungroup(b)
  {
    var s := a + "_" + b;
    assert |s| == |a| + 1 + |b|;
    forall k | 0 <= k < |s|
      ensures IsDigit(s[k]) || s[k] == '_'
      ensures s[k] == '_' <==> k == |a| || (k > |a| && b[k - |a| - 1] == '_')
    {
      if k < |a| {
        assert s[k] == a[k];
      } else if k > |a| {
        assert s[k] == b[k - |a| - 1];
      }
    }
    assert s[|s| - 1] == b[|b| - 1];
    forall k | 0 <= k < |s| - 1 && s[k] == '_'
      ensures s[k + 1] != '_'
    {
      if k > |a| {
        assert s[k + 1] == b[k - |a|];
      } else {
        assert s[k + 1] == b[0];
      }
    }
    JoinUngroup(a, b);
  }

  lemma JoinUngroup(a: string, b: string)
    requires IsNumeric(a)
    ensures Ungroup(a + "_" + b) == a + Ungroup(b)
  {
    NumericGrouped(a);
    var u := "_" + b;
    assert a + "_" + b == a + u;
    UngroupAppend(a, u);
    assert u[0] == '_' && u[1..] == b;
    assert Ungroup(u) == Ungroup(b);
  }

  /** `int('1_0') == 10`. */
  lemma UnderscoreExample()
    ensures ParseSigned("1_0") == Some(10)
  {
    var a, b := "1", "0";
    NumericGrouped(b);
    GroupedJoin(a, b);
    var s := a + "_" + b;
    assert s[0] == '1';
    assert ParseSigned(s) == Some(GroupedValue(s));
    assert GroupedValue(s) == DigitsValue(a + b);
    assert a + b == "10";
    assert DigitsValue("10") == 10 by { assert "10"[..1] == "1"; }
    assert s == "1_0";
  }

  /** `int(s)`: optional surrounding whitespace, an optional sign, then a grouped numeral. */
  function ParseInt(s: string): Option<int> {
    ParseSigned(Strip(s))
  }

  /** `int()` on text that has already been stripped. */
  function ParseSigned(t: string): Option<int> {
    if |t| > 0 && (t[0] == '-' || t[0] == '+') && Grouped(t[1..]) then
      var v: int := GroupedValue(t[1..]);
      Some(if t[0] == '-' then -v else v)
    else if Grouped(t) then Some(GroupedValue(t))
    else None
  }

  /** A digit string parses to its value. */
  lemma ParseNumeric(s: string)
    requires IsNumeric(s)
    ensures ParseInt(s) == Some(DigitsValue(s))
  {
    NumericStripped(s);
    SignedNumeric(s);
  }

  lemma NumericStripped(s: string)
    requires IsNumeric(s)
    ensures Strip(s) == s
  {
    StripFixed(s);
  }

  lemma SignedNumeric(s: string)
    requires IsNumeric(s)
    ensures ParseSigned(s) == Some(DigitsValue(s))
  {
    NumericGrouped(s);
  }

  lemma {:induction false} DigitsOfNat(n: nat)
    ensures DigitsValue(NatToStr(n)) == n
  {
    if n >= 10 {
      var s := NatToStr(n);
      assert s[..|s| - 1] == NatToStr(n / 10);
      DigitsOfNat(n / 10);
    }
  }

  /** A sign before a grouped numeral. */
  lemma SignedValue(t: string)
    requires |t| > 0 && (t[0] == '-' || t[0] == '+') && Grouped(t[1..])
    ensures ParseSigned(t) == Some(if t[0] == '-' then -(GroupedValue(t[1..]) as int) else GroupedValue(t[1..]))
  {
  }

  /** A minus sign before digits negates their value. */
  lemma NegativeNumeric(t: string)
    requires |t| > 0 && t[0] == '-' && IsNumeric(t[1..])
    ensures ParseSigned(t) == Some(-(DigitsValue(t[1..]) as int))
  {
    NumericGrouped(t[1..]);
    SignedValue(t);
  }

  /** `int(str(i)) == i`. */
  lemma {:induction false} IntRoundTrip(i: int)
    ensures ParseInt(IntToStr(i)) == Some(i)
  {
    if i < 0 {
      var d := NatToStr(-i);
      StripFixed("-" + d);
      assert ("-" + d)[1..] == d;
      NegativeNumeric("-" + d);
      DigitsOfNat(-i);
    } else {
      ParseNumeric(NatToStr(i));
      DigitsOfNat(i);
    }
  }

  function Repeat(c: char, n: nat): (r: string)
    ensures |r| == n
    ensures forall i :: 0 <= i < n ==> r[i] == c
  {
    seq(n, _ => c)
  }

  /** `s.rjust(w, c)`. */
  function RJust(s: string, w: int, c: char): (r: string)
    ensures |s| >= w ==> r == s
    ensures |s| < w ==> |r| == w && r[w - |s|..] == s && r[..w - |s|] == Repeat(c, w - |s|)
  {
    if |s| >= w then s else Repeat(c, w - |s|) + s
  }

  /** `f'{n:02d}'`: zero padding to width 2 after the sign. */
  function Format02(n: int): (r: string)
    ensures 0 <= n ==> |r| >= 2 && IsNumeric(r)
  {
    if n >= 0 then RJust(NatToStr(n), 2, '0') else IntToStr(n)
  }

  /** Leading zeros do not change the value of a digit string. */
  lemma {:induction false} LeadingZeros(z: nat, s: string)
    requires IsNumeric(s)
    ensures IsNumeric(Repeat('0', z) + s)
    ensures DigitsValue(Repeat('0', z) + s) == DigitsValue(s)
  {
    var t := Repeat('0', z) + s;
    if |s| == 1 {
      ZerosValue(z);
      assert t[..|t| - 1] == Repeat('0', z);
    } else {
      LeadingZeros(z, s[..|s| - 1]);
      assert t[..|t| - 1] == Repeat('0', z) + s[..|s| - 1];
    }
  }

  lemma {:induction false} ZerosValue(z: nat)
    ensures DigitsValue(Repeat('0', z)) == 0
  {
    if z > 0 {
      assert Repeat('0', z)[..z - 1] == Repeat('0', z - 1);
      ZerosValue(z - 1);
    }
  }

  lemma Format02Parses(n: nat)
    ensures ParseInt(Format02(n)) == Some(n)
  {
    var s := NatToStr(n);
    DigitsOfNat(n);
    if |s| < 2 {
      LeadingZeros(2 - |s|, s);
    }
    ParseNumeric(Format02(n));
  }

  /** `sep` occurs in `s` at position `k`. */
  predicate OccursAt(s: string, sep: string, k: int) {
    0 <= k <= |s| && StartsWith(s[k..], sep)
  }

  lemma OccursShift(s: string, sep: string)
    requires |s| > 0
    ensures forall k :: 1 <= k <= |s| ==> (OccursAt(s, sep, k) <==> OccursAt(s[1..], sep, k - 1))
  {
    forall k | 1 <= k <= |s| ensures OccursAt(s, sep, k) <==> OccursAt(s[1..], sep, k - 1) {
      assert s[k..] == s[1..][k - 1..];
    }
  }

  /** Index of the first occurrence of `sep` in `s`, or |s| when there is none. */
  function Find(s: string, sep: string): (i: nat)
    requires |sep| > 0
    ensures i <= |s|
    ensures i < |s| ==> i + |sep| <= |s| && s[i..i + |sep|] == sep
  {
    if |s| < |sep| then |s|
    else if s[..|sep|] == sep then 0
    else
      var j := Find(s[1..], sep);
      assert j < |s| - 1 ==> s[1..][j..j + |sep|] == s[j + 1..j + 1 + |sep|];
      if j == |s| - 1 then |s| else j + 1
  }

  /** `Find` returns the first occurrence, and |s| only when there is none. */
  lemma {:induction false} FindFirst(s: string, sep: string)
    requires |sep| > 0
    ensures Find(s, sep) < |s| ==> OccursAt(s, sep, Find(s, sep))
    ensures forall k :: 0 <= k < Find(s, sep) ==> !OccursAt(s, sep, k)
    decreases |s|
  {
    if |s| >= |sep| && s[..|sep|] != sep {
      FindFirst(s[1..], sep);
      OccursShift(s, sep);
    }
  }

  /** `sep.join(parts)`. */
  function Join(parts: seq<string>, sep: string): string {
    if parts == [] then []
    else if |parts| == 1 then parts[0]
    else parts[0] + sep + Join(parts[1..], sep)
  }

  lemma JoinCons(p: string, parts: seq<string>, sep: string)
    requires |parts| >= 1
    ensures Join([p] + parts, sep) == p + sep + Join(parts, sep)
  {
    assert ([p] + parts)[1..] == parts;
  }

  /** `s.split(sep)`: at least one piece, and joining the pieces on `sep` gives `s` back. */
  function Split(s: string, sep: string): (r: seq<string>)
    requires |sep| > 0
    ensures |r| >= 1 && Join(r, sep) == s
    decreases |s|
  {
    var i := Find(s, sep);
    if i == |s| then [s]
    else
      var rest := Split(s[i + |sep|..], sep);
      JoinCons(s[..i], rest, sep);
      assert s == s[..i] + sep + s[i + |sep|..];
      [s[..i]] + rest
  }

  /** `sep` does not occur anywhere in `s`. */
  predicate Free(s: string, c: char) {
    forall i :: 0 <= i < |s| ==> s[i] != c
  }

  lemma FreeNoOccurrence(s: string, c: char)
    requires Free(s, c)
    ensures forall k :: 0 <= k < |s| ==> !OccursAt(s, [c], k)
  {
    forall k | 0 <= k < |s| ensures !OccursAt(s, [c], k) {
      assert s[k..][0] == s[k];
    }
  }

  /** Joining on a one-character separator that no part contains, then splitting, gives the parts back. */
  lemma {:induction false} JoinSplit(parts: seq<string>, c: char)
    requires |parts| >= 1
    requires forall k :: 0 <= k < |parts| ==> Free(parts[k], c)
    ensures Split(Join(parts, [c]), [c]) == parts
  {
    var s := Join(parts, [c]);
    var p := parts[0];
    if |parts| == 1 {
      FindFirst(s, [c]);
      assert s == p;
      FreeNoOccurrence(s, c);
    } else {
      var rest := parts[1..];
      assert s == p + [c] + Join(rest, [c]);
      FindAfterFree(p, c, Join(rest, [c]));
      var i := Find(s, [c]);
      assert s[i + 1..] == Join(rest, [c]);
      JoinSplit(rest, c);
      assert s[..i] == p;
    }
  }

  /** The first `c` after text free of `c` is the one that follows it. */
  lemma FindAfterFree(p: string, c: char, tail: string)
    requires Free(p, c)
    ensures Find(p + [c] + tail, [c]) == |p|
  {
    var s := p + [c] + tail;
    FindFirst(s, [c]);
    assert OccursAt(s, [c], |p|) by {
      assert s[|p|..][..1] == [c];
    }
    forall k | 0 <= k < |p| ensures !OccursAt(s, [c], k) {
      assert s[k..][0] == p[k];
    }
  }

  /** A separator cannot start inside text free of its first character. */
  lemma FreeNoSeparator(p: string, s: string, sep: string)
    requires |sep| > 0 && Free(p, sep[0]) && |p| <= |s| && s[..|p|] == p
    ensures forall k :: 0 <= k < |p| ==> !OccursAt(s, sep, k)
  {
    forall k | 0 <= k < |p| ensures !OccursAt(s, sep, k) {
      assert s[k..][0] == p[k];
    }
  }

  /** Joining on a separator whose first character no part contains, then splitting, gives the parts back. */
  lemma {:induction false} JoinSplitSep(parts: seq<string>, sep: string)
    requires |parts| >= 1 && |sep| > 0
    requires forall k :: 0 <= k < |parts| ==> Free(parts[k], sep[0])
    ensures Split(Join(parts, sep), sep) == parts
  {
    var s := Join(parts, sep);
    var p := parts[0];
    FindFirst(s, sep);
    if |parts| == 1 {
      assert s == p;
      FreeNoSeparator(p, s, sep);
      assert !OccursAt(s, sep, |s|);
    } else {
      var rest := parts[1..];
      assert s == p + sep + Join(rest, sep);
      assert OccursAt(s, sep, |p|) by {
        assert s[|p|..][..|sep|] == sep;
      }
      FreeNoSeparator(p, s, sep);
      var i := Find(s, sep);
      assert i == |p|;
      assert s[i + |sep|..] == Join(rest, sep);
      JoinSplitSep(rest, sep);
      assert s[..i] == p;
    }
  }

  /** Python's `<=` on strings: code-point lexicographic order. */
  predicate LexLe(a: string, b: string) {
    if a == [] then true
    else if b == [] then false
    else if a[0] != b[0] then a[0] < b[0]
    else LexLe(a[1..], b[1..])
  }

  lemma {:induction false} LexTotal(a: string, b: string)
    ensures LexLe(a, b) || LexLe(b, a)
  {
    if a != [] && b != [] && a[0] == b[0] {
      LexTotal(a[1..], b[1..]);
    }
  }

  lemma {:induction false} LexTransitive(a: string, b: string, c: string)
    requires LexLe(a, b) && LexLe(b, c)
    ensures LexLe(a, c)
  {
    if a != [] && b != [] && c != [] && a[0] == b[0] && b[0] == c[0] {
      LexTransitive(a[1..], b[1..], c[1..]);
    }
  }

  lemma {:induction false} LexAntisymmetric(a: string, b: string)
    requires LexLe(a, b) && LexLe(b, a)
    ensures a == b
  {
    if a != [] && b != [] {
      LexAntisymmetric(a[1..], b[1..]);
      assert a == [a[0]] + a[1..] && b == [b[0]] + b[1..];
    }
  }
}
