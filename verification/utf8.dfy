/**
 * Bytes and the UTF-8 codec used on the wire: `str.encode()` and `bytes.decode()`,
 * strict or with `errors='replace'` (one U+FFFD per maximal ill-formed subpart, as
 * described in section 3.9 of the Unicode Standard, Table 3-7).
 */
module Utf8 {
  import opened Wrappers

  newtype Byte = b: int | 0 <= b < 256
  type Bytes = seq<Byte>

  const Replacement: char := '\U{FFFD}'

  /** ASCII text as bytes: one byte per character. */
  predicate IsAscii(s: string) {
    forall i :: 0 <= i < |s| ==> s[i] as int < 0x80
  }

  /** The encoding of one scalar value. */
  function EncodeChar(c: char): (r: Bytes)
    ensures 1 <= |r| <= 4
    ensures c as int < 0x80 <==> |r| == 1
  {
    var n := c as int;
    if n < 0x80 then [n as Byte]
    else if n < 0x800 then [(0xC0 + n / 64) as Byte, (0x80 + n % 64) as Byte]
    else if n < 0x10000 then
      [(0xE0 + n / 4096) as Byte, (0x80 + (n / 64) % 64) as Byte, (0x80 + n % 64) as Byte]
    else
      [(0xF0 + n / 262144) as Byte, (0x80 + (n / 4096) % 64) as Byte,
       (0x80 + (n / 64) % 64) as Byte, (0x80 + n % 64) as Byte]
  }

  /** `s.encode()` (UTF-8). */
  function Encode(s: string): (r: Bytes)
    ensures |r| >= |s|
    ensures IsAscii(s) ==> |r| == |s| && forall i :: 0 <= i < |s| ==> r[i] as int == s[i] as int
  {
    if s == [] then [] else EncodeChar(s[0]) + Encode(s[1..])
  }

  /** Length of the well-formed sequence a lead byte announces; 0 when it cannot lead. */
  function Need(b: Byte): nat {
    if b < 0x80 then 1
    else if 0xC2 <= b <= 0xDF then 2
    else if 0xE0 <= b <= 0xEF then 3
    else if 0xF0 <= b <= 0xF4 then 4
    else 0
  }

  /** The range allowed for the second byte after lead `b0`. */
  predicate SecondOk(b0: Byte, b1: Byte) {
    if b0 == 0xE0 then 0xA0 <= b1 <= 0xBF
    else if b0 == 0xED then 0x80 <= b1 <= 0x9F
    else if b0 == 0xF0 then 0x90 <= b1 <= 0xBF
    else if b0 == 0xF4 then 0x80 <= b1 <= 0x8F
    else 0x80 <= b1 <= 0xBF
  }

  predicate Cont(b: Byte) {
    0x80 <= b <= 0xBF
  }

  /** How many leading bytes of `bs` agree with some well-formed sequence. */
  function Matched(bs: Bytes): (m: nat)
    requires |bs| > 0
    ensures m <= Need(bs[0]) && m <= |bs|
    ensures Need(bs[0]) >= 2 ==> m >= 1
  {
    var n := Need(bs[0]);
    if n <= 1 then n
    else if |bs| < 2 || !SecondOk(bs[0], bs[1]) then 1
    else if n == 2 then 2
    else if |bs| < 3 || !Cont(bs[2]) then 2
    else if n == 3 then 3
    else if |bs| < 4 || !Cont(bs[3]) then 3
    else 4
  }

  /** The scalar value of a complete well-formed sequence at the head of `bs`. */
  function Scalar(bs: Bytes): (c: char)
    requires |bs| > 0 && Need(bs[0]) >= 1 && Matched(bs) == Need(bs[0])
  {
    var n := Need(bs[0]);
    if n == 1 then (bs[0] as int) as char
    else if n == 2 then ((bs[0] as int - 0xC0) * 64 + (bs[1] as int - 0x80)) as char
    else if n == 3 then
      ((bs[0] as int - 0xE0) * 4096 + (bs[1] as int - 0x80) * 64 + (bs[2] as int - 0x80)) as char
    else
      ((bs[0] as int - 0xF0) * 262144 + (bs[1] as int - 0x80) * 4096
        + (bs[2] as int - 0x80) * 64 + (bs[3] as int - 0x80)) as char
  }

  datatype Decoded = Decoded(used: nat, ch: Option<char>)

  /** Decode the head of `bs`: a character, or `None` for an ill-formed subpart. */
  function DecodeFirst(bs: Bytes): (r: Decoded)
    requires |bs| > 0
    ensures 1 <= r.used <= |bs|
  {
    var n := Need(bs[0]);
    var m := Matched(bs);
    if n >= 1 && m == n then Decoded(n, Some(Scalar(bs)))
    else Decoded(if m == 0 then 1 else m, None)
  }

  /** `bs.decode(errors='replace')`. */
  function DecodeReplace(bs: Bytes): string
    decreases |bs|
  {
    if bs == [] then []
    else
      var d := DecodeFirst(bs);
      [d.ch.GetOr(Replacement)] + DecodeReplace(bs[d.used..])
  }

  /** `bs.decode()`: `None` stands for UnicodeDecodeError. */
  function DecodeStrict(bs: Bytes): Option<string>
    decreases |bs|
  {
    if bs == [] then Some([])
    else
      var d := DecodeFirst(bs);
      if d.ch.None? then None
      else match DecodeStrict(bs[d.used..])
        case None => None
        case Some(rest) => Some([d.ch.value] + rest)
  }

  lemma DivMod64(n: int)
    requires 0 <= n
    ensures n / 4096 == (n / 64) / 64
    ensures n / 262144 == (n / 4096) / 64
    ensures (n / 64) % 64 * 64 + n % 64 == n % 4096
    ensures (n / 4096) % 64 * 4096 + n % 4096 == n % 262144
  {
  }

  /** The head of an encoded character decodes to that character. */
  lemma DecodeEncodeChar(c: char, rest: Bytes)
    ensures DecodeFirst(EncodeChar(c) + rest) == Decoded(|EncodeChar(c)|, Some(c))
  {
    var n := c as int;
    if n < 0x80 {
      assert (EncodeChar(c) + rest)[0] as int == n;
    } else if n < 0x800 {
      DecodeEncode2(c, rest);
    } else if n < 0x10000 {
      DecodeEncode3(c, rest);
    } else {
      DecodeEncode4(c, rest);
    }
  }

  lemma DecodeEncode2(c: char, rest: Bytes)
    requires 0x80 <= c as int < 0x800
    ensures DecodeFirst(EncodeChar(c) + rest) == Decoded(2, Some(c))
  {
    var n := c as int;
    var bs := EncodeChar(c) + rest;
    assert bs[0] as int == 0xC0 + n / 64 && bs[1] as int == 0x80 + n % 64;
  }

  lemma DecodeEncode3(c: char, rest: Bytes)
    requires 0x800 <= c as int < 0x10000
    ensures DecodeFirst(EncodeChar(c) + rest) == Decoded(3, Some(c))
  {
    var n := c as int;
    var bs := EncodeChar(c) + rest;
    DivMod64(n);
    assert bs[0] as int == 0xE0 + n / 4096;
    assert bs[1] as int == 0x80 + (n / 64) % 64;
    assert bs[2] as int == 0x80 + n % 64;
    assert n < 0xD800 || 0xE000 <= n;
  }

  lemma DecodeEncode4(c: char, rest: Bytes)
    requires 0x10000 <= c as int
    ensures DecodeFirst(EncodeChar(c) + rest) == Decoded(4, Some(c))
  {
    var n := c as int;
    var bs := EncodeChar(c) + rest;
    DivMod64(n);
    assert bs[0] as int == 0xF0 + n / 262144;
    assert bs[1] as int == 0x80 + (n / 4096) % 64;
    assert bs[2] as int == 0x80 + (n / 64) % 64;
    assert bs[3] as int == 0x80 + n % 64;
  }

  /** `s.encode().decode() == s`. */
  lemma {:induction false} StrictRoundTrip(s: string)
    ensures DecodeStrict(Encode(s)) == Some(s)
  {
    if s != [] {
      var e := EncodeChar(s[0]);
      DecodeEncodeChar(s[0], Encode(s[1..]));
      assert Encode(s) == e + Encode(s[1..]);
      assert Encode(s)[|e|..] == Encode(s[1..]);
      StrictRoundTrip(s[1..]);
      assert s == [s[0]] + s[1..];
    }
  }

  /** Decoding with replacement gives back any text that was encoded. */
  lemma {:induction false} ReplaceRoundTrip(s: string)
    ensures DecodeReplace(Encode(s)) == s
  {
    if s != [] {
      var e := EncodeChar(s[0]);
      DecodeEncodeChar(s[0], Encode(s[1..]));
      assert (e + Encode(s[1..]))[|e|..] == Encode(s[1..]);
      ReplaceRoundTrip(s[1..]);
    }
  }

  /** Decoding with replacement never fails and agrees with strict decoding when that succeeds. */
  lemma {:induction false} ReplaceExtendsStrict(bs: Bytes)
    ensures DecodeStrict(bs).Some? ==> DecodeReplace(bs) == DecodeStrict(bs).value
    decreases |bs|
  {
    if bs != [] && DecodeStrict(bs).Some? {
      var d := DecodeFirst(bs);
      var tail := bs[d.used..];
      assert d.ch.Some? && DecodeStrict(tail).Some?;
      ReplaceExtendsStrict(tail);
      assert DecodeStrict(bs).value == [d.ch.value] + DecodeStrict(tail).value;
    }
  }
}
