/**
 * The keystroke vocabulary the terminal driver sends: xterm-r6 function keys,
 * cursor keys and the ESC-prefixed control sequences (av2000_terminator/misc/keys.py).
 */
module Keys {
  const Esc: string := "\U{1B}"
  const Home: string := Esc + "[1~"
  const End: string := Esc + "[4~"
  const PgUp: string := Esc + "[5~"
  const PgDn: string := Esc + "[6~"

  datatype Arrow = Up | Down | Right | Left

  function ArrowKey(a: Arrow): string {
    match a
    case Up => Esc + "[A"
    case Down => Esc + "[B"
    case Right => Esc + "[C"
    case Left => Esc + "[D"
  }

  predicate IsLetter(c: char) {
    ('A' <= c <= 'Z') || ('a' <= c <= 'z')
  }

  /** Position of a letter in the alphabet, ignoring case. */
  function LetterIndex(c: char): (x: nat)
    requires IsLetter(c)
    ensures x < 26
  {
    if 'A' <= c <= 'Z' then c as int - 'A' as int else c as int - 'a' as int
  }

  /** The lower-case form of an upper-case letter. */
  function LowerLetter(c: char): char
    requires 'A' <= c <= 'Z'
  {
    (c as int + 32) as char
  }

  /** CTRL: both cases of each letter map to ESC followed by chr(1 + index). */
  const Ctrl: map<char, string> :=
    map c: char | IsLetter(c) :: Esc + [(1 + LetterIndex(c)) as char]

  /** The xterm-r6 code of function key n, as in the F table. */
  function FCode(n: int): int {
    if 1 <= n <= 5 then 10 + n
    else if 6 <= n <= 10 then 11 + n
    else if 11 <= n <= 14 then 12 + n
    else if 15 <= n <= 16 then 13 + n
    else if 17 <= n <= 20 then 14 + n
    else 0
  }

  const F: map<int, string> := map[
    1 := Esc + "[11~", 2 := Esc + "[12~", 3 := Esc + "[13~", 4 := Esc + "[14~",
    5 := Esc + "[15~", 6 := Esc + "[17~", 7 := Esc + "[18~", 8 := Esc + "[19~",
    9 := Esc + "[20~", 10 := Esc + "[21~", 11 := Esc + "[23~", 12 := Esc + "[24~",
    13 := Esc + "[25~", 14 := Esc + "[26~", 15 := Esc + "[28~", 16 := Esc + "[29~",
    17 := Esc + "[31~", 18 := Esc + "[32~", 19 := Esc + "[33~", 20 := Esc + "[34~"]

  const ShiftF: map<int, string> := map[
    1 := Esc + "[23~", 2 := Esc + "[24~", 3 := Esc + "[25~", 4 := Esc + "[26~",
    5 := Esc + "[28~", 6 := Esc + "[29~", 7 := Esc + "[31~", 8 := Esc + "[32~",
    9 := Esc + "[33~", 10 := Esc + "[34~"]

  /** Two decimal digits of a code in 10..99. */
  function Code2(code: int): string
    requires 10 <= code < 100
  {
    [('0' as int + code / 10) as char, ('0' as int + code % 10) as char]
  }

  /** Every F key is ESC '[' code '~' with the code from FCode. */
  lemma FKeysFollowCodes()
    ensures forall n :: n in F <==> 1 <= n <= 20
    ensures forall n :: 1 <= n <= 20 ==> F[n] == Esc + "[" + Code2(FCode(n)) + "~"
  {
    FKeysDomain();
    forall n | 1 <= n <= 20 ensures F[n] == Esc + "[" + Code2(FCode(n)) + "~" {
      if n <= 5 {
        FKeysFrom1To5(n);
      } else if n <= 10 {
        FKeysFrom6To10(n);
      } else if n <= 15 {
        FKeysFrom11To15(n);
      } else {
        FKeysFrom16To20(n);
      }
    }
  }

  lemma FKeysDomain()
    ensures forall n :: n in F <==> 1 <= n <= 20
  {
  }

  lemma FKeysFrom1To5(n: int)
    requires 1 <= n <= 5
    ensures F[n] == Esc + "[" + Code2(FCode(n)) + "~"
  {
    if n == 1 {
      assert F[1] == Esc + "[" + Code2(FCode(1)) + "~";
    } else if n == 2 {
      assert F[2] == Esc + "[" + Code2(FCode(2)) + "~";
    } else if n == 3 {
      assert F[3] == Esc + "[" + Code2(FCode(3)) + "~";
    } else if n == 4 {
      assert F[4] == Esc + "[" + Code2(FCode(4)) + "~";
    } else {
      assert F[5] == Esc + "[" + Code2(FCode(5)) + "~";
    }
  }

  lemma FKeysFrom6To10(n: int)
    requires 6 <= n <= 10
    ensures F[n] == Esc + "[" + Code2(FCode(n)) + "~"
  {
    if n == 6 {
      assert F[6] == Esc + "[" + Code2(FCode(6)) + "~";
    } else if n == 7 {
      assert F[7] == Esc + "[" + Code2(FCode(7)) + "~";
    } else if n == 8 {
      assert F[8] == Esc + "[" + Code2(FCode(8)) + "~";
    } else if n == 9 {
      assert F[9] == Esc + "[" + Code2(FCode(9)) + "~";
    } else {
      assert F[10] == Esc + "[" + Code2(FCode(10)) + "~";
    }
  }

  lemma FKeysFrom11To15(n: int)
    requires 11 <= n <= 15
    ensures F[n] == Esc + "[" + Code2(FCode(n)) + "~"
  {
    if n == 11 {
      assert F[11] == Esc + "[" + Code2(FCode(11)) + "~";
    } else if n == 12 {
      assert F[12] == Esc + "[" + Code2(FCode(12)) + "~";
    } else if n == 13 {
      assert F[13] == Esc + "[" + Code2(FCode(13)) + "~";
    } else if n == 14 {
      assert F[14] == Esc + "[" + Code2(FCode(14)) + "~";
    } else {
      assert F[15] == Esc + "[" + Code2(FCode(15)) + "~";
    }
  }

  lemma FKeysFrom16To20(n: int)
    requires 16 <= n <= 20
    ensures F[n] == Esc + "[" + Code2(FCode(n)) + "~"
  {
    if n == 16 {
      assert F[16] == Esc + "[" + Code2(FCode(16)) + "~";
    } else if n == 17 {
      assert F[17] == Esc + "[" + Code2(FCode(17)) + "~";
    } else if n == 18 {
      assert F[18] == Esc + "[" + Code2(FCode(18)) + "~";
    } else if n == 19 {
      assert F[19] == Esc + "[" + Code2(FCode(19)) + "~";
    } else {
      assert F[20] == Esc + "[" + Code2(FCode(20)) + "~";
    }
  }

  /** The codes skip 16, 22, 27 and 30, so no two F keys are equal. */
  lemma FKeysDistinct()
    ensures forall a, b :: 1 <= a <= 20 && 1 <= b <= 20 && a != b ==> F[a] != F[b]
  {
    FKeysFollowCodes();
    forall a, b | 1 <= a <= 20 && 1 <= b <= 20 && a != b ensures F[a] != F[b] {
      assert F[a][2..4] == Code2(FCode(a));
      assert F[b][2..4] == Code2(FCode(b));
      assert FCode(a) != FCode(b);
    }
  }

  /** SHIFT_F[n] is the same sequence as F[n + 10]. */
  lemma ShiftIsUpperF()
    ensures forall n :: n in ShiftF <==> 1 <= n <= 10
    ensures forall n :: n in ShiftF ==> n + 10 in F && ShiftF[n] == F[n + 10]
  {
  }

  /** CTRL has one entry per letter of either case (52), each ESC + chr(1 + index), the same for both cases. */
  lemma CtrlTable()
    ensures forall c :: c in Ctrl <==> IsLetter(c)
    ensures forall c :: IsLetter(c) ==> Ctrl[c] == Esc + [(1 + LetterIndex(c)) as char]
    ensures forall c :: 'A' <= c <= 'Z' ==> LowerLetter(c) in Ctrl && Ctrl[c] == Ctrl[LowerLetter(c)]
  {
  }

  /** Every key the tables define begins with ESC. */
  predicate EscPrefixed(k: string) {
    |k| >= 1 && k[0] == Esc[0]
  }

  lemma AllKeysStartWithEsc()
    ensures EscPrefixed(Home) && EscPrefixed(End) && EscPrefixed(PgUp) && EscPrefixed(PgDn)
    ensures forall a: Arrow :: EscPrefixed(ArrowKey(a))
    ensures forall c :: c in Ctrl ==> EscPrefixed(Ctrl[c])
    ensures forall n :: n in F ==> EscPrefixed(F[n])
    ensures forall n :: n in ShiftF ==> EscPrefixed(ShiftF[n])
  {
  }
}

/** The smaller table of sshterminal/escape_sequences.py. */
module EscapeSequences {
  import Keys

  const Esc: string := "\U{1B}"

  const Ctrl: map<char, string> :=
    map c: char | Keys.IsLetter(c) :: Esc + [(1 + Keys.LetterIndex(c)) as char]

  const F: map<int, string> := map[
    0 := Esc + "[10~", 1 := Esc + "[11~", 2 := Esc + "[12~", 3 := Esc + "[13~",
    4 := Esc + "[14~", 5 := Esc + "[15~", 6 := Esc + "[17~", 7 := Esc + "[18~",
    8 := Esc + "[19~", 9 := Esc + "[20~", 10 := Esc + "[21~"]

  /** Keys 0..10 with codes 10-15 and 17-21 (no 16); keys 1..10 agree with the av2000 table. */
  lemma AgreesWithKeys()
    ensures forall n :: n in F <==> 0 <= n <= 10
    ensures F[0] == Esc + "[10~"
    ensures forall n :: 1 <= n <= 10 ==> F[n] == Keys.F[n]
    ensures Ctrl == Keys.Ctrl
  {
  }
}
