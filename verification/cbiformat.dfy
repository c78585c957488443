/**
 * The layout checker of the RiBa tests: CBIFormatValidator
 * (ribalta/tests/tools/validators.py). A CBI Ri.Ba. file is an IB header
 * record, seven records per receipt (14, 20, 30, 40, 50, 51, 70) and an EF
 * trailer record, each exactly 120 characters. Positions below are 0-based,
 * as in the Python slices.
 */
module CbiFormat {
  import opened Wrappers
  import opened PyText
  import opened Errors
  import CbiReference
  import RibaValidators

  const RecordLength: nat := 120

  /** `' ' * n`. */
  function Spaces(n: int): string {
    CbiReference.Spaces(n)
  }

  /** `cbi_doc.split('\r\n')[:-1]`: every piece but the last. */
  function Records(doc: string): (r: seq<string>) {
    var pieces := Split(doc, CbiReference.RecordEnd);
    pieces[..|pieces| - 1]
  }

  /** A file written from clean records gives them back. */
  lemma RecordsRoundTrip(records: seq<string>)
    requires |records| >= 1
    requires forall k :: 0 <= k < |records| ==> CbiReference.Clean(records[k])
    ensures Records(CbiReference.Encode(records)) == records
  {
    CbiReference.SplitEncoded(records);
    assert (records + [[]])[..|records|] == records;
  }

  // ------------------------------------------------------------ the header and trailer

  /** _check_ib on the first record. */
  predicate CheckIb(ib: string) {
    Index(ib, 0) == Some(' ') && Slice(ib, 1, 3) == "IB"
    && Slice(ib, 45, 104) == Spaces(104 - 45)
    && Slice(ib, 111, 113) == Spaces(113 - 111)
    && From(ib, 113) == "E" + Spaces(6)
  }

  /**
   * _check_ef as written: the blank run 92-112 is compared with
   * `' ' * (92 - 113)`, a negative count, which is the empty string.
   */
  predicate CheckEfAsWritten(ef: string) {
    Index(ef, 0) == Some(' ') && Slice(ef, 1, 3) == "EF"
    && Slice(ef, 92, 113) == Spaces(92 - 113)
    && From(ef, 114) == Spaces(5) + "E"
  }

  /** The same check with the count the other way round: 21 spaces. */
  predicate CheckEf(ef: string) {
    Index(ef, 0) == Some(' ') && Slice(ef, 1, 3) == "EF"
    && Slice(ef, 92, 113) == Spaces(113 - 92)
    && From(ef, 114) == Spaces(5) + "E"
  }

  /** As written, no record of the required length passes the EF check. */
  lemma EfAsWrittenRejectsAll(ef: string)
    requires |ef| == RecordLength
    ensures !CheckEfAsWritten(ef)
  {
    assert |Slice(ef, 92, 113)| == 21;
  }

  /** A 120-character trailer the corrected check accepts. */
  function SampleEf(): (r: string)
    ensures |r| == RecordLength
  {
    " EF" + Spaces(116) + "E"
  }

  /** The corrected check accepts a well-formed trailer; the one as written rejects it. */
  lemma EfCheckSatisfiable()
    ensures CheckEf(SampleEf()) && !CheckEfAsWritten(SampleEf())
  {
    var ef := SampleEf();
    assert Slice(ef, 1, 3) == "EF";
    assert Slice(ef, 92, 113) == Spaces(21);
    assert From(ef, 114) == Spaces(5) + "E";
    EfAsWrittenRejectsAll(ef);
  }

  /** _check_ib_ef: columns 3-38 of IB and EF agree. */
  predicate CheckIbEf(ib: string, ef: string) {
    Slice(ib, 3, 39) == Slice(ef, 3, 39)
  }

  // ------------------------------------------------------------ the receipts

  /** `str(n).rjust(7, '0')`: the receipt's progressive number. */
  function Progressive(n: nat): string {
    RJust(NatToStr(n), 7, '0')
  }

  /** A progressive number below 10 ** 7 is seven digits and reads back. */
  lemma ProgressiveReadsBack(n: nat)
    requires n < 10000000
    ensures |Progressive(n)| == 7 && IsNumeric(Progressive(n))
    ensures ParseInt(Progressive(n)) == Some(n)
  {
    assert RibaValidators.Pow10(7) == 10000000 by {
      assert RibaValidators.Pow10(2) == 100;
      assert RibaValidators.Pow10(4) == 10000;
    }
    RibaValidators.PaddedDigits(n, 7);
    ParseNumeric(Progressive(n));
  }

  /** The record start, then the progressive number in columns 3-9. */
  predicate Head(r: string, code: string, p: string) {
    StartsWith(r, code) && Slice(r, 3, 10) == p
  }

  predicate Record14(r: string, p: string) {
    Head(r, " 14", p) && Slice(r, 10, 22) == Spaces(12) && Slice(r, 79, 91) == Spaces(12)
    && Slice(r, 114, 119) == Spaces(5) && Index(r, 119) == Some('E')
  }

  predicate Record20(r: string, p: string) {
    Head(r, " 20", p) && Slice(r, 106, 120) == Spaces(14)
  }

  predicate Record30(r: string, p: string) {
    Head(r, " 30", p) && Slice(r, 86, 120) == Spaces(34)
  }

  predicate Record40(r: string, p: string) {
    Head(r, " 40", p)
  }

  predicate Record50(r: string, p: string) {
    Head(r, " 50", p) && Slice(r, 90, 100) == Spaces(10) && Slice(r, 116, 120) == Spaces(4)
  }

  predicate Record51(r: string, p: string) {
    Head(r, " 51", p) && Slice(r, 71, 120) == Spaces(49)
  }

  predicate Record70(r: string, p: string) {
    Head(r, " 70", p) && Slice(r, 10, 88) == Spaces(78)
    && Slice(r, 100, 103) == Spaces(3) && Slice(r, 103, 120) == Spaces(17)
  }

  /** _check_single_receipt: seven records, in order, all carrying progressive number n. */
  predicate Receipt(g: seq<string>, n: nat) {
    var p := Progressive(n);
    |g| == 7 && Record14(g[0], p) && Record20(g[1], p) && Record30(g[2], p) && Record40(g[3], p)
    && Record50(g[4], p) && Record51(g[5], p) && Record70(g[6], p)
  }

  /** A check of one group of seven records as receipt number n. */
  type GroupCheck = (seq<string>, nat) -> bool

  /**
   * The loop of _check_receipts, for any check of a single receipt: groups
   * of seven from receipt number n on.
   */
  predicate Loop(check: GroupCheck, middle: seq<string>, n: nat)
    decreases |middle|
  {
    |middle| < 7 || (check(middle[..7], n) && Loop(check, middle[7..], n + 1))
  }

  /** The loop with _check_single_receipt. */
  predicate Receipts(middle: seq<string>, n: nat) {
    Loop(Receipt, middle, n)
  }

  /** Every group of seven passes the check, the j-th as number n + j. */
  predicate Groups(check: GroupCheck, middle: seq<string>, n: nat) {
    forall j :: 0 <= j < |middle| && 7 * j + 7 <= |middle| ==> check(middle[7 * j..7 * j + 7], n + j)
  }

  /**
   * Over a multiple of seven records the loop checks group j as receipt
   * n + j, for every j.
   */
  lemma {:induction false} LoopAt(check: GroupCheck, middle: seq<string>, n: nat, j: nat)
    requires |middle| % 7 == 0 && Loop(check, middle, n) && 7 * j < |middle|
    ensures check(middle[7 * j..7 * j + 7], n + j)
    decreases j
  {
    if j > 0 {
      assert middle[7..][7 * (j - 1)..7 * (j - 1) + 7] == middle[7 * j..7 * j + 7];
      LoopAt(check, middle[7..], n + 1, j - 1);
    }
  }

  lemma GroupsShift(check: GroupCheck, middle: seq<string>, n: nat)
    requires |middle| >= 7 && Groups(check, middle, n)
    ensures check(middle[..7], n) && Groups(check, middle[7..], n + 1)
  {
    assert middle[..7] == middle[7 * 0..7 * 0 + 7];
    forall j | 0 <= j < |middle[7..]| && 7 * j + 7 <= |middle[7..]|
      ensures check(middle[7..][7 * j..7 * j + 7], n + 1 + j)
    {
      var k := j + 1;
      assert check(middle[7 * k..7 * k + 7], n + k);
      assert middle[7..][7 * j..7 * j + 7] == middle[7 * k..7 * k + 7];
    }
  }

  /** Conversely, every group passing its check makes the loop pass. */
  lemma {:induction false} LoopFromGroups(check: GroupCheck, middle: seq<string>, n: nat)
    requires Groups(check, middle, n)
    ensures Loop(check, middle, n)
    decreases |middle|
  {
    if |middle| >= 7 {
      GroupsShift(check, middle, n);
      LoopFromGroups(check, middle[7..], n + 1);
    }
  }

  /**
   * On a multiple of seven records, _check_receipts passes exactly when the
   * j-th group of seven is receipt number n + j, for every j.
   */
  lemma ReceiptsIffGroups(middle: seq<string>, n: nat)
    requires |middle| % 7 == 0
    ensures Receipts(middle, n) <==> Groups(Receipt, middle, n)
  {
    if Receipts(middle, n) {
      forall j | 0 <= j < |middle| && 7 * j + 7 <= |middle|
        ensures Receipt(middle[7 * j..7 * j + 7], n + j)
      {
        LoopAt(Receipt, middle, n, j);
      }
    }
    if Groups(Receipt, middle, n) {
      LoopFromGroups(Receipt, middle, n);
    }
  }

  // ------------------------------------------------------------ validate

  predicate AllLength(records: seq<string>) {
    forall k :: 0 <= k < |records| ==> |records[k]| == RecordLength
  }

  /** `records[1:-1]`. */
  function Middle(records: seq<string>): seq<string> {
    Slice(records, 1, -1)
  }

  /**
   * validate as written: lengths, _check_ib twice, _check_ib_ef, then the
   * receipts; _check_ef is never called. IndexError when there is no record.
   */
  function ValidateAsWritten(records: seq<string>): (r: Outcome<Exc>) {
    if !AllLength(records) then Fail(AssertionFailed)
    else if records == [] then Fail(IndexError)
    else if !CheckIb(records[0]) || !CheckIb(records[0]) then Fail(AssertionFailed)
    else if !CheckIbEf(records[0], records[|records| - 1]) then Fail(AssertionFailed)
    else if |Middle(records)| % 7 != 0 then Fail(AssertionFailed)
    else if !Receipts(Middle(records), 1) then Fail(AssertionFailed)
    else Pass
  }

  /** validate with the trailer checked, by the corrected EF check. */
  function Validate(records: seq<string>): (r: Outcome<Exc>) {
    if !AllLength(records) then Fail(AssertionFailed)
    else if records == [] then Fail(IndexError)
    else if !CheckIb(records[0]) then Fail(AssertionFailed)
    else if !CheckEf(records[|records| - 1]) then Fail(AssertionFailed)
    else if !CheckIbEf(records[0], records[|records| - 1]) then Fail(AssertionFailed)
    else if |Middle(records)| % 7 != 0 then Fail(AssertionFailed)
    else if !Receipts(Middle(records), 1) then Fail(AssertionFailed)
    else Pass
  }

  /**
   * A file that passes has 120-character records, an IB header, a valid
   * trailer, and between them whole receipts, the j-th numbered j + 1.
   */
  lemma ValidateMeans(records: seq<string>, j: nat)
    requires Validate(records).Pass?
    ensures AllLength(records) && |records| >= 1
    ensures CheckIb(records[0]) && CheckEf(records[|records| - 1])
    ensures |Middle(records)| % 7 == 0
    ensures 7 * j < |Middle(records)| ==> Receipt(Middle(records)[7 * j..7 * j + 7], j + 1)
  {
    if 7 * j < |Middle(records)| {
      LoopAt(Receipt, Middle(records), 1, j);
    }
  }

  /** The corrected validation only adds a check: what it accepts, the one as written accepts. */
  lemma ValidateStricter(records: seq<string>)
    ensures Validate(records).Pass? ==> ValidateAsWritten(records).Pass?
  {
  }

  /**
   * As written, validate never reads the trailer beyond its length and
   * columns 3-38: any 120-character last record with those columns passes in
   * place of the real one, including one that is not an EF record at all.
   */
  lemma EfNeverChecked(records: seq<string>, other: string)
    requires |records| >= 2 && ValidateAsWritten(records).Pass?
    requires |other| == RecordLength && Slice(other, 3, 39) == Slice(records[|records| - 1], 3, 39)
    ensures ValidateAsWritten(records[..|records| - 1] + [other]).Pass?
  {
    var swapped := records[..|records| - 1] + [other];
    assert Middle(swapped) == Middle(records);
    assert swapped[0] == records[0];
  }

  /** A trailer that does not start with ' EF' slips through as written and is caught by the corrected check. */
  lemma NotEfCaught(records: seq<string>, other: string)
    requires |records| >= 2 && ValidateAsWritten(records).Pass?
    requires |other| == RecordLength && Slice(other, 3, 39) == Slice(records[|records| - 1], 3, 39)
    requires Slice(other, 1, 3) != "EF"
    ensures ValidateAsWritten(records[..|records| - 1] + [other]).Pass?
    ensures Validate(records[..|records| - 1] + [other]) == Fail(AssertionFailed)
  {
    EfNeverChecked(records, other);
  }
}
