/**
 * The reference-file validator of the RiBa tests: CBIReferenceValidator
 * (ribalta/tests/validators.py) and its twin CBIReferenceModelValidator
 * (ribalta/tests/tools/validators.py, lines 12-167), which are the same code.
 * A generated CBI file is compared with a reference file record by record,
 * after blanking the creation date and the document name in the first (IB)
 * and last (EF) records.
 *
 * A CBI file is a sequence of records, each ended by CR LF.
 */
module CbiReference {
  import opened Wrappers
  import opened PyText
  import opened Errors

  const RecordEnd: string := "\r\n"

  /** Columns 14-19 (the creation date) and 20-39 (the document name), 1-based and inclusive. */
  const DateField: (int, int) := (14, 19)
  const NameField: (int, int) := (20, 39)
  const Fields: seq<(int, int)> := [DateField, NameField]

  /** `' ' * n`: the empty string when n is not positive. */
  function Spaces(n: int): (r: string)
    ensures |r| == if n > 0 then n else 0
    ensures forall i :: 0 <= i < |r| ==> r[i] == ' '
  {
    if n > 0 then Repeat(' ', n) else []
  }

  // ------------------------------------------------------------ _fields_blanket

  /** One field: `data[:s - 1] + ' ' * (e - s + 1) + data[e:]`. */
  function BlankField(data: string, field: (int, int)): string {
    var s := field.0 - 1;
    var n := field.1;
    UpTo(data, s) + Spaces(n - s) + From(data, n)
  }

  /** _fields_blanket: the fields one after the other. */
  function Blanket(data: string, fields: seq<(int, int)>): string
    decreases |fields|
  {
    if fields == [] then data else Blanket(BlankField(data, fields[0]), fields[1..])
  }

  /** A field that lies inside a string of length n. */
  predicate Within(field: (int, int), n: nat) {
    1 <= field.0 <= field.1 <= n
  }

  predicate AllWithin(fields: seq<(int, int)>, n: nat) {
    forall k :: 0 <= k < |fields| ==> Within(fields[k], n)
  }

  /** 0-based position i falls in one of the fields. */
  predicate Covered(i: int, fields: seq<(int, int)>)
    decreases |fields|
  {
    fields != [] && ((fields[0].0 - 1 <= i < fields[0].1) || Covered(i, fields[1..]))
  }

  lemma BlankFieldSpec(data: string, field: (int, int))
    requires Within(field, |data|)
    ensures |BlankField(data, field)| == |data|
    ensures forall i :: 0 <= i < |data| ==>
      BlankField(data, field)[i] == if field.0 - 1 <= i < field.1 then ' ' else data[i]
  {
  }

  /**
   * With fields inside the string, blanking keeps the length, turns exactly
   * the covered positions into spaces and leaves every other character as it was.
   */
  lemma {:induction false} BlanketSpec(data: string, fields: seq<(int, int)>)
    requires AllWithin(fields, |data|)
    ensures |Blanket(data, fields)| == |data|
    ensures forall i :: 0 <= i < |data| ==> Blanket(data, fields)[i] == if Covered(i, fields) then ' ' else data[i]
    decreases |fields|
  {
    if fields != [] {
      var d1 := BlankField(data, fields[0]);
      BlankFieldSpec(data, fields[0]);
      assert AllWithin(fields[1..], |d1|) by {
        forall k | 0 <= k < |fields[1..]| ensures Within(fields[1..][k], |d1|) {
          assert fields[1..][k] == fields[k + 1];
        }
      }
      BlanketSpec(d1, fields[1..]);
    }
  }

  /** Blanking twice is blanking once. */
  lemma BlanketIdempotent(data: string, fields: seq<(int, int)>)
    requires AllWithin(fields, |data|)
    ensures Blanket(Blanket(data, fields), fields) == Blanket(data, fields)
  {
    BlanketSpec(data, fields);
    BlanketSpec(Blanket(data, fields), fields);
  }

  /** Two strings blank to the same string exactly when they have one length and agree outside the fields. */
  lemma BlanketEqual(a: string, b: string, fields: seq<(int, int)>)
    requires AllWithin(fields, |a|) && AllWithin(fields, |b|)
    ensures Blanket(a, fields) == Blanket(b, fields) <==>
      |a| == |b| && forall i :: 0 <= i < |a| && !Covered(i, fields) ==> a[i] == b[i]
  {
    BlanketSpec(a, fields);
    BlanketSpec(b, fields);
    if |a| == |b| && forall i :: 0 <= i < |a| && !Covered(i, fields) ==> a[i] == b[i] {
      assert Blanket(a, fields) == Blanket(b, fields);
    }
  }

  /** The two fields in 0-based terms: columns 13-18 and 19-38. */
  lemma FieldsCover(i: int)
    ensures Covered(i, Fields) <==> 13 <= i < 39
  {
    assert Fields[1..] == [NameField];
    assert [NameField][1..] == [];
    assert !Covered(i, []);
    assert Covered(i, [NameField]) <==> 19 <= i < 39;
    assert Covered(i, Fields) <==> (13 <= i < 19) || Covered(i, [NameField]);
  }

  // ------------------------------------------------------------ _cbi_data_splitter

  /**
   * _cbi_data_splitter: split on CR LF, drop the last piece, then take the
   * first as IB and the last as EF; the pops raise IndexError when too few
   * pieces are left.
   */
  function Splitter(data: string): (r: Result<(string, string, seq<string>), Exc>)
    ensures r.Err? ==> r.error == IndexError
  {
    var pieces := Split(data, RecordEnd);
    var records := pieces[..|pieces| - 1];
    if |records| < 2 then Err(IndexError)
    else Ok((records[0], records[|records| - 1], records[1..|records| - 1]))
  }

  /** A record that holds no CR. */
  predicate Clean(rec: string) {
    Free(rec, '\r')
  }

  lemma {:induction false} JoinSnocEmpty(parts: seq<string>, sep: string)
    requires |parts| >= 1
    ensures Join(parts + [[]], sep) == Join(parts, sep) + sep
  {
    if |parts| == 1 {
      assert (parts + [[]])[1..] == [[]];
    } else {
      assert (parts + [[]])[1..] == parts[1..] + [[]];
      JoinSnocEmpty(parts[1..], sep);
    }
  }

  /** The records of a file written as records each followed by CR LF. */
  function Encode(records: seq<string>): string {
    if records == [] then [] else Join(records, RecordEnd) + RecordEnd
  }

  /** Splitting a file written from clean records gives them back, with the trailing empty piece. */
  lemma SplitEncoded(records: seq<string>)
    requires |records| >= 1
    requires forall k :: 0 <= k < |records| ==> Clean(records[k])
    ensures Split(Encode(records), RecordEnd) == records + [[]]
  {
    JoinSnocEmpty(records, RecordEnd);
    JoinSplitSep(records + [[]], RecordEnd);
  }

  /** The splitter gives back the IB record, the EF record and the records between them. */
  lemma SplitterRoundTrip(ib: string, ef: string, middle: seq<string>)
    requires Clean(ib) && Clean(ef) && forall k :: 0 <= k < |middle| ==> Clean(middle[k])
    ensures Splitter(Encode([ib] + middle + [ef])) == Ok((ib, ef, middle))
  {
    var records := [ib] + middle + [ef];
    forall k | 0 <= k < |records| ensures Clean(records[k]) {
      if 0 < k < |records| - 1 {
        assert records[k] == middle[k - 1];
      }
    }
    SplitEncoded(records);
    assert (records + [[]])[..|records|] == records;
    assert records[1..|records| - 1] == middle;
  }

  // ------------------------------------------------------------ validate_data

  /** The reference file, split. */
  datatype Reference = Reference(ib: string, ef: string, receipts: seq<string>)

  /** __init__: the reference is split the same way, and fails the same way. */
  function NewReference(doc: string): (r: Result<Reference, Exc>)
    ensures r.Ok? <==> Splitter(doc).Ok?
  {
    match Splitter(doc)
    case Ok((ib, ef, receipts)) => Ok(Reference(ib, ef, receipts))
    case Err(e) => Err(e)
  }

  /** _check_ib / _check_ef: equal after blanking date and name. */
  predicate SameBlanked(ref: string, rec: string) {
    Blanket(ref, Fields) == Blanket(rec, Fields)
  }

  /**
   * _check_ib_ef_common_fields as written: the "EF date" is cut from the IB
   * record, so the date comparison compares a string with itself.
   */
  predicate CommonFields(ib: string, ef: string) {
    var ibDate := Slice(ib, DateField.0 - 1, DateField.1);
    var ibName := Slice(ib, NameField.0 - 1, NameField.1);
    var efDate := Slice(ib, DateField.0 - 1, DateField.1);
    var efName := Slice(ef, NameField.0 - 1, NameField.1);
    ibDate == efDate && ibName == efName
  }

  /** Only the document names of IB and EF are compared. */
  lemma CommonFieldsNameOnly(ib: string, ef: string)
    ensures CommonFields(ib, ef) <==> Slice(ib, 19, 39) == Slice(ef, 19, 39)
  {
  }

  /**
   * validate_data: split the file (IndexError), then the asserts in order:
   * IB, EF, the common fields, the receipt count, and each receipt equal to
   * the reference's (_check_receipts asserts inside its loop).
   */
  function ValidateData(ref: Reference, data: string): (r: Outcome<Exc>)
  {
    match Splitter(data)
    case Err(e) => Fail(e)
    case Ok((ib, ef, receipts)) =>
      if !SameBlanked(ref.ib, ib) then Fail(AssertionFailed)
      else if !SameBlanked(ref.ef, ef) then Fail(AssertionFailed)
      else if !CommonFields(ib, ef) then Fail(AssertionFailed)
      else if |ref.receipts| != |receipts| then Fail(AssertionFailed)
      else if ref.receipts != receipts then Fail(AssertionFailed)
      else Pass
  }

  /** Records of at least 39 characters: both fields lie inside them. */
  predicate Long(rec: string) {
    |rec| >= 39
  }

  lemma FieldsWithin(n: nat)
    requires n >= 39
    ensures AllWithin(Fields, n)
  {
  }

  /**
   * A file written from clean records passes exactly when its IB and EF have
   * the reference's lengths and agree with it outside columns 14-39, its IB
   * and EF carry the same document name, and its receipts are the
   * reference's, in order.
   */
  lemma ValidateDataAccepts(ref: Reference, ib: string, ef: string, receipts: seq<string>)
    requires Clean(ib) && Clean(ef) && forall k :: 0 <= k < |receipts| ==> Clean(receipts[k])
    requires Long(ref.ib) && Long(ref.ef) && Long(ib) && Long(ef)
    ensures ValidateData(ref, Encode([ib] + receipts + [ef])).Pass? <==>
      |ib| == |ref.ib| && (forall i :: 0 <= i < |ib| && !(13 <= i < 39) ==> ib[i] == ref.ib[i]) &&
      |ef| == |ref.ef| && (forall i :: 0 <= i < |ef| && !(13 <= i < 39) ==> ef[i] == ref.ef[i]) &&
      ib[19..39] == ef[19..39] &&
      receipts == ref.receipts
  {
    SplitterRoundTrip(ib, ef, receipts);
    FieldsWithin(|ib|);
    FieldsWithin(|ef|);
    FieldsWithin(|ref.ib|);
    FieldsWithin(|ref.ef|);
    BlanketEqual(ref.ib, ib, Fields);
    BlanketEqual(ref.ef, ef, Fields);
    forall i ensures Covered(i, Fields) <==> 13 <= i < 39 {
      FieldsCover(i);
    }
    CommonFieldsNameOnly(ib, ef);
  }
}
