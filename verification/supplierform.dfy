/**
 * DettagliFornitore as a form (navigation/pages/contabilita/anagrafiche/fornitori.py):
 * committing the supplier card, then reacting to the message the program leaves
 * on screen row -3, and leaving the card with END.
 */
module SupplierForm {
  import opened Wrappers
  import opened PyText
  import opened Utf8
  import opened Errors
  import opened Session
  import opened Terminal
  import opened Form
  import opened FormPage
  import Keys

  /** The VAT number is already used by another supplier: confirm with the return key. */
  const VatInUse: string := "MSG0239 Partita IVA gia' usata per"

  /** The VAT number is wrong: F4. */
  const VatWrong: string := "MSG00\"% Partita IVA errata"

  /** Any other program message is an error. */
  const MessagePrefix: string := "MSG"

  /** `back` sends END. */
  const BackKeys: seq<string> := [Keys.End]

  /** What commit_changes does about row -3. */
  datatype Reaction = Confirm | Correct | Raise | Quiet

  /** The if/elif chain on row -3, in source order. */
  function React(row: string): (r: Reaction)
    ensures r == Confirm <==> StartsWith(row, VatInUse)
    ensures r == Correct <==> StartsWith(row, VatWrong) && !StartsWith(row, VatInUse)
    ensures r == Raise <==> StartsWith(row, MessagePrefix) && !StartsWith(row, VatInUse) && !StartsWith(row, VatWrong)
    ensures r == Quiet <==> !StartsWith(row, MessagePrefix)
  {
    MessagesArePrefixed(row);
    if StartsWith(row, VatInUse) then Confirm
    else if StartsWith(row, VatWrong) then Correct
    else if StartsWith(row, MessagePrefix) then Raise
    else Quiet
  }

  /** Both known messages start with 'MSG', so a row without it is neither. */
  lemma MessagesArePrefixed(row: string)
    ensures StartsWith(row, VatInUse) ==> StartsWith(row, MessagePrefix)
    ensures StartsWith(row, VatWrong) ==> StartsWith(row, MessagePrefix)
  {
    if StartsWith(row, VatInUse) {
      assert row[..3] == row[..|VatInUse|][..3];
    }
    if StartsWith(row, VatWrong) {
      assert row[..3] == row[..|VatWrong|][..3];
    }
  }

  /** The text of the FormError: row -3 without its 'q's, stripped. */
  function MessageText(row: string): string {
    Strip(RemoveChar(row, 'q'))
  }

  /**
   * DettagliFornitore.commit_changes: the form's commit (flush, then the return
   * key), then one of: confirm an already used VAT number, press F4 on a wrong
   * one, raise FormError on any other message, or nothing.
   */
  function CommitChanges(t: Term, env: Env, p: Page, delete: string): (r: (Term, Page, Result<(), Exc>))
    requires Valid(p)
    ensures Commit(t, env, p, delete).2.Err? ==> r == Commit(t, env, p, delete)
    ensures Commit(t, env, p, delete).2.Ok? ==>
      var (t1, p1, _) := Commit(t, env, p, delete);
      var row := t1.lines[Rows - 3];
      && r.1 == p1
      && (React(row) == Confirm ==> r.2.Ok? && Sends(r.0.log) == Sends(t1.log) + [Encode(ReturnChar)])
      && (React(row) == Correct ==> r.2.Ok? && Sends(r.0.log) == Sends(t1.log) + [Encode(Keys.F[4])])
      && (React(row) == Raise ==> r == (t1, p1, Err(FormError(MessageText(row)))))
      && (React(row) == Quiet ==> r == (t1, p1, Ok(())))
  {
    var (t1, p1, res) := Commit(t, env, p, delete);
    if res.Err? then (t1, p1, res)
    else
      var row := t1.lines[Rows - 3];
      match React(row)
      case Confirm =>
        var s := SendSeq(t1, env, ReturnChar);
        (s.t, p1, s.r)
      case Correct =>
        var s := SendSeq(t1, env, Keys.F[4]);
        (s.t, p1, s.r)
      case Raise => (t1, p1, Err(FormError(MessageText(row))))
      case Quiet => (t1, p1, Ok(()))
  }

  /** A message the chain does not know about is reported without its 'q' frame characters. */
  lemma UnknownMessageRaises(row: string)
    requires StartsWith(row, "MSG0001 ")
    ensures React(row) == Raise
    ensures forall i :: 0 <= i < |MessageText(row)| ==> MessageText(row)[i] != 'q'
  {
    assert row[4] == row[..8][4] == '0' && row[5] == row[..8][5] == '0';
    if |VatInUse| <= |row| {
      assert row[..|VatInUse|][4] == row[4];
    }
    if |VatWrong| <= |row| {
      assert row[..|VatWrong|][5] == row[5];
    }
    assert row[..3] == row[..8][..3];
    StripIsCore(RemoveChar(row, 'q'));
  }
}
