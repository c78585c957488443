/**
 * The accounting counters page
 * (av2000_terminator/navigation/pages/contabilita/anagrafiche/progressivi_base.py):
 * its readiness test and the two counters it shows, the highest client and
 * supplier codes.
 */
module Progressivi {
  import opened Wrappers
  import opened PyText
  import opened Errors
  import opened Session
  import Navigation
  import Py

  const PageName: string := "Progressivi base contabilita'"
  const PageLastLine: nat := 22
  const LastLineContent: string := "Invio  Esc"

  const ClientLine: nat := 4
  const ClientCol: nat := 36
  const SupplierLine: nat := 6
  const SupplierCol: nat := 36

  /** `ready`: the name, the redraw of row 22, and row 22 reading 'Invio  Esc'. */
  predicate Ready(lines: Display, dirty: set<int>) {
    Navigation.PageName(lines) == PageName && PageLastLine in dirty && LastLineContent == Strip(lines[PageLastLine])
  }

  /** `int(line[col:].strip())`. */
  function Counter(lines: Display, row: nat, col: nat): (r: Result<int, Exc>)
    requires row < |lines|
    ensures r.Ok? <==> ParseSigned(Strip(From(lines[row], col))).Some?
    ensures r.Ok? ==> Some(r.value) == ParseSigned(Strip(From(lines[row], col)))
    ensures r.Err? ==> r.error == ValueError
  {
    StripIdempotent(From(lines[row], col));
    Py.IntCall(Py.Str(Strip(From(lines[row], col))))
  }

  /** `max_client_id`: the number on row 4 from column 36. */
  function MaxClientId(lines: Display): Result<int, Exc> {
    Counter(lines, ClientLine, ClientCol)
  }

  /** `max_supplier_id`: the number on row 6 from column 36. */
  function MaxSupplierId(lines: Display): Result<int, Exc> {
    Counter(lines, SupplierLine, SupplierCol)
  }

  /**
   * A counter shown as its decimal digits from column 36, with any padding
   * around it, is read back; a blank field raises ValueError.
   */
  lemma CounterReadsBack(lines: Display, row: nat, col: nat, lead: string, pad: string, n: nat)
    requires row < |lines| && |lines[row]| >= col
    requires AllSpace(lead) && AllSpace(pad)
    requires From(lines[row], col) == lead + NatToStr(n) + pad
    ensures Counter(lines, row, col) == Ok(n)
  {
    var d := NatToStr(n);
    assert IsNumeric(d);
    StripPadded(lead, d, pad);
    SignedNumeric(d);
    DigitsOfNat(n);
  }

  lemma BlankCounterFails(lines: Display, row: nat, col: nat)
    requires row < |lines|
    requires AllSpace(From(lines[row], col))
    ensures Counter(lines, row, col) == Err(ValueError)
  {
    StripEmptyIffBlank(From(lines[row], col));
  }
}
