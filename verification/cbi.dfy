/**
 * The CBI document of ribalta/src/ribalta/cbi.py: the older variant of the
 * RiBa classes, with a Line per due date and lighter constructor checks (only
 * presence, no format). Partners, banks, companies and the VAT handling are
 * those of `Riba`, which cbi.py repeats line for line.
 */
module Cbi {
  import opened Wrappers
  import opened PyText
  import opened Py
  import opened RibaValidators
  import Riba
  import Seqs

  datatype Line = Line(amount: int, debtor: Riba.Partner, bank: Riba.Bank)

  datatype Document = Document(company: Riba.Company, bank: Riba.Bank, created: Riba.Stamp, currency: string, lines: seq<Line>)

  /** Line.__init__: ABI and CAB present, then a VAT number or a fiscal code. */
  function NewLine(amount: int, debtor: Riba.Partner, bank: Riba.Bank): (r: Result<Line, Failure>)
    ensures r.Ok? ==> r.value == Line(amount, debtor, bank)
  {
    if !Truthy(bank.abi) || !Truthy(bank.cab) then Err(UserError(BankCodes, Missing))
    else if Riba.VatOrFiscode(debtor) == [] then Err(UserError(VatOrFiscalCode, Missing))
    else Ok(Line(amount, debtor, bank))
  }

  /** A line is built exactly when ABI and CAB are truthy and a VAT number or fiscal code is left. */
  lemma LineAccepts(amount: int, debtor: Riba.Partner, bank: Riba.Bank)
    ensures NewLine(amount, debtor, bank).Ok? <==> Truthy(bank.abi) && Truthy(bank.cab) && Riba.VatOrFiscode(debtor) != []
    ensures !Truthy(bank.abi) ==> NewLine(amount, debtor, bank) == Err(UserError(BankCodes, Missing))
    ensures Truthy(bank.abi) && Truthy(bank.cab) && Riba.VatOrFiscode(debtor) == [] ==>
      NewLine(amount, debtor, bank) == Err(UserError(VatOrFiscalCode, Missing))
  {
  }

  /**
   * Document.__init__ with currency_code defaulting to 'E': ABI and CAB, the
   * account number (IBAN), the stripped SIA code, then VAT-or-fiscal-code;
   * only presence is checked.
   */
  function NewDocument(company: Riba.Company, bank: Riba.Bank, created: Riba.Stamp, currency: string := "E"): (r: Result<Document, Failure>)
    ensures r.Ok? ==> r.value == Document(company, bank, created, currency, [])
  {
    if !Truthy(bank.abi) || !Truthy(bank.cab) then Err(UserError(BankCodes, Missing))
    else if !Truthy(bank.accNumber) then Err(UserError(Iban, Missing))
    else if Riba.SiaCode(company) == [] then Err(UserError(Sia, Missing))
    else if Riba.VatOrFiscode(company.partner) == [] then Err(UserError(VatOrFiscalCode, Missing))
    else Ok(Document(company, bank, created, currency, []))
  }

  /** Without a currency the document is in euro ('E'). */
  lemma DefaultCurrency(company: Riba.Company, bank: Riba.Bank, created: Riba.Stamp)
    ensures NewDocument(company, bank, created).Ok? ==> NewDocument(company, bank, created).value.currency == "E"
  {
  }

  /**
   * The SIA check only rejects a code that strips to nothing: an unset code
   * reads as 'None' and passes.
   */
  lemma SiaOnlyPresence(company: Riba.Company, bank: Riba.Bank, created: Riba.Stamp)
    requires Truthy(bank.abi) && Truthy(bank.cab) && Truthy(bank.accNumber)
    ensures NewDocument(company, bank, created) == Err(UserError(Sia, Missing)) <==> Strip(ToStr(company.sia)) == []
    ensures company.sia == Value.None ==> NewDocument(company, bank, created) != Err(UserError(Sia, Missing))
  {
    StripFixed("None");
  }

  /**
   * Every creditor the RiBa document accepts, with its checks as written or as
   * intended, the CBI document accepts too: the CBI checks are the presence
   * halves of the RiBa ones.
   */
  lemma RibaStricter(checks: Checks, company: Riba.Company, bank: Riba.Bank, created: Riba.Stamp)
    ensures Riba.NewDocument(checks, company, bank, created).Ok? ==> NewDocument(company, bank, created).Ok?
  {
    CodeAccepts(Abi, bank.abi, 5);
    CodeAccepts(Cab, bank.cab, 5);
    CodeAccepts(AccountNumber, bank.accNumber, 12);
    CodeAsWrittenAccepts(Abi, bank.abi, 5);
    CodeAsWrittenAccepts(Cab, bank.cab, 5);
    CodeAsWrittenAccepts(AccountNumber, bank.accNumber, 12);
  }

  /** total_amount: the sum of the lines' amounts. */
  function TotalAmount(d: Document): int {
    Seqs.Sum(LineAmounts(d.lines))
  }

  function LineAmounts(ls: seq<Line>): (r: seq<int>)
    ensures |r| == |ls| && forall i :: 0 <= i < |ls| ==> r[i] == ls[i].amount
  {
    if ls == [] then [] else [ls[0].amount] + LineAmounts(ls[1..])
  }

  /** add_line: append. */
  function AddLine(d: Document, l: Line): (d': Document) {
    d.(lines := d.lines + [l])
  }

  /** Adding a line keeps the earlier lines, puts the new one last and adds its amount to the total. */
  lemma AddLineTotal(d: Document, l: Line)
    ensures AddLine(d, l).lines[..|d.lines|] == d.lines
    ensures AddLine(d, l).lines[|d.lines|] == l
    ensures AddLine(d, l).(lines := d.lines) == d
    ensures TotalAmount(AddLine(d, l)) == TotalAmount(d) + l.amount
  {
    assert LineAmounts(d.lines + [l]) == LineAmounts(d.lines) + [l.amount];
    Seqs.SumSnoc(LineAmounts(d.lines), l.amount);
  }
}
