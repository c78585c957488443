/**
 * The RiBa document of ribalta/src/ribalta/riba.py: a Receipt per due date of
 * a debtor, checked when it is built, and a Document for the creditor that
 * collects receipts. Odoo records are reduced to the fields these classes
 * read; an Odoo char field that is unset (False) is the empty string.
 * Amounts are whole cents.
 */
module Riba {
  import opened Wrappers
  import opened PyText
  import opened Py
  import opened RibaValidators
  import Seqs

  /** A res.partner as the documents read it. */
  datatype Partner = Partner(
    name: string,
    vat: string,
    fiscalcode: string,
    ref: string,
    street: string,
    city: string,
    zip: Value,
    stateCode: Option<string>)

  /** A res.partner.bank: ABI, CAB and account number. */
  datatype Bank = Bank(abi: Value, cab: Value, accNumber: Value)

  /** The creditor's res.company. */
  datatype Company = Company(partner: Partner, sia: Value)

  /** datetime.now() at the document's creation, to the second. */
  datatype Stamp = Stamp(year: nat, month: nat, day: nat, hour: nat, minute: nat, second: nat)

  predicate ValidStamp(t: Stamp) {
    1 <= t.month <= 12 && 1 <= t.day <= 31 && t.hour < 24 && t.minute < 60 && t.second < 60
  }

  datatype Receipt = Receipt(amount: int, debtor: Partner, bank: Bank)

  datatype Document = Document(company: Company, bank: Bank, created: Stamp, receipts: seq<Receipt>)

  // ------------------------------------------------------------ VAT number

  /** `vat.lower().startswith('it')`. */
  predicate ItalianPrefix(vat: string) {
    StartsWith(Lower(vat), "it")
  }

  /**
   * debtor_vat_number / creditor_vat_number: False (None here) when unset,
   * the number without its first two characters when it starts with IT in
   * any case, the number itself otherwise.
   */
  function VatNumber(vat: string): (r: Option<string>)
    ensures r.None? <==> vat == []
  {
    if vat == [] then Option.None
    else if ItalianPrefix(vat) then Some(vat[2..])
    else Some(vat)
  }

  /** `vat_number or fiscalcode`. */
  function VatOrFiscode(p: Partner): (r: string)
    ensures r == [] <==> (VatNumber(p.vat).None? || VatNumber(p.vat) == Some([])) && p.fiscalcode == []
  {
    match VatNumber(p.vat)
    case Some(v) => if v != [] then v else p.fiscalcode
    case None => p.fiscalcode
  }

  /** The IT country prefix goes, in any case, and only it. */
  lemma VatPrefixStripped(code: string, prefix: string)
    requires prefix in {"IT", "it", "It", "iT"}
    ensures VatNumber(prefix + code) == Some(code)
    ensures !ItalianPrefix(code) && code != [] ==> VatNumber(code) == Some(code)
  {
    var s := prefix + code;
    assert Lower(s)[..2] == "it";
    assert s[2..] == code;
  }

  /** A bare 'IT' is stripped to '', which is falsy, so the fiscal code is used instead. */
  lemma BareItFallsBack(p: Partner)
    requires p.vat == "IT"
    ensures VatOrFiscode(p) == p.fiscalcode
  {
    assert Lower(p.vat) == "it";
  }

  // ------------------------------------------------------------ Receipt

  /**
   * Receipt.__init__: ABI, CAB, VAT number or fiscal code, then ZIP; the first
   * failure raises. riba.py runs the checks `AsWritten`.
   */
  function NewReceipt(checks: Checks, amount: int, debtor: Partner, bank: Bank): (r: Result<Receipt, Failure>)
    ensures r.Ok? ==> r.value == Receipt(amount, debtor, bank)
    ensures ValidateAbi(checks, bank.abi).Fail? ==> r == Err(ValidateAbi(checks, bank.abi).error)
    ensures ValidateAbi(checks, bank.abi).Pass? && ValidateCab(checks, bank.cab).Fail? ==> r == Err(ValidateCab(checks, bank.cab).error)
  {
    if ValidateAbi(checks, bank.abi).Fail? then Err(ValidateAbi(checks, bank.abi).error)
    else if ValidateCab(checks, bank.cab).Fail? then Err(ValidateCab(checks, bank.cab).error)
    else if VatOrFiscode(debtor) == [] then Err(FiscalcodeMissing)
    else if ValidateZip(debtor.zip).Fail? then Err(ValidateZip(debtor.zip).error)
    else Ok(Receipt(amount, debtor, bank))
  }

  /** An ABI or CAB the validator as written accepts: five digits, not 00000, as text only. */
  predicate BankText(v: Value) {
    v.Str? && DigitCode(v.s, 5)
  }

  /** An ABI or CAB the intended validator accepts: five digits, not 00000, as text or as an int. */
  predicate BankCode(v: Value) {
    (v.Str? && DigitCode(v.s, 5)) || (v.Int? && 1 <= v.i < 100000)
  }

  /** A ZIP validate_zip accepts: missing, or five digits other than 00000, as text or as an int. */
  predicate ZipCode(v: Value) {
    IsMissing(v) || (v.Str? && DigitCode(v.s, 5)) || (v.Int? && 1 <= v.i < 100000)
  }

  lemma BankCodeAccepted(field: Field, v: Value)
    ensures Code(field, v, 5).Pass? <==> BankCode(v)
  {
    CodeAccepts(field, v, 5);
    assert Pow10(5) == 100000 by {
      assert Pow10(1) == 10;
      assert Pow10(3) == 1000;
    }
  }

  /**
   * A receipt is built exactly when ABI and CAB are five-digit strs, a VAT
   * number or fiscal code is left and the ZIP is acceptable: an int ABI or CAB,
   * however valid, raises TypeError.
   */
  lemma ReceiptAccepts(amount: int, debtor: Partner, bank: Bank)
    ensures NewReceipt(AsWritten, amount, debtor, bank).Ok? <==>
      BankText(bank.abi) && BankText(bank.cab) && VatOrFiscode(debtor) != [] && ZipCode(debtor.zip)
    ensures bank.abi.Int? && bank.abi.i != 0 ==> NewReceipt(AsWritten, amount, debtor, bank) == Err(MissingArgument)
    ensures BankText(bank.abi) && BankText(bank.cab) && ZipCode(debtor.zip) && VatOrFiscode(debtor) == [] ==>
      NewReceipt(AsWritten, amount, debtor, bank) == Err(FiscalcodeMissing)
  {
    CodeAsWrittenAccepts(Abi, bank.abi, 5);
    CodeAsWrittenAccepts(Cab, bank.cab, 5);
    ZipAccepts(debtor.zip);
  }

  /** With the intended checks an int ABI or CAB from 1 to 99999 is accepted too. */
  lemma ReceiptAcceptsIntended(amount: int, debtor: Partner, bank: Bank)
    ensures NewReceipt(Intended, amount, debtor, bank).Ok? <==>
      BankCode(bank.abi) && BankCode(bank.cab) && VatOrFiscode(debtor) != [] && ZipCode(debtor.zip)
    ensures BankCode(bank.abi) && BankCode(bank.cab) && ZipCode(debtor.zip) && VatOrFiscode(debtor) == [] ==>
      NewReceipt(Intended, amount, debtor, bank) == Err(FiscalcodeMissing)
  {
    BankCodeAccepted(Abi, bank.abi);
    BankCodeAccepted(Cab, bank.cab);
    ZipAccepts(debtor.zip);
  }

  /** debtor_client_code: the partner's reference, or '' (unset is '' already here). */
  function ClientCode(p: Partner): (r: string)
    ensures r == p.ref
  {
    p.ref
  }

  /** debtor_state: the state's code when the partner has a state, else ''. */
  function State(p: Partner): (r: string)
    ensures p.stateCode.None? ==> r == []
    ensures p.stateCode.Some? ==> r == p.stateCode.value
  {
    match p.stateCode
    case None => []
    case Some(code) => code
  }

  // ------------------------------------------------------------ Document

  /** `str(company.sia_code).strip()`: an unset code (None) becomes 'None'. */
  function SiaCode(c: Company): (r: string) {
    Strip(ToStr(c.sia))
  }

  /** `partner.zip or ''`. */
  function ZipOrEmpty(p: Partner): (r: Value)
    ensures Truthy(p.zip) ==> r == p.zip
    ensures !Truthy(p.zip) ==> r == Str([])
  {
    if Truthy(p.zip) then p.zip else Str([])
  }

  /**
   * Document.__init__: ABI, CAB, account number, SIA code, VAT-or-fiscal-code,
   * then ZIP. riba.py runs the checks `AsWritten`.
   */
  function NewDocument(checks: Checks, company: Company, bank: Bank, created: Stamp): (r: Result<Document, Failure>)
    ensures r.Ok? ==> r.value == Document(company, bank, created, [])
  {
    if ValidateAbi(checks, bank.abi).Fail? then Err(ValidateAbi(checks, bank.abi).error)
    else if ValidateCab(checks, bank.cab).Fail? then Err(ValidateCab(checks, bank.cab).error)
    else if ValidateAccount(checks, bank.accNumber).Fail? then Err(ValidateAccount(checks, bank.accNumber).error)
    else if ValidateSia(Str(SiaCode(company))).Fail? then Err(ValidateSia(Str(SiaCode(company))).error)
    else if VatOrFiscode(company.partner) == [] then Err(FiscalcodeMissing)
    else if ValidateZip(ZipOrEmpty(company.partner)).Fail? then Err(ValidateZip(ZipOrEmpty(company.partner)).error)
    else Ok(Document(company, bank, created, []))
  }

  /** A twelve-digit account number, not all zeros, as text or as an int. */
  predicate AccountDigits(v: Value) {
    (v.Str? && DigitCode(v.s, 12)) || (v.Int? && 1 <= v.i < Pow10(12))
  }

  lemma AccountAccepted(v: Value)
    ensures ValidateAccount(Intended, v).Pass? <==> AccountDigits(v)
  {
    CodeAccepts(AccountNumber, v, 12);
  }

  /** After `zip or ''` any falsy ZIP passes as missing. */
  lemma ZipOrEmptyAccepted(p: Partner)
    ensures ValidateZip(ZipOrEmpty(p)).Pass? <==> !Truthy(p.zip) || ZipCode(p.zip)
  {
    ZipAccepts(ZipOrEmpty(p));
    ZipAccepts(p.zip);
    MissingIsFalsy(p.zip);
  }

  /**
   * A document is built exactly when the creditor's ABI and CAB are five-digit
   * strs, the account number a twelve-digit str, and the stripped SIA code,
   * VAT-or-fiscal-code and ZIP are acceptable: an int code raises TypeError.
   */
  lemma DocumentAccepts(company: Company, bank: Bank, created: Stamp)
    ensures NewDocument(AsWritten, company, bank, created).Ok? <==>
      BankText(bank.abi) && BankText(bank.cab) && bank.accNumber.Str? && DigitCode(bank.accNumber.s, 12) &&
      SiaShape(SiaCode(company)) && VatOrFiscode(company.partner) != [] &&
      (!Truthy(company.partner.zip) || ZipCode(company.partner.zip))
    ensures BankText(bank.abi) && BankText(bank.cab) && bank.accNumber.Int? && bank.accNumber.i != 0 ==>
      NewDocument(AsWritten, company, bank, created) == Err(MissingArgument)
  {
    CodeAsWrittenAccepts(Abi, bank.abi, 5);
    CodeAsWrittenAccepts(Cab, bank.cab, 5);
    CodeAsWrittenAccepts(AccountNumber, bank.accNumber, 12);
    ZipOrEmptyAccepted(company.partner);
    assert ValidateSia(Str(SiaCode(company))).Pass? <==> SiaShape(SiaCode(company));
  }

  /** With the intended checks int codes in range are accepted too. */
  lemma DocumentAcceptsIntended(company: Company, bank: Bank, created: Stamp)
    ensures NewDocument(Intended, company, bank, created).Ok? <==>
      BankCode(bank.abi) && BankCode(bank.cab) && AccountDigits(bank.accNumber) &&
      SiaShape(SiaCode(company)) && VatOrFiscode(company.partner) != [] &&
      (!Truthy(company.partner.zip) || ZipCode(company.partner.zip))
  {
    BankCodeAccepted(Abi, bank.abi);
    BankCodeAccepted(Cab, bank.cab);
    AccountAccepted(bank.accNumber);
    ZipOrEmptyAccepted(company.partner);
    assert ValidateSia(Str(SiaCode(company))).Pass? <==> SiaShape(SiaCode(company));
  }

  /** An unset SIA code reads as 'None', four characters, and fails the length check. */
  lemma NoSiaCode(company: Company)
    requires company.sia == Value.None
    ensures ValidateSia(Str(SiaCode(company))) == Fail(UserError(Sia, WrongLength))
  {
    StripFixed("None");
  }

  /** `f'{zip_code} {city}'` with an unset part as ''. */
  function ZipAndCity(p: Partner): (r: string) {
    (if Truthy(p.zip) then ToStr(p.zip) else []) + " " + p.city
  }

  /** The first space of zip_and_city separates the ZIP (when it has no space) from the city. */
  lemma ZipAndCityParts(p: Partner)
    requires Truthy(p.zip) ==> Free(ToStr(p.zip), ' ')
    ensures Find(ZipAndCity(p), " ") == |if Truthy(p.zip) then ToStr(p.zip) else []|
    ensures ZipAndCity(p)[..Find(ZipAndCity(p), " ")] == (if Truthy(p.zip) then ToStr(p.zip) else [])
    ensures ZipAndCity(p)[Find(ZipAndCity(p), " ") + 1..] == p.city
  {
    var z: string := if Truthy(p.zip) then ToStr(p.zip) else [];
    var s := ZipAndCity(p);
    FindFirst(s, " ");
    FreeNoOccurrence(z, ' ');
    assert OccursAt(s, " ", |z|) by {
      assert s[|z|..][..1] == " ";
    }
    forall k | 0 <= k < |z|
      ensures !OccursAt(s, " ", k)
    {
      assert s[k..][0] == z[k];
    }
  }

  // ------------------------------------------------------------ name and totals

  /**
   * The document name ("nome supporto"): the creation time as
   * `%d%m%y%H%M%S`, two digits each, then the SIA code.
   */
  function Name(d: Document): (r: string) {
    var t := d.created;
    Format02(t.day) + Format02(t.month) + Format02(t.year % 100)
      + Format02(t.hour) + Format02(t.minute) + Format02(t.second) + SiaCode(d.company)
  }

  /** Two digits for a number below 100. */
  lemma TwoDigits(n: nat)
    requires n < 100
    ensures |Format02(n)| == 2
  {
    DigitsShort(n, 2);
    assert Pow10(2) == 100;
  }

  /** Six two-character fields and a tail, concatenated, can be cut apart again. */
  lemma SixPairs(a: string, b: string, c: string, d: string, e: string, f: string, g: string)
    requires |a| == 2 && |b| == 2 && |c| == 2 && |d| == 2 && |e| == 2 && |f| == 2
    ensures |a + b + c + d + e + f + g| == 12 + |g|
    ensures (a + b + c + d + e + f + g)[0..2] == a
    ensures (a + b + c + d + e + f + g)[2..4] == b
    ensures (a + b + c + d + e + f + g)[4..6] == c
    ensures (a + b + c + d + e + f + g)[6..8] == d
    ensures (a + b + c + d + e + f + g)[8..10] == e
    ensures (a + b + c + d + e + f + g)[10..12] == f
    ensures (a + b + c + d + e + f + g)[12..] == g
  {
  }

  /** The fields of the stamp, two digits each, read back. */
  lemma StampDigits(t: Stamp)
    requires ValidStamp(t)
    ensures |Format02(t.day)| == 2 && ParseInt(Format02(t.day)) == Some(t.day)
    ensures |Format02(t.month)| == 2 && ParseInt(Format02(t.month)) == Some(t.month)
    ensures |Format02(t.year % 100)| == 2 && ParseInt(Format02(t.year % 100)) == Some(t.year % 100)
    ensures |Format02(t.hour)| == 2 && ParseInt(Format02(t.hour)) == Some(t.hour)
    ensures |Format02(t.minute)| == 2 && ParseInt(Format02(t.minute)) == Some(t.minute)
    ensures |Format02(t.second)| == 2 && ParseInt(Format02(t.second)) == Some(t.second)
  {
    TwoDigits(t.day);
    TwoDigits(t.month);
    TwoDigits(t.year % 100);
    TwoDigits(t.hour);
    TwoDigits(t.minute);
    TwoDigits(t.second);
    Format02Parses(t.day);
    Format02Parses(t.month);
    Format02Parses(t.year % 100);
    Format02Parses(t.hour);
    Format02Parses(t.minute);
    Format02Parses(t.second);
  }

  /** The name is twelve digits then the SIA code, and each pair of digits reads back as its field. */
  lemma NameReadsBack(d: Document)
    requires ValidStamp(d.created)
    ensures |Name(d)| == 12 + |SiaCode(d.company)|
    ensures Name(d)[12..] == SiaCode(d.company)
    ensures ParseInt(Name(d)[0..2]) == Some(d.created.day)
    ensures ParseInt(Name(d)[2..4]) == Some(d.created.month)
    ensures ParseInt(Name(d)[4..6]) == Some(d.created.year % 100)
    ensures ParseInt(Name(d)[6..8]) == Some(d.created.hour)
    ensures ParseInt(Name(d)[8..10]) == Some(d.created.minute)
    ensures ParseInt(Name(d)[10..12]) == Some(d.created.second)
  {
    var t := d.created;
    StampDigits(t);
    SixPairs(Format02(t.day), Format02(t.month), Format02(t.year % 100),
             Format02(t.hour), Format02(t.minute), Format02(t.second), SiaCode(d.company));
  }

  function Amounts(rs: seq<Receipt>): (r: seq<int>)
    ensures |r| == |rs| && forall i :: 0 <= i < |rs| ==> r[i] == rs[i].amount
  {
    if rs == [] then [] else [rs[0].amount] + Amounts(rs[1..])
  }

  /** total_amount: the sum of the receipts' amounts. */
  function TotalAmount(d: Document): int {
    Seqs.Sum(Amounts(d.receipts))
  }

  /** add_receipt: append. */
  function AddReceipt(d: Document, r: Receipt): (d': Document) {
    d.(receipts := d.receipts + [r])
  }

  /**
   * Adding a receipt keeps the receipts already there, in order, puts the new
   * one last, leaves everything else alone and adds its amount to the total.
   */
  lemma AddReceiptTotal(d: Document, r: Receipt)
    ensures AddReceipt(d, r).receipts[..|d.receipts|] == d.receipts
    ensures AddReceipt(d, r).receipts[|d.receipts|] == r
    ensures AddReceipt(d, r).(receipts := d.receipts) == d
    ensures TotalAmount(AddReceipt(d, r)) == TotalAmount(d) + r.amount
  {
    assert Amounts(d.receipts + [r]) == Amounts(d.receipts) + [r.amount];
    Seqs.SumSnoc(Amounts(d.receipts), r.amount);
  }

  /** A fresh document's total is 0. */
  lemma EmptyTotal(checks: Checks, company: Company, bank: Bank, created: Stamp)
    ensures NewDocument(checks, company, bank, created).Ok? ==> TotalAmount(NewDocument(checks, company, bank, created).value) == 0
  {
  }
}
