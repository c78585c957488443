/**
 * The partner detail pages: DettagliFornitore (the supplier card, in
 * av2000_terminator/navigation/pages/anagrafiche.py and in
 * navigation/pages/contabilita/anagrafiche/fornitori.py) and DettagliClienti
 * (navigation/pages/contabilita/anagrafiche/clienti.py). Each has a readiness
 * test on rows 36 and 38, a record layout read by get_data, and the clients'
 * get_data walks three further sub-pages before coming back.
 */
module Details {
  import opened Wrappers
  import opened PyText
  import opened Errors
  import opened Session
  import opened Utf8
  import opened Terminal
  import opened Xtractor
  import opened Records
  import RowRegex
  import Keys
  import Navigation

  // ---------------------------------------------------------------- readiness

  const SupplierPageName: string := "Anagrafica fornitori"
  const ClientPageName: string := "Anagrafica clienti"

  /** The bottom menu of both detail cards (row 38, stripped). */
  const CardMenu: string := "F7   Invio  Esc  Fine   F3   Note  F6   Collegamenti"

  /** `^\s*Cognome .*Nome .*% imp calcolo RA \s*`, the last data row of the supplier card. */
  const SupplierLastRow: RowRegex.Regex := RowRegex.Regex("Cognome ", ["Nome ", "% imp calcolo RA "], false)

  /** `^\s*Sconto a litro .*Provvigioni .*Sc\.tot\.bolla S/N .\s*`, the last data row of the client card. */
  const ClientLastRow: RowRegex.Regex := RowRegex.Regex("Sconto a litro ", ["Provvigioni ", "Sc.tot.bolla S/N "], true)

  /** The readiness test of anagrafiche.py's DettagliFornitore: the page name is computed but not used. */
  predicate SupplierCardShown(lines: Display) {
    RowRegex.Matches(SupplierLastRow, lines[36]) && Strip(lines[38]) == CardMenu
  }

  /** fornitori.py's DettagliFornitore.ready: the same rows, and the page name. */
  predicate SupplierReady(lines: Display) {
    SupplierCardShown(lines) && Navigation.PageName(lines) == SupplierPageName
  }

  /** DettagliClienti.ready. */
  predicate ClientReady(lines: Display) {
    RowRegex.Matches(ClientLastRow, lines[36]) && Strip(lines[38]) == CardMenu &&
    Navigation.PageName(lines) == ClientPageName
  }

  /** The tests evaluated on the screen, with the regular expressions decided by search. */
  function SupplierCardTest(lines: Display): (b: bool)
    ensures b <==> SupplierCardShown(lines)
  {
    RowRegex.TestMatches(SupplierLastRow, lines[36]);
    RowRegex.Test(SupplierLastRow, lines[36]) && Strip(lines[38]) == CardMenu
  }

  function ClientReadyTest(lines: Display): (b: bool)
    ensures b <==> ClientReady(lines)
  {
    RowRegex.TestMatches(ClientLastRow, lines[36]);
    RowRegex.Test(ClientLastRow, lines[36]) && Strip(lines[38]) == CardMenu &&
    Navigation.PageName(lines) == ClientPageName
  }

  /**
   * The older supplier test ignores the page name: whatever row 0 holds, only
   * rows 36 and 38 decide; the newer one adds the name on top of the same rows.
   */
  lemma SupplierNameIgnored(lines: Display, other: Display)
    requires other[36] == lines[36] && other[38] == lines[38]
    ensures SupplierCardShown(lines) <==> SupplierCardShown(other)
    ensures SupplierReady(lines) <==> SupplierCardShown(lines) && Navigation.PageName(lines) == SupplierPageName
  {
  }

  /** A card row laid out as the supplier card draws it passes the row-36 test. */
  lemma SupplierRowMatches(lead: string, a: string, b: string, rest: string)
    requires AllSpace(lead) && '\n' !in a && '\n' !in b
    ensures RowRegex.Matches(SupplierLastRow, lead + "Cognome " + a + "Nome " + b + "% imp calcolo RA " + rest)
  {
    var s := lead + "Cognome " + a + "Nome " + b + "% imp calcolo RA " + rest;
    var i := |lead|;
    var j1 := i + 8 + |a|;
    var j2 := j1 + 5 + |b|;
    assert s[..i] == lead;
    assert s[i..][..8] == "Cognome ";
    assert s[j1..][..5] == "Nome ";
    assert s[j2..][..17] == "% imp calcolo RA ";
    assert RowRegex.NoNewlineIn(s, i + 8, j1) by {
      forall m | i + 8 <= m < j1 ensures s[m] != '\n' {
        assert s[m] == a[m - i - 8];
      }
    }
    assert RowRegex.NoNewlineIn(s, j1 + 5, j2) by {
      forall m | j1 + 5 <= m < j2 ensures s[m] != '\n' {
        assert s[m] == b[m - j1 - 5];
      }
    }
    assert RowRegex.WordAt(s, j1 + 5, j2, ["% imp calcolo RA "], false);
    assert RowRegex.Follows(s, j1 + 5, ["% imp calcolo RA "], false);
    assert RowRegex.WordAt(s, i + 8, j1, ["Nome ", "% imp calcolo RA "], false);
    assert RowRegex.HeadAt(SupplierLastRow, s, i);
  }

  // ---------------------------------------------------------------- the sub-pages

  /** `_ready_other_1`: the first "other data" page. */
  predicate OtherReady1(lines: Display) {
    EndsWith(Strip(lines[32]), "Pag.Avanti per altri dati") &&
    Strip(lines[34]) == "F1   Invio  Esc  Fine   F6   Collegamenti trasversali PSucc Altri Dati"
  }

  /** `_ready_other_2`. */
  predicate OtherReady2(lines: Display) {
    EndsWith(Strip(lines[32]), "Pagina avanti per altri dati") && Strip(lines[35]) == "PSucc Altri dati"
  }

  /** `_ready_other_3`. */
  predicate OtherReady3(lines: Display) {
    EndsWith(Strip(lines[30]), "2=EAN bottiglia") &&
    Strip(lines[35]) == "F1   Invio  Esc  Fine   F6   Collegamenti trasversali PPrec Dati Precedenti"
  }

  /** No row ends with both the first and the second sub-page's footer. */
  lemma FootersDiffer(r: string)
    ensures !(EndsWith(r, "Pag.Avanti per altri dati") && EndsWith(r, "Pagina avanti per altri dati"))
  {
    // the character 21 from the end is 'A' in the one and 'a' in the other
    if EndsWith(r, "Pag.Avanti per altri dati") {
      assert r[|r| - 21] == r[|r| - 25..][4] == 'A';
    }
    if EndsWith(r, "Pagina avanti per altri dati") {
      assert r[|r| - 21] == r[|r| - 28..][7] == 'a';
    }
  }

  /** The three sub-page tests tell the sub-pages apart: no screen passes two of them. */
  lemma OtherPagesDistinct(lines: Display)
    ensures !(OtherReady1(lines) && OtherReady2(lines))
    ensures !(OtherReady2(lines) && OtherReady3(lines))
  {
    FootersDiffer(Strip(lines[32]));
  }

  // ---------------------------------------------------------------- the layouts

  /** `key: xt.x(row, (a, b))`. */
  function T(key: string, row: int, a: int, b: int): Spec {
    Col(key, row, Xtractor.Cols(a, b), AsText)
  }

  /** `key: xt.x(row, a)`. */
  function TFrom(key: string, row: int, a: int): Spec {
    Col(key, row, At(a), AsText)
  }

  /** `key: xt.x(row, (a, b), int)`. */
  function N(key: string, row: int, a: int, b: int): Spec {
    Col(key, row, Xtractor.Cols(a, b), AsNumber)
  }

  /** The discount slot `ix` of the supplier card: row 35, columns [72+6ix, 77+6ix). */
  function DiscountSlot(ix: int): Spec {
    T("", 35, 72 + ix * 6, 72 + 5 + ix * 6)
  }

  /** `[x for ix in range(4) if x]` over the discount slots. */
  const SupplierDiscounts: seq<Choice> := [
    Choice(DiscountSlot(0), DiscountSlot(0)), Choice(DiscountSlot(1), DiscountSlot(1)),
    Choice(DiscountSlot(2), DiscountSlot(2)), Choice(DiscountSlot(3), DiscountSlot(3))]

  /** One counterpart account row: kept when columns [28, 32) are not blank. */
  function Counterpart(row: int): Choice {
    Choice(T("", row, 28, 32),
      Group("", [T("l1", row, 28, 32), T("l2", row, 33, 37), T("l3", row, 38, 44), TFrom("descrizione", row, 45)]))
  }

  const SupplierCounterparts: seq<Choice> := [Counterpart(27), Counterpart(28), Counterpart(29)]

  const IbanParts: seq<Spec> := [
    T("", 16, 31, 33), T("", 16, 35, 36), T("", 16, 37, 38),
    T("", 16, 39, 44), T("", 16, 45, 50), T("", 16, 51, 63)]

  /**
   * The dict literal of DettagliFornitore.get_data, in source order, cut at the
   * entries the lemmas below look up: SupplierHead, then 'iban', SupplierMiddle,
   * 'contropartite', SupplierNotes, 'sconti' and the last three entries.
   */
  const SupplierLayout: seq<Spec> := SupplierHead + AfterHead
  const AfterHead: seq<Spec> := [IbanEntry] + AfterIban
  const AfterIban: seq<Spec> := SupplierMiddle + AtCounterparts
  const AtCounterparts: seq<Spec> := [CounterpartsEntry] + AfterCounterparts
  const AfterCounterparts: seq<Spec> := SupplierNotes + AtDiscounts
  const AtDiscounts: seq<Spec> := [DiscountsEntry] + SupplierSurnames

  const SupplierHead: seq<Spec> := [
    T("codice", 3, 6, 14),
    TFrom("ragione_sociale", 3, 29),
    TFrom("ragione_sociale_agg", 4, 30),
    TFrom("indirizzo", 5, 23),
    T("cap", 6, 30, 35),
    T("localita", 6, 37, 77),
    T("provincia", 6, 78, 81),
    Group("piano_conti", [N("l1", 7, 30, 34), N("l2", 7, 35, 39), TFrom("nome", 7, 40)]),
    T("cf_rappresentante", 8, 37, 54),
    T("usare_per_spesometro", 8, 79, 80),
    T("partita_iva", 9, 26, 42),
    T("codice_fiscale", 9, 53, 69),
    T("registro_imprese", 9, 82, 93),
    T("telefono", 10, 26, 49),
    T("fax", 10, 53, 73),
    T("stato_giuridico", 10, 92, 93),
    T("email", 11, 26, 66),
    T("cellulare", 11, 73, 93),
    TFrom("pec", 12, 26),
    TFrom("url_internet", 14, 34),
    Group("pagamento", [T("cod", 15, 34, 40), TFrom("descizione", 15, 40)])]

  const IbanEntry: Spec := Tuple("iban", IbanParts)

  const SupplierMiddle: seq<Spec> := [
    TFrom("banca", 16, 64),
    Group("iva_primaria", [T("codice", 17, 34, 37), T("descrizione", 17, 38, 76)]),
    Group("iva_altro_1", [T("codice", 17, 83, 86), Fixed("descrizione", "")]),
    Group("iva_altro_2", [T("codice", 17, 88, 91), Fixed("descrizione", "")]),
    Group("comune", [N("cod", 18, 34, 40), T("nome", 18, 41, 76)]),
    Group("regione", [N("cod", 19, 34, 36), TFrom("nome", 19, 37)]),
    Group("nazione", [N("cod", 20, 34, 37), TFrom("nome", 20, 38)]),
    Group("comune_2018", [N("cod", 18, 95, 101)]),
    Group("porto", [N("cod", 21, 34, 37), TFrom("nome", 21, 38)]),
    Group("banca_interna_prev", [N("cod", 22, 34, 37), TFrom("nome", 21, 38)]),
    T("icqrf", 20, 34, 42),
    Group("nascita", [T("data", 24, 28, 38), T("comune", 24, 46, 52), T("provincia", 24, 72, 74), T("sesso", 24, 82, 83)]),
    T("allegato", 26, 28, 29),
    T("controllo_soglia", 26, 51, 52),
    Col("ritenuta_acconto_pct", 26, Xtractor.Cols(99, 104), AsFloat)]

  const CounterpartsEntry: Spec := KeptIf("contropartite", SupplierCounterparts)

  const SupplierNotes: seq<Spec> := [
    T("note_estratto_conto", 31, 38, 68),
    T("persona_da_contattare", 32, 38, 68),
    T("obsoleto", 32, 92, 93),
    T("codice_ipa", 33, 25, 32)]

  const DiscountsEntry: Spec := KeptIf("sconti", SupplierDiscounts)

  /** The two 'cognome' entries, the second of which is kept, and the last field. */
  const SupplierSurnames: seq<Spec> := [T("cognome", 36, 25, 45)] + LastTwo
  const LastTwo: seq<Spec> := [SecondSurname] + [T("pct_imponibile_calcolo_ra", 36, 89, 95)]
  const SecondSurname: Spec := T("cognome", 36, 51, 71)

  /** DettagliFornitore.get_data: the record, or the first exception a read raises. */
  function SupplierData(lines: Display): (r: Result<seq<Entry>, Exc>)
    ensures r.Ok? ==> Distinct(KeysOf(r.value))
  {
    var r := Record(lines, SupplierLayout);
    if r.Ok? then
      DictOfKeys(Label(SupplierLayout, EvalAll(lines, SupplierLayout).value));
      r
    else r
  }

  /** Looking 'sconti' and 'cognome' up in the record is looking them up at the discounts. */
  lemma DownToDiscounts(lines: Display, k: string)
    requires SupplierData(lines).Ok?
    requires k == "sconti" || k == "cognome"
    ensures Record(lines, AtDiscounts).Ok?
    ensures Lookup(SupplierData(lines).value, k) == Lookup(Record(lines, AtDiscounts).value, k)
  {
    var q := if k == "sconti" then DiscountsEntry else SecondSurname;
    assert q in AtDiscounts && q.key == k;
    assert q in AfterCounterparts;
    RecordSuffix(lines, SupplierHead, AfterHead, k);
    RecordSuffix(lines, [IbanEntry], AfterIban, k);
    RecordSuffix(lines, SupplierMiddle, AtCounterparts, k);
    RecordSuffix(lines, [CounterpartsEntry], AfterCounterparts, k);
    RecordSuffix(lines, SupplierNotes, AtDiscounts, k);
  }

  /** The last three entries of the literal: the second 'cognome' is the one kept. */
  lemma SurnameAtDiscounts(lines: Display)
    requires Record(lines, AtDiscounts).Ok?
    ensures Eval(lines, SecondSurname).Ok?
    ensures Lookup(Record(lines, AtDiscounts).value, "cognome") == Some(Eval(lines, SecondSurname).value)
  {
    assert SecondSurname in SupplierSurnames;
    RecordSuffix(lines, [DiscountsEntry], SupplierSurnames, "cognome");
    SurnameAtLastTwo(lines);
  }

  lemma SurnameAtLastTwo(lines: Display)
    requires Record(lines, SupplierSurnames).Ok?
    ensures Eval(lines, SecondSurname).Ok?
    ensures Lookup(Record(lines, SupplierSurnames).value, "cognome") == Some(Eval(lines, SecondSurname).value)
  {
    var first, last := T("cognome", 36, 25, 45), T("pct_imponibile_calcolo_ra", 36, 89, 95);
    assert SupplierSurnames == [first] + ([SecondSurname] + [last]);
    RecordMiddle(lines, [first], SecondSurname, [last]);
  }

  /** 'cognome' is written twice in the literal; the second read, columns [51, 71), is the one kept. */
  lemma SurnameKept(lines: Display)
    requires SupplierData(lines).Ok?
    ensures Read(lines, 36, Xtractor.Cols(51, 71), AsText).Ok?
    ensures Lookup(SupplierData(lines).value, "cognome") == Some(Read(lines, 36, Xtractor.Cols(51, 71), AsText).value)
  {
    DownToDiscounts(lines, "cognome");
    SurnameAtDiscounts(lines);
  }

  lemma IbanNotRepeated()
    ensures forall q :: q in AfterIban ==> q.key != "iban"
  {
    var k := "iban";
    DiscountsNotRepeated();
    KeyAbsentJoin([DiscountsEntry], SupplierSurnames, k);
    NotesKeys();
    KeyAbsentJoin(SupplierNotes, AtDiscounts, k);
    KeyAbsentJoin([CounterpartsEntry], AfterCounterparts, k);
    MiddleKeys();
    KeyAbsentJoin(SupplierMiddle, AtCounterparts, k);
  }

  /** 'iban' is always a 6-tuple, one value per IBAN part of row 16. */
  lemma IbanIsSixTuple(lines: Display)
    requires SupplierData(lines).Ok?
    ensures
      && Lookup(SupplierData(lines).value, "iban").Some?
      && var v := Lookup(SupplierData(lines).value, "iban").value;
      && v.Items? && |v.items| == 6
      && forall k :: 0 <= k < 6 ==> Eval(lines, IbanParts[k]) == Ok(v.items[k])
  {
    assert IbanEntry in AfterHead;
    RecordSuffix(lines, SupplierHead, AfterHead, "iban");
    IbanNotRepeated();
    RecordHead(lines, IbanEntry, AfterIban);
    EvalAllAt(lines, IbanParts);
  }

  lemma DiscountsNotRepeated()
    ensures forall q :: q in SupplierSurnames ==> q.key != "sconti" && q.key != "iban"
  {
  }

  lemma NotesKeys()
    ensures forall q :: q in SupplierNotes ==> q.key != "iban"
  {
  }

  lemma MiddleKeys()
    ensures forall q :: q in SupplierMiddle ==> q.key != "iban"
  {
    // No key of this part is four characters long.
    forall q | q in SupplierMiddle ensures |q.key| != 4 {
      var i :| 0 <= i < |SupplierMiddle| && SupplierMiddle[i] == q;
      assert |SupplierMiddle[i].key| != 4;
    }
  }

  /** No entry of `a + b` has key `k` when neither part has one. */
  lemma KeyAbsentJoin(a: seq<Spec>, b: seq<Spec>, k: string)
    requires forall q :: q in a ==> q.key != k
    requires forall q :: q in b ==> q.key != k
    ensures forall q :: q in a + b ==> q.key != k
  {
  }

  /** Looking 'contropartite' up in the record is looking it up where it is written. */
  lemma DownToCounterparts(lines: Display)
    requires SupplierData(lines).Ok?
    ensures Record(lines, AtCounterparts).Ok?
    ensures Lookup(SupplierData(lines).value, "contropartite") == Lookup(Record(lines, AtCounterparts).value, "contropartite")
  {
    var q := CounterpartsEntry;
    assert q in AtCounterparts;
    assert q in SupplierMiddle + AtCounterparts;
    assert q in AfterIban;
    assert q in [IbanEntry] + AfterIban;
    assert q in AfterHead;
    RecordSuffix(lines, SupplierHead, AfterHead, "contropartite");
    RecordSuffix(lines, [IbanEntry], AfterIban, "contropartite");
    RecordSuffix(lines, SupplierMiddle, AtCounterparts, "contropartite");
  }

  lemma CounterpartsNotRepeated()
    ensures forall q :: q in AfterCounterparts ==> q.key != "contropartite"
  {
    forall q | q in AfterCounterparts ensures q.key != "contropartite" {
      assert q in SupplierNotes || q == DiscountsEntry || q in SupplierSurnames;
    }
  }

  /** 'sconti' is read where it is written, by its KeptIf entry. */
  lemma DiscountsLocated(lines: Display)
    requires SupplierData(lines).Ok?
    ensures Eval(lines, DiscountsEntry).Ok?
    ensures Lookup(SupplierData(lines).value, "sconti") == Some(Eval(lines, DiscountsEntry).value)
  {
    DownToDiscounts(lines, "sconti");
    DiscountsNotRepeated();
    RecordHead(lines, DiscountsEntry, SupplierSurnames);
  }

  /** The discount slots kept are non-empty text. */
  lemma DiscountsAreText(lines: Display)
    requires Eval(lines, DiscountsEntry).Ok?
    ensures forall d :: d in Eval(lines, DiscountsEntry).value.items ==> d.Text? && d.s != []
  {
    KeptExactly(lines, SupplierDiscounts);
    forall d | d in Eval(lines, DiscountsEntry).value.items ensures d.Text? && d.s != [] {
      var c :| c in SupplierDiscounts && Picked(lines, c) && Eval(lines, c.item) == Ok(d);
      SlotIsText(c);
    }
  }

  /** Each discount slot is tested by its own text read. */
  lemma SlotIsText(c: Choice)
    requires c in SupplierDiscounts
    ensures c.test == c.item && c.item.Col? && c.item.conv.AsText?
  {
  }

  /** The discount slots kept: non-empty text, exactly the slots that are not blank, in slot order. */
  lemma DiscountsContent(lines: Display)
    requires Eval(lines, DiscountsEntry).Ok?
    ensures
      && var v := Eval(lines, DiscountsEntry).value;
      && v.Items? && |v.items| <= 4
      && (forall d :: d in v.items ==> d.Text? && d.s != [])
      && (forall c :: c in SupplierDiscounts && Picked(lines, c) ==> Eval(lines, c.item).value in v.items)
    ensures
      && var v := Eval(lines, DiscountsEntry).value;
      && var kept := Picks(lines, SupplierDiscounts);
      && |v.items| == |kept|
      && forall i :: 0 <= i < |kept| ==> Eval(lines, kept[i].item) == Ok(v.items[i])
  {
    KeptExactly(lines, SupplierDiscounts);
    KeptIfExactly(lines, "sconti", SupplierDiscounts);
    DiscountsAreText(lines);
  }

  /**
   * 'sconti' holds at most four values, all non-empty text, and exactly the
   * slots of row 35 that are not blank, left to right.
   */
  lemma DiscountsKept(lines: Display)
    requires SupplierData(lines).Ok?
    ensures
      && Lookup(SupplierData(lines).value, "sconti").Some?
      && var v := Lookup(SupplierData(lines).value, "sconti").value;
      && v.Items? && |v.items| <= 4
      && (forall d :: d in v.items ==> d.Text? && d.s != [])
      && (forall c :: c in SupplierDiscounts && Picked(lines, c) ==> Eval(lines, c.item).value in v.items)
    ensures
      && Lookup(SupplierData(lines).value, "sconti").Some?
      && var v := Lookup(SupplierData(lines).value, "sconti").value;
      && var kept := Picks(lines, SupplierDiscounts);
      && v.Items? && |v.items| == |kept|
      && forall i :: 0 <= i < |kept| ==> Eval(lines, kept[i].item) == Ok(v.items[i])
  {
    DiscountsLocated(lines);
    DiscountsContent(lines);
  }

  /**
   * 'contropartite' is read where it is written, by its KeptIf entry: by
   * KeptIfExactly it holds one record per picked counterpart choice (the rows
   * 27..29 whose columns [28, 32) are not blank, by CounterpartRows) and nothing else.
   */
  lemma CounterpartsLocated(lines: Display)
    requires SupplierData(lines).Ok?
    ensures Eval(lines, CounterpartsEntry).Ok?
    ensures Lookup(SupplierData(lines).value, "contropartite") == Some(Eval(lines, CounterpartsEntry).value)
  {
    DownToCounterparts(lines);
    CounterpartsNotRepeated();
    RecordHead(lines, CounterpartsEntry, AfterCounterparts);
  }

  /** The counterpart choices are those of rows 27, 28 and 29. */
  lemma CounterpartRows(c: Choice)
    ensures c in SupplierCounterparts <==> exists row :: 27 <= row <= 29 && c == Counterpart(row)
  {
    if c in SupplierCounterparts {
      assert c == Counterpart(27) || c == Counterpart(28) || c == Counterpart(29);
    }
    if exists row :: 27 <= row <= 29 && c == Counterpart(row) {
      var row :| 27 <= row <= 29 && c == Counterpart(row);
      assert row == 27 || row == 28 || row == 29;
    }
  }

  /** `xt.x(row, (a + ix*6, a + ix*6 + 5)) for ix in range(n)` without a filter. */
  function SlotRun(row: int, a: int, n: nat): (r: seq<Spec>)
    ensures |r| == n
    ensures forall ix :: 0 <= ix < n ==> r[ix] == T("", row, a + ix * 6, a + ix * 6 + 5)
  {
    if n == 0 then [] else SlotRun(row, a, n - 1) + [T("", row, a + (n - 1) * 6, a + (n - 1) * 6 + 5)]
  }

  /** The dict literal of DettagliClienti.get_data, in source order, cut where the lemmas look. */
  const ClientLayout: seq<Spec> := ClientHead + AtCommercial
  const AtCommercial: seq<Spec> := [CommercialEntry] + AfterCommercial
  const AfterCommercial: seq<Spec> := [T("sconto_merce", 31, 75, 76), T("sconto_a_litro", 32, 20, 26)] + AtCommissions
  const AtCommissions: seq<Spec> := [CommissionsEntry] + [T("sconto_totale_bolla", 32, 75, 76)]

  const ClientHead: seq<Spec> := [
    T("codice", 3, 6, 14),
    TFrom("ragione_sociale", 3, 30),
    TFrom("ragione_sociale_agg", 4, 30),
    TFrom("indirizzo", 5, 23),
    T("cap", 6, 30, 36),
    T("localita", 6, 37, 77),
    T("provincia", 6, 78, 80),
    Group("piano_conti", [N("l1", 7, 30, 34), N("l2", 7, 35, 39), TFrom("nome", 7, 40)]),
    Group("attributi", [N("tip", 9, 10, 13), N("pro", 9, 14, 17), T("int", 9, 18, 21)]),
    T("stato_giuridico", 10, 16, 17),
    Group("nascita", [T("sesso", 10, 23, 26), T("data", 10, 38, 50), T("comune", 10, 56, 65), TFrom("provincia", 10, 74)]),
    T("cognome", 11, 8, 28),
    T("nome", 11, 36, 56),
    T("associazione", 11, 75, 76),
    T("partita_iva", 12, 6, 22),
    T("codice_fiscale", 12, 39, 55),
    T("registro_imprese", 12, 67, 78),
    Group("fatturazione_elettronica", [T("destinazione", 13, 22, 29), T("ipa", 13, 34, 40), T("cig", 13, 45, 60), T("cup", 13, 65, 80)]),
    Group("comune", [N("cod", 14, 34, 40), T("nome", 14, 41, 76)]),
    Group("regione", [N("cod", 15, 34, 36), TFrom("nome", 15, 37)]),
    Group("nazione", [N("cod", 16, 34, 37), TFrom("nome", 16, 38)]),
    Group("lingua", [N("cod", 17, 34, 37), TFrom("nome", 17, 38)]),
    Group("pagamento", [T("split_payment", 18, 76, 77), T("iban_banca", 19, 17, 49)]),
    Group("agente", [T("cod", 20, 20, 25), TFrom("nome", 20, 27)]),
    Group("listino", [T("cod", 21, 20, 25), TFrom("nome", 21, 27)]),
    Group("trasportatore", [T("cod", 22, 20, 25), TFrom("nome", 22, 27)]),
    Group("codice_iva", [T("cod", 24, 20, 24), TFrom("nome", 24, 27)]),
    Group("porto", [T("cod", 25, 20, 24), TFrom("nome", 25, 27)]),
    Group("giorno_chiusura", [T("cod", 26, 20, 24), TFrom("nome", 26, 27)]),
    Group("zona_consegna_merce", [T("cod", 28, 20, 24), TFrom("nome", 28, 27)]),
    Group("banca_interna_prev", [T("cod", 29, 20, 24), TFrom("nome", 29, 27)]),
    T("obsoleto", 30, 20, 21)]

  const CommercialEntry: Spec := Tuple("sconto_commerciale", SlotRun(31, 20, 4))
  const CommissionsEntry: Spec := Tuple("provvigioni", SlotRun(32, 39, 2))

  /** The record part of DettagliClienti.get_data. */
  function ClientData(lines: Display): (r: Result<seq<Entry>, Exc>)
    ensures r.Ok? ==> Distinct(KeysOf(r.value))
  {
    var r := Record(lines, ClientLayout);
    if r.Ok? then
      DictOfKeys(Label(ClientLayout, EvalAll(lines, ClientLayout).value));
      r
    else r
  }

  lemma CommercialNotRepeated()
    ensures forall q :: q in AfterCommercial ==> q.key != "sconto_commerciale"
  {
    forall q | q in AfterCommercial ensures q.key != "sconto_commerciale" {
      assert q.key == "sconto_merce" || q.key == "sconto_a_litro" || q in AtCommissions;
    }
  }

  /** 'sconto_commerciale' is read where it is written. */
  lemma CommercialLocated(lines: Display)
    requires ClientData(lines).Ok?
    ensures Eval(lines, CommercialEntry).Ok?
    ensures Lookup(ClientData(lines).value, "sconto_commerciale") == Some(Eval(lines, CommercialEntry).value)
  {
    assert CommercialEntry in AtCommercial;
    RecordSuffix(lines, ClientHead, AtCommercial, "sconto_commerciale");
    CommercialNotRepeated();
    RecordHead(lines, CommercialEntry, AfterCommercial);
  }

  lemma CommissionsFromCommercial(lines: Display)
    requires Record(lines, AtCommercial).Ok?
    ensures Eval(lines, CommissionsEntry).Ok?
    ensures Lookup(Record(lines, AtCommercial).value, "provvigioni") == Some(Eval(lines, CommissionsEntry).value)
  {
    assert CommissionsEntry in AfterCommercial;
    RecordSuffix(lines, [CommercialEntry], AfterCommercial, "provvigioni");
    CommissionsAfterCommercial(lines);
  }

  lemma CommissionsAfterCommercial(lines: Display)
    requires Record(lines, AfterCommercial).Ok?
    ensures Eval(lines, CommissionsEntry).Ok?
    ensures Lookup(Record(lines, AfterCommercial).value, "provvigioni") == Some(Eval(lines, CommissionsEntry).value)
  {
    var pre := [T("sconto_merce", 31, 75, 76), T("sconto_a_litro", 32, 20, 26)];
    var post := [T("sconto_totale_bolla", 32, 75, 76)];
    assert pre + ([CommissionsEntry] + post) == AfterCommercial;
    assert forall q :: q in post ==> q.key != CommissionsEntry.key;
    RecordMiddle(lines, pre, CommissionsEntry, post);
  }

  /** 'provvigioni' is read where it is written. */
  lemma CommissionsLocated(lines: Display)
    requires ClientData(lines).Ok?
    ensures Eval(lines, CommissionsEntry).Ok?
    ensures Lookup(ClientData(lines).value, "provvigioni") == Some(Eval(lines, CommissionsEntry).value)
  {
    assert CommissionsEntry in AtCommissions;
    assert CommissionsEntry in AtCommercial;
    RecordSuffix(lines, ClientHead, AtCommercial, "provvigioni");
    CommissionsFromCommercial(lines);
  }

  /** The slots of a run, read one by one, are the run's values in order. */
  lemma SlotsRead(lines: Display, key: string, row: int, a: int, n: nat)
    requires Eval(lines, Tuple(key, SlotRun(row, a, n))).Ok?
    ensures
      && var v := Eval(lines, Tuple(key, SlotRun(row, a, n))).value;
      && v.Items? && |v.items| == n
      && forall ix :: 0 <= ix < n ==> Read(lines, row, Xtractor.Cols(a + ix * 6, a + ix * 6 + 5), AsText) == Ok(v.items[ix])
  {
    TupleParts(lines, key, SlotRun(row, a, n));
  }

  /**
   * 'sconto_commerciale' always has four entries and 'provvigioni' two, one per
   * slot, blank slots included (as None).
   */
  lemma ClientDiscountSlots(lines: Display)
    requires ClientData(lines).Ok?
    ensures
      && Lookup(ClientData(lines).value, "sconto_commerciale").Some?
      && var v := Lookup(ClientData(lines).value, "sconto_commerciale").value;
      && v.Items? && |v.items| == 4
      && forall ix :: 0 <= ix < 4 ==> Read(lines, 31, Xtractor.Cols(20 + ix * 6, 25 + ix * 6), AsText) == Ok(v.items[ix])
    ensures
      && Lookup(ClientData(lines).value, "provvigioni").Some?
      && var v := Lookup(ClientData(lines).value, "provvigioni").value;
      && v.Items? && |v.items| == 2
      && forall ix :: 0 <= ix < 2 ==> Read(lines, 32, Xtractor.Cols(39 + ix * 6, 44 + ix * 6), AsText) == Ok(v.items[ix])
  {
    CommercialLocated(lines);
    SlotsRead(lines, "sconto_commerciale", 31, 20, 4);
    CommissionsLocated(lines);
    SlotsRead(lines, "provvigioni", 32, 39, 2);
  }

  // ---------------------------------------------------------------- DettagliClienti.get_data

  /** The wait of each sub-page step. */
  const SubpageTimeout: int := 2

  /**
   * DettagliClienti.get_data as written: the card is read, F9 goes out, and the
   * wait then names `self._ready_other_1`, which the class does not define.
   */
  function ClientGetDataAsWritten(t: Term, env: Env): (r: Run<seq<Entry>>)
    ensures r.r.Err?
    ensures ClientData(t.lines).Err? ==> r == Run(t, Err(ClientData(t.lines).error))
    ensures ClientData(t.lines).Ok? && t.closed ==> Refused(t, r)
    ensures ClientData(t.lines).Ok? && !t.closed ==>
      && r.r.error == AttributeError("_ready_other_1")
      && Sends(r.t.log) == Sends(t.log) + [Encode(Keys.F[9])]
  {
    match ClientData(t.lines)
    case Err(e) => Run(t, Err(e))
    case Ok(_) =>
      var a := SendSeq(t, env, Keys.F[9]);
      if a.r.Err? then Run(a.t, Err(a.r.error))
      else Run(a.t, Err(AttributeError("_ready_other_1")))
  }

  /** One sub-page step: send the key, then wait for the sub-page's test. */
  function Step(t: Term, env: Env, key: string, ready: Ready): (r: Run<()>)
    ensures t.closed ==> Refused(t, r)
    ensures !t.closed ==> !r.t.closed && Sends(r.t.log) == Sends(t.log) + [Encode(key)]
    ensures !t.closed && r.r.Ok? ==> ready(r.t.lines, r.t.dirty)
    ensures !t.closed && r.r.Err? ==> r.r.error.LoadingTimeout?
  {
    var a := SendSeq(t, env, key);
    if a.r.Err? then a else WaitReady(a.t, env, ready, SubpageTimeout)
  }

  /** A sub-page: the key that opens it and the test that says it has loaded. */
  datatype SubPage = SubPage(key: string, ready: Ready)

  function PageKeys(pages: seq<SubPage>): (r: seq<string>)
    ensures |r| == |pages|
    ensures forall i :: 0 <= i < |pages| ==> r[i] == pages[i].key
  {
    if pages == [] then [] else [pages[0].key] + PageKeys(pages[1..])
  }

  /**
   * Open the sub-pages one after the other: send each key and wait for its
   * test, stopping at the first wait that times out.
   */
  function Walk(t: Term, env: Env, pages: seq<SubPage>): (r: Run<()>)
    ensures t.closed ==> Refused(t, r)
    ensures !t.closed && pages == [] ==> r == Run(t, Ok(()))
    decreases |pages|
  {
    if t.closed then Run(t, Err(DriverClosed))
    else if pages == [] then Run(t, Ok(()))
    else
      var s := Step(t, env, pages[0].key, pages[0].ready);
      if s.r.Err? then s else Walk(s.t, env, pages[1..])
  }

  /**
   * On success every key has gone out and the last page's test holds; on a
   * timeout the keys sent are a non-empty prefix of them, the one that timed
   * out included. The terminal stays open either way.
   */
  lemma WalkSpec(t: Term, env: Env, pages: seq<SubPage>)
    requires !t.closed
    ensures !Walk(t, env, pages).t.closed
    ensures Walk(t, env, pages).r.Ok? ==>
      && Sends(Walk(t, env, pages).t.log) == Sends(t.log) + Navigation.EncodeAll(PageKeys(pages))
      && (pages != [] ==> pages[|pages| - 1].ready(Walk(t, env, pages).t.lines, Walk(t, env, pages).t.dirty))
    ensures Walk(t, env, pages).r.Err? ==>
      && Walk(t, env, pages).r.error.LoadingTimeout?
      && Sent(Sends(t.log), Sends(Walk(t, env, pages).t.log), Navigation.EncodeAll(PageKeys(pages)))
  {
    WalkOpen(t, env, pages);
    if Walk(t, env, pages).r.Ok? {
      WalkOk(t, env, pages);
    } else {
      WalkErr(t, env, pages);
    }
  }

  lemma {:induction false} WalkOpen(t: Term, env: Env, pages: seq<SubPage>)
    requires !t.closed
    ensures !Walk(t, env, pages).t.closed
    decreases |pages|
  {
    if pages != [] {
      var s := Step(t, env, pages[0].key, pages[0].ready);
      if s.r.Ok? {
        WalkOpen(s.t, env, pages[1..]);
      }
    }
  }

  /** The keys sent by a walk that opens every sub-page, and the last page's test, which holds. */
  lemma {:induction false} WalkOk(t: Term, env: Env, pages: seq<SubPage>)
    requires !t.closed && Walk(t, env, pages).r.Ok?
    ensures Sends(Walk(t, env, pages).t.log) == Sends(t.log) + Navigation.EncodeAll(PageKeys(pages))
    ensures pages != [] ==> pages[|pages| - 1].ready(Walk(t, env, pages).t.lines, Walk(t, env, pages).t.dirty)
    decreases |pages|
  {
    if pages != [] {
      var s := Step(t, env, pages[0].key, pages[0].ready);
      assert s.r.Ok?;
      var head := Encode(pages[0].key);
      var rest := Navigation.EncodeAll(PageKeys(pages[1..]));
      assert Navigation.EncodeAll(PageKeys(pages)) == [head] + rest;
      WalkOk(s.t, env, pages[1..]);
      Navigation.AppendAssoc(Sends(t.log), [head], rest);
      if pages[1..] != [] {
        assert pages[1..][|pages[1..]| - 1] == pages[|pages| - 1];
      }
    }
  }

  /** A walk that stops has timed out, after sending a non-empty prefix of the keys. */
  lemma {:induction false} WalkErr(t: Term, env: Env, pages: seq<SubPage>)
    requires !t.closed && Walk(t, env, pages).r.Err?
    ensures Walk(t, env, pages).r.error.LoadingTimeout?
    ensures Sent(Sends(t.log), Sends(Walk(t, env, pages).t.log), Navigation.EncodeAll(PageKeys(pages)))
    decreases |pages|
  {
    var s := Step(t, env, pages[0].key, pages[0].ready);
    var head := Encode(pages[0].key);
    var rest := Navigation.EncodeAll(PageKeys(pages[1..]));
    assert Navigation.EncodeAll(PageKeys(pages)) == [head] + rest;
    assert Sends(s.t.log) == Sends(t.log) + [head];
    if s.r.Err? {
      assert Walk(t, env, pages) == s;
      SentPrefix(Sends(t.log), Sends(s.t.log), Sends(s.t.log), head, rest, 0);
    } else {
      var w := Walk(s.t, env, pages[1..]);
      assert Walk(t, env, pages) == w;
      WalkErr(s.t, env, pages[1..]);
      var n := |Sends(w.t.log)| - |Sends(s.t.log)|;
      assert 0 < n <= |rest| && Sends(w.t.log) == Sends(s.t.log) + rest[..n];
      SentPrefix(Sends(t.log), Sends(s.t.log), Sends(w.t.log), head, rest, n);
    }
  }

  /** `after` is `before` and then a non-empty prefix of `keys`. */
  predicate Sent<T(==)>(before: seq<T>, after: seq<T>, keys: seq<T>) {
    && |before| < |after| <= |before| + |keys|
    && after == before + keys[..|after| - |before|]
  }

  /** One key sent, then the first n of the rest: the first n + 1 of them all. */
  lemma SentPrefix<T>(before: seq<T>, mid: seq<T>, after: seq<T>, head: T, rest: seq<T>, n: nat)
    requires mid == before + [head] && n <= |rest| && after == mid + rest[..n]
    ensures Sent(before, after, [head] + rest)
  {
    assert ([head] + rest)[..n + 1] == [head] + rest[..n];
  }

  /** The sub-pages get_data walks through, each with the test DettagliFornitore gives it. */
  const ClientSubpages: seq<SubPage> := [
    SubPage(Keys.F[9], (l: Display, d: set<int>) => OtherReady1(l)),
    SubPage(Keys.PgDn, (l: Display, d: set<int>) => OtherReady2(l)),
    SubPage(Keys.PgDn, (l: Display, d: set<int>) => OtherReady3(l)),
    SubPage("\n", (l: Display, d: set<int>) => ClientReady(l))]

  /** What get_data sends after reading the card: F9, two page-downs, a newline. */
  lemma ClientSubpageKeys()
    ensures PageKeys(ClientSubpages) == [Keys.F[9], Keys.PgDn, Keys.PgDn, "\n"]
  {
  }

  /**
   * A card's get_data: the record read from the card (or the exception the
   * read raised), then the walk through the sub-pages; the record is returned
   * once the walk is over.
   */
  function CardThenPages(t: Term, env: Env, data: Result<seq<Entry>, Exc>, pages: seq<SubPage>): (r: Run<seq<Entry>>)
    ensures data.Err? ==> r == Run(t, Err(data.error))
    ensures data.Ok? && t.closed ==> Refused(t, r)
    ensures r.r.Ok? ==>
      && r.r.value == data.value
      && Sends(r.t.log) == Sends(t.log) + Navigation.EncodeAll(PageKeys(pages))
      && (pages != [] ==> pages[|pages| - 1].ready(r.t.lines, r.t.dirty))
    ensures r.r.Err? && data.Ok? && !t.closed ==>
      && r.r.error.LoadingTimeout?
      && Sent(Sends(t.log), Sends(r.t.log), Navigation.EncodeAll(PageKeys(pages)))
  {
    match data
    case Err(e) => Run(t, Err(e))
    case Ok(record) =>
      var w := Walk(t, env, pages);
      if t.closed then Run(w.t, Err(w.r.error))
      else
        WalkSpec(t, env, pages);
        if w.r.Err? then Run(w.t, Err(w.r.error)) else Run(w.t, Ok(record))
  }

  /**
   * DettagliClienti.get_data with the sub-page tests of DettagliFornitore (the
   * card the clients' code was evidently copied from): F9, page-down, page-down
   * and a newline (ClientSubpageKeys), each followed by its wait; the result is
   * the card's record, and the card is on screen again.
   */
  function ClientGetData(t: Term, env: Env): (r: Run<seq<Entry>>)
    ensures ClientData(t.lines).Err? ==> r == Run(t, Err(ClientData(t.lines).error))
    ensures ClientData(t.lines).Ok? && t.closed ==> Refused(t, r)
    ensures r.r.Ok? ==> r.r.value == ClientData(t.lines).value && ClientReady(r.t.lines)
    ensures r.r.Err? && ClientData(t.lines).Ok? && !t.closed ==> r.r.error.LoadingTimeout?
  {
    CardThenPages(t, env, ClientData(t.lines), ClientSubpages)
  }

  /**
   * The as-written get_data can never return the card, while the corrected one
   * returns it whenever the card reads and every sub-page loads.
   */
  lemma ClientGetDataNeverReturns(t: Term, env: Env)
    ensures ClientGetDataAsWritten(t, env).r.Err?
    ensures ClientData(t.lines).Ok? && !t.closed ==>
      ClientGetDataAsWritten(t, env).r.error == AttributeError("_ready_other_1") &&
      (ClientGetData(t, env).r.Err? ==> ClientGetData(t, env).r.error.LoadingTimeout?)
  {
  }
}
