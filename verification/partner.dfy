/**
 * The partner (supplier and client) pages
 * (av2000_terminator/navigation/pages/contabilita/anagrafiche/partner.py, and
 * the identical ListaFornitori / AnagraficaFornitori of
 * av2000_terminator/navigation/pages/anagrafiche.py): the paged list with its
 * row extractor and end-of-list tests, and the main page that opens the list
 * or the details of one partner.
 */
module Partners {
  import opened Wrappers
  import opened PyText
  import opened Utf8
  import opened Errors
  import opened Session
  import opened Terminal
  import opened Navigation
  import Keys
  import Py
  import Seqs

  /** LIST_LAST_LINE: the row holding the list's bottom menu. */
  const ListLastLine: nat := 38

  /** The timeout `open_partners_list` waits for the query window with. */
  const QueryTimeout: int := 3

  const CodesInSequence: string := "Codici in sequenza"
  const SupplierPrompt: string := "Visualizza fornitore obsoleti (S/N)"
  const ClientPrompt: string := "Visualizza clienti obsoleti S/N"
  const ListMenuPrefix: string := "Invio Fine"

  // ---------------------------------------------------------------- list rows

  datatype Partner = Partner(codice: int, ragSoc: string, pIva: string)

  /** The filter of `extract_data`: columns 2..65 hold something. */
  predicate Listed(row: string) {
    Strip(Slice(row, 2, 66)) != []
  }

  /**
   * The rows `extract_data` keeps, in screen order (`Seqs.FilterAppend`,
   * `Seqs.FilterCounts`).
   */
  function ListedRows(rows: seq<string>): (r: seq<string>)
    ensures |r| <= |rows|
    ensures forall i :: 0 <= i < |r| ==> Listed(r[i]) && r[i] in rows
  {
    Seqs.Filter(Listed, rows)
  }

  /**
   * One entry: codice = int(cols 2..7), rag_soc = cols 9..49, p_iva = cols 50..65,
   * all stripped (`int()` strips by itself, so the explicit strip changes nothing).
   */
  function PartnerOf(row: string): (r: Result<Partner, Exc>)
    ensures r.Ok? <==> ParseInt(Slice(row, 2, 8)).Some?
    ensures r.Ok? ==> r.value == Partner(ParseInt(Slice(row, 2, 8)).value, Strip(Slice(row, 9, 50)), Strip(Slice(row, 50, 66)))
    ensures r.Err? ==> r.error == ValueError
  {
    match ParseInt(Slice(row, 2, 8))
    case None => Err(ValueError)
    case Some(codice) => Ok(Partner(codice, Strip(Slice(row, 9, 50)), Strip(Slice(row, 50, 66))))
  }

  /** Map `PartnerOf` over rows; the first row that does not parse raises. */
  function PartnersOf(rows: seq<string>): (r: Result<seq<Partner>, Exc>)
    ensures r.Ok? <==> forall i :: 0 <= i < |rows| ==> PartnerOf(rows[i]).Ok?
    ensures r.Ok? ==> |r.value| == |rows| && forall i :: 0 <= i < |rows| ==> r.value[i] == PartnerOf(rows[i]).value
    ensures r.Err? ==> r.error == ValueError
  {
    if rows == [] then Ok([])
    else
      match PartnerOf(rows[0])
      case Err(e) => Err(e)
      case Ok(p) =>
        var rest := PartnersOf(rows[1..]);
        PartnersOfTail(rows);
        match rest
        case Err(e) => Err(e)
        case Ok(ps) =>
          PartnersOfCons(rows, p, ps);
          Ok([p] + ps)
  }

  /** The rows after the first are the tail's rows, shifted by one. */
  lemma PartnersOfTail(rows: seq<string>)
    requires rows != []
    ensures (forall i :: 0 <= i < |rows| ==> PartnerOf(rows[i]).Ok?)
        <==> PartnerOf(rows[0]).Ok? && forall i :: 0 <= i < |rows[1..]| ==> PartnerOf(rows[1..][i]).Ok?
  {
    Seqs.OkSplit(PartnerOf, rows);
  }

  /** Prepending the first row's partner to the tail's partners maps every row. */
  lemma PartnersOfCons(rows: seq<string>, p: Partner, ps: seq<Partner>)
    requires rows != [] && PartnerOf(rows[0]) == Ok(p) && |ps| == |rows| - 1
    requires forall i :: 0 <= i < |rows[1..]| ==> PartnerOf(rows[1..][i]) == Ok(ps[i])
    ensures forall i :: 0 <= i < |rows| ==> PartnerOf(rows[i]) == Ok(([p] + ps)[i])
  {
    Seqs.MapCons(PartnerOf, rows, p, ps);
  }

  /**
   * `extract_data`: one partner for each non-blank row among 6..19, in screen
   * order; the extraction fails exactly when one of those rows does not parse.
   */
  function ExtractData(lines: Display): (r: Result<seq<Partner>, Exc>)
    ensures r.Ok? ==> |r.value| <= 14
    ensures var kept := ListedRows(lines[6..20]);
      r.Ok? <==> forall i :: 0 <= i < |kept| ==> PartnerOf(kept[i]).Ok?
    ensures var kept := ListedRows(lines[6..20]);
      r.Ok? ==> |r.value| == |kept| && forall i :: 0 <= i < |kept| ==> r.value[i] == PartnerOf(kept[i]).value
    ensures r.Ok? ==> forall i :: 0 <= i < |r.value| ==>
      exists row :: row in lines[6..20] && Listed(row) && PartnerOf(row) == Ok(r.value[i])
    ensures r.Err? ==> r.error == ValueError
    ensures r.Err? ==> exists row :: row in lines[6..20] && Listed(row) && PartnerOf(row).Err?
  {
    ListedFromRows(lines[6..20]);
    PartnersOf(ListedRows(lines[6..20]))
  }

  /** Each entry comes from a listed row, and a failure from a listed row that does not parse. */
  lemma ListedFromRows(rows: seq<string>)
    ensures var r := PartnersOf(ListedRows(rows));
      && (r.Ok? ==> forall i :: 0 <= i < |r.value| ==>
            exists row :: row in rows && Listed(row) && PartnerOf(row) == Ok(r.value[i]))
      && (r.Err? ==> exists row :: row in rows && Listed(row) && PartnerOf(row).Err?)
  {
    var kept := ListedRows(rows);
    var r := PartnersOf(kept);
    if r.Ok? {
      ListedEntries(rows, kept, r.value);
    } else {
      ListedFailure(rows, kept);
    }
  }

  /** Each entry parsed from the kept rows is the partner of a listed row. */
  lemma ListedEntries(rows: seq<string>, kept: seq<string>, ps: seq<Partner>)
    requires kept == ListedRows(rows) && PartnersOf(kept) == Ok(ps)
    ensures forall i :: 0 <= i < |ps| ==> exists row :: row in rows && Listed(row) && PartnerOf(row) == Ok(ps[i])
  {
    forall i | 0 <= i < |ps|
      ensures exists row :: row in rows && Listed(row) && PartnerOf(row) == Ok(ps[i])
    {
      assert PartnerOf(kept[i]).Ok? && ps[i] == PartnerOf(kept[i]).value;
      assert kept[i] in rows && Listed(kept[i]);
    }
  }

  /** A failure comes from a listed row that does not parse. */
  lemma ListedFailure(rows: seq<string>, kept: seq<string>)
    requires kept == ListedRows(rows) && PartnersOf(kept).Err?
    ensures exists row :: row in rows && Listed(row) && PartnerOf(row).Err?
  {
    var i :| 0 <= i < |kept| && !PartnerOf(kept[i]).Ok?;
    assert kept[i] in rows && Listed(kept[i]);
  }

  /** Filtering distributes over concatenation: the entries come out in screen order. */
  lemma ListedRowsAppend(a: seq<string>, b: seq<string>)
    ensures ListedRows(a + b) == ListedRows(a) + ListedRows(b)
  {
    Seqs.FilterAppend(Listed, a, b);
  }

  /** A row laid out as the list shows a partner is read back as that partner. */
  lemma PartnerRowRoundTrip(lead: string, code: string, gap: string, name: string, vat: string, rest: string)
    requires |lead| == 2 && |code| == 6 && |gap| == 1 && |name| == 41 && |vat| == 16
    requires IsNumeric(Strip(code))
    ensures PartnerOf(lead + code + gap + name + vat + rest) ==
      Ok(Partner(DigitsValue(Strip(code)), Strip(name), Strip(vat)))
  {
    var row := lead + code + gap + name + vat + rest;
    assert Slice(row, 2, 8) == code by { assert row[2..8] == code; }
    assert Slice(row, 9, 50) == name by { assert row[9..50] == name; }
    assert Slice(row, 50, 66) == vat by { assert row[50..66] == vat; }
    SignedNumeric(Strip(code));
  }

  // ---------------------------------------------------------------- end of the list

  /** The last-page test on the list's bottom row. */
  predicate LastPageRow(row: string) {
    Strip(row) == "Invio Fine" || Strip(row) == "Invio Fine  PPrec"
  }

  /** `re.match(r'^Invio Fine  (PPrec PSucc|PSucc)\s*$', row)`. */
  predicate NextPageRow(row: string) {
    (StartsWith(row, "Invio Fine  PPrec PSucc") && AllSpace(row[23..]))
    || (StartsWith(row, "Invio Fine  PSucc") && AllSpace(row[17..]))
  }

  /** `has_next_page`. */
  predicate HasNextPage(lines: Display) {
    NextPageRow(lines[ListLastLine])
  }

  /** A bottom row that offers a next page never passes the last-page test. */
  lemma NextExcludesLast(row: string)
    requires NextPageRow(row)
    ensures !LastPageRow(row)
  {
    if StartsWith(row, "Invio Fine  PPrec PSucc") && AllSpace(row[23..]) {
      MenuStrips(row, "Invio Fine  PPrec PSucc");
    } else {
      MenuStrips(row, "Invio Fine  PSucc");
    }
  }

  /** A row holding menu text `p` and then only whitespace strips to `p`. */
  lemma MenuStrips(row: string, p: string)
    requires p == "Invio Fine  PPrec PSucc" || p == "Invio Fine  PSucc"
    requires StartsWith(row, p) && AllSpace(row[|p|..])
    ensures Strip(row) == p && !LastPageRow(row)
  {
    var n := |p|;
    assert row[..n] == p;
    assert row[0] == p[0] == 'I' && row[n - 1] == p[n - 1] == 'c';
    StripOfText(row, n);
    assert "Invio Fine  PPrec"[13] == 'P' && (n == 17 ==> p[13] == 'S');
  }

  /** A row made of text that neither starts nor ends with whitespace, then whitespace, strips to the text. */
  lemma StripOfText(row: string, n: nat)
    requires 0 < n <= |row| && !IsSpace(row[0]) && !IsSpace(row[n - 1]) && AllSpace(row[n..])
    ensures Strip(row) == row[..n]
  {
    assert SkipSpaces(row, 0) == 0;
    var j := BackSpaces(row, 0, |row|);
    forall m | n <= m < |row| ensures IsSpace(row[m]) {
      assert row[m] == row[n..][m - n];
    }
    BackSpacesPast(row, n, |row|);
  }

  lemma {:induction false} BackSpacesPast(row: string, n: nat, j: nat)
    requires 0 < n <= j <= |row| && !IsSpace(row[n - 1])
    requires forall m :: n <= m < j ==> IsSpace(row[m])
    ensures BackSpaces(row, 0, j) == n
    decreases j
  {
    if j > n {
      BackSpacesPast(row, n, j - 1);
    }
  }

  /** `ready` of the list: the bottom row was redrawn by the last update. */
  predicate ListReady(lines: Display, dirty: set<int>) {
    ListLastLine in dirty
  }

  /** `is_last_page`: one update, then the test on the bottom row. */
  function IsLastPage(t: Term, env: Env): (r: Run<bool>)
    ensures t.closed ==> Refused(t, r)
    ensures !t.closed ==> r == Run(Update(t, env), Ok(LastPageRow(Update(t, env).lines[ListLastLine])))
  {
    var u := Refresh(t, env);
    if u.r.Err? then Run(u.t, Err(u.r.error)) else Run(u.t, Ok(LastPageRow(u.t.lines[ListLastLine])))
  }

  /**
   * `scroll_next`: send PG_DN and wait for the list; a timeout becomes NoNextPage
   * when the (updated) bottom row says this is the last page, and is re-raised
   * otherwise.
   */
  function ScrollNext(t: Term, env: Env, timeout: int): (r: Run<()>)
    ensures t.closed ==> Refused(t, r)
    ensures !t.closed ==> !r.t.closed && Sends(r.t.log) == Sends(t.log) + [Encode(Keys.PgDn)]
    ensures r.r.Ok? ==> ListReady(r.t.lines, r.t.dirty)
    ensures !t.closed && r.r.Err? ==>
      && (r.r.error == NoNextPage || r.r.error.LoadingTimeout?)
      && (r.r.error == NoNextPage <==> LastPageRow(r.t.lines[ListLastLine]))
  {
    var s := SendSeq(t, env, Keys.PgDn);
    if s.r.Err? then s
    else
      var w := WaitReady(s.t, env, ListReady, timeout);
      if w.r.Err? && w.r.error.LoadingTimeout? then
        var last := IsLastPage(w.t, env);
        if last.r.Ok? && last.r.value then Run(last.t, Err(NoNextPage))
        else Run(last.t, w.r)
      else w
  }

  /** `back` of the list: END closes the list, a second END the query window. */
  const ListBackKeys: seq<string> := [Keys.End, Keys.End]

  // ---------------------------------------------------------------- the main page

  /** `PartnersMainPage.ready`: the page name, and 'Codici in sequenza' in the last text row. */
  predicate MainReady(pageName: string, lines: Display) {
    PageName(lines) == pageName && Contains(LastLine(lines), CodesInSequence)
  }

  /**
   * The query window's readiness: row 19 from column 3 starts with the prompt
   * (after stripping when `strip` is set, as the supplier and client subclasses
   * do) and row 38 starts with 'Invio Fine'.
   */
  predicate QueryReady(prompt: string, strip: bool, lines: Display) {
    var tail := From(lines[19], 3);
    StartsWith(if strip then Strip(tail) else tail, prompt) && StartsWith(lines[38], ListMenuPrefix)
  }

  /** Stripping only widens the query test, for a prompt that starts and ends with text. */
  lemma StrippedQueryWidens(prompt: string, lines: Display)
    requires prompt != [] && !IsSpace(prompt[0]) && !IsSpace(prompt[|prompt| - 1])
    requires QueryReady(prompt, false, lines)
    ensures QueryReady(prompt, true, lines)
  {
    var tail := From(lines[19], 3);
    var n := |prompt|;
    assert SkipSpaces(tail, 0) == 0;
    var j := BackSpaces(tail, 0, |tail|);
    assert j >= n;
    assert Strip(tail) == tail[..j];
    assert Strip(tail)[..n] == tail[..n];
  }

  /**
   * `show_partner(id)`: the id's text and a carriage return, then the details
   * page is pushed and waited for.
   */
  function ShowPartner<P>(site: Site<P>, n: Nav<P>, env: Env, id: Py.Value, details: P): (r: NavRun<P>)
    ensures n.t.closed ==> r == NavRun(n, Err(DriverClosed))
    ensures !n.t.closed ==>
      && r.nav.stack == n.stack + [details]
      && Sends(r.nav.t.log) == Sends(n.t.log) + [Encode(Py.ToStr(id) + ReturnChar)]
  {
    var s := SendLine(n.t, env, Py.ToStr(id));
    if s.r.Err? then NavRun(n, s.r)
    else SetCurrentPage(site, n.(t := s.t), env, details)
  }

  /** The keys `open_partners_list` types into the query window. */
  const QueryKeys: seq<string> :=
    [Keys.ArrowKey(Keys.Down), Keys.ArrowKey(Keys.Down), Keys.ArrowKey(Keys.Down), "S", "" + ReturnChar]

  /**
   * `open_partners_list`: SHIFT+F1 opens the query window (waited for 3
   * seconds), three down-arrows and 'S' include obsolete partners, a carriage
   * return runs the query, and the list page is pushed.
   */
  function OpenPartnersList<P>(site: Site<P>, n: Nav<P>, env: Env, queryReady: Ready, list: P): (r: NavRun<P>)
    ensures n.t.closed ==> r == NavRun(n, Err(DriverClosed))
    ensures r.r.Ok? ==>
      && r.nav.stack == n.stack + [list]
      && Sends(r.nav.t.log) == Sends(n.t.log) + [Encode(Keys.ShiftF[1])] + EncodeAll(QueryKeys)
    ensures !n.t.closed && r.r.Err? && r.nav.stack == n.stack ==>
      && r.r.error.LoadingTimeout?
      && Sends(r.nav.t.log) == Sends(n.t.log) + [Encode(Keys.ShiftF[1])]
  {
    var s := SendSeq(n.t, env, Keys.ShiftF[1]);
    if s.r.Err? then NavRun(n, s.r)
    else
      var w := WaitReady(s.t, env, queryReady, QueryTimeout);
      if w.r.Err? then NavRun(n.(t := w.t), w.r)
      else
        var k := SendKeys(w.t, env, QueryKeys);
        SetCurrentPage(site, n.(t := k.t), env, list)
  }
}
