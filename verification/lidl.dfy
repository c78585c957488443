/**
 * The two Lidl table pages
 * (av2000_terminator/navigation/pages/magazzino_vendite_acquisti/ordini_clienti/lidl.py):
 * the clients/destinations table and the articles table, each with its row
 * extractor, its last-page test and its scrolling, and the Lidl import menu.
 */
module Lidl {
  import opened Wrappers
  import opened PyText
  import opened Utf8
  import opened Errors
  import opened Session
  import opened Terminal
  import opened Seqs
  import Navigation
  import Keys

  /** LIST_LAST_LINE: the last row of the table. */
  const ListLastLine: nat := 20

  /** PAGE_LAST_LINE: the row whose redraw says the page has loaded. */
  const PageLastLine: nat := 22

  datatype Table = Destinations | Articles

  /** PAGE_NAME of each table page. */
  function TableName(table: Table): string {
    match table
    case Destinations => "Tabella clienti/destinatari Lidl"
    case Articles => "Tabella articoli Lidl"
  }

  /** `_TABLE_LIMIT`: the row under the table is 80 'q's or 80 '-'s once stripped. */
  predicate TableLimit(row: string) {
    Strip(row) == Repeat('q', 80) || Strip(row) == Repeat('-', 80)
  }

  /** `ready` of both table pages: the name, the row under the table, and the redraw of row 22. */
  predicate TableReady(table: Table, lines: Display, dirty: set<int>) {
    Navigation.PageName(lines) == TableName(table) && TableLimit(lines[ListLastLine + 1]) && PageLastLine in dirty
  }

  /** A table page is ready only once row 22 has been redrawn, and no screen is ready for both tables. */
  lemma TableReadyTests(table: Table, lines: Display, dirty: set<int>)
    ensures TableReady(table, lines, dirty) ==> TableReady(table, lines, dirty + {PageLastLine})
    ensures PageLastLine !in dirty ==> !TableReady(table, lines, dirty)
    ensures TableReady(table, lines, dirty) ==> !TableReady(if table == Destinations then Articles else Destinations, lines, dirty)
  {
    if table == Destinations {
      assert TableName(Destinations)[10] != TableName(Articles)[10];
    } else {
      assert TableName(Destinations)[10] != TableName(Articles)[10];
    }
  }

  // ---------------------------------------------------------------- the clients/destinations table

  /**
   * One destination. `pallet` and `giorni_consegna` are `None` where the
   * source yields '' (the `s and int(s)` of a blank slice).
   */
  datatype Destination = Destination(
    nazione: string,
    lager: string,
    cliente: string,
    destinazione: string,
    luogoConsegna: string,
    pallet: Option<int>,
    giorniConsegna: Option<int>)

  /** `s and int(s)` on a stripped slice: '' stays blank, anything else goes through `int()`. */
  function BlankOrInt(s: string): (r: Result<Option<int>, Exc>)
    ensures s == [] ==> r == Ok(None)
    ensures s != [] ==> (r.Ok? <==> ParseInt(s).Some?)
    ensures r.Ok? && s != [] ==> r.value == ParseInt(s)
    ensures r.Err? ==> r.error == ValueError
  {
    if s == [] then Ok(None)
    else if ParseInt(s).Some? then Ok(ParseInt(s))
    else Err(ValueError)
  }

  /** A number written by `str()` is read back; a blank slot is read as blank. */
  lemma BlankOrIntRoundTrip(n: int)
    ensures BlankOrInt(IntToStr(n)) == Ok(Some(n))
    ensures BlankOrInt(Strip("")) == Ok(None)
  {
    IntRoundTrip(n);
    assert IntToStr(n) != [] by {
      if n < 0 { assert IntToStr(n)[0] == '-'; } else { assert IsNumeric(NatToStr(n)); }
    }
  }

  /** One row of the clients/destinations table, at the columns of `extract_data`. */
  function DestinationOf(row: string): (r: Result<Destination, Exc>)
    ensures r.Ok? <==> BlankOrInt(Strip(Slice(row, 73, 76))).Ok? && BlankOrInt(Strip(From(row, 76))).Ok?
    ensures r.Ok? ==>
      && r.value.nazione == Strip(Slice(row, 0, 5))
      && r.value.lager == Strip(Slice(row, 41, 51))
      && r.value.cliente == Strip(Slice(row, 52, 59))
      && r.value.destinazione == Strip(Slice(row, 59, 65))
      && r.value.luogoConsegna == Strip(Slice(row, 66, 73))
      && r.value.pallet == BlankOrInt(Strip(Slice(row, 73, 76))).value
      && r.value.giorniConsegna == BlankOrInt(Strip(From(row, 76))).value
    ensures r.Err? ==> r.error == ValueError
  {
    var pallet := BlankOrInt(Strip(Slice(row, 73, 76)));
    var giorni := BlankOrInt(Strip(From(row, 76)));
    if pallet.Err? then Err(pallet.error)
    else if giorni.Err? then Err(giorni.error)
    else
      Ok(Destination(
        Strip(Slice(row, 0, 5)), Strip(Slice(row, 41, 51)), Strip(Slice(row, 52, 59)),
        Strip(Slice(row, 59, 65)), Strip(Slice(row, 66, 73)), pallet.value, giorni.value))
  }

  predicate NotBlank(row: string) {
    !Blank(row)
  }

  /**
   * `extract_data` of the clients/destinations table: one destination per
   * non-blank row among 4..19, in screen order; the first row whose numbers do
   * not parse raises.
   */
  function DestinationsData(lines: Display): (r: Result<seq<Destination>, Exc>)
    ensures r.Ok? ==> |r.value| <= 16
    ensures r.Ok? <==> forall row :: row in lines[4..20] && NotBlank(row) ==> DestinationOf(row).Ok?
    ensures r.Ok? ==> forall d :: d in r.value <==> exists row :: row in lines[4..20] && NotBlank(row) && DestinationOf(row) == Ok(d)
    ensures var kept := Filter(NotBlank, lines[4..20]);
      r.Ok? ==> |r.value| == |kept| && forall i :: 0 <= i < |kept| ==> DestinationOf(kept[i]) == Ok(r.value[i])
    ensures r.Err? ==> r.error == ValueError
  {
    var rows := lines[4..20];
    DestinationsOfRows(rows);
    MapAll(DestinationOf, Filter(NotBlank, rows))
  }

  /** The destinations of the non-blank rows among `rows`. */
  lemma DestinationsOfRows(rows: seq<string>)
    ensures var r := MapAll(DestinationOf, Filter(NotBlank, rows));
      && (r.Ok? ==> |r.value| <= |rows|)
      && (r.Ok? <==> forall row :: row in rows && NotBlank(row) ==> DestinationOf(row).Ok?)
      && (r.Ok? ==> forall d :: d in r.value <==> exists row :: row in rows && NotBlank(row) && DestinationOf(row) == Ok(d))
      && (r.Err? ==> r.error == ValueError)
    ensures var kept := Filter(NotBlank, rows); var r := MapAll(DestinationOf, kept);
      r.Ok? ==> |r.value| == |kept| && forall i :: 0 <= i < |kept| ==> DestinationOf(kept[i]) == Ok(r.value[i])
  {
    var kept := Filter(NotBlank, rows);
    DestinationsFromRows(kept);
  }

  lemma DestinationsFromRows(kept: seq<string>)
    ensures MapAll(DestinationOf, kept).Ok? <==> forall row :: row in kept ==> DestinationOf(row).Ok?
    ensures MapAll(DestinationOf, kept).Ok? ==> forall d :: d in MapAll(DestinationOf, kept).value <==>
      exists row :: row in kept && DestinationOf(row) == Ok(d)
    ensures MapAll(DestinationOf, kept).Err? ==> MapAll(DestinationOf, kept).error == ValueError
    ensures var r := MapAll(DestinationOf, kept);
      r.Ok? ==> |r.value| == |kept| && forall i :: 0 <= i < |kept| ==> DestinationOf(kept[i]) == Ok(r.value[i])
  {
    var r := MapAll(DestinationOf, kept);
    DestinationsAllParse(kept, r);
    if r.Ok? {
      DestinationsSound(kept, r.value);
      DestinationsComplete(kept, r.value);
    } else {
      DestinationsFailure(kept, r);
    }
  }

  /** The table parses exactly when every kept row does. */
  lemma DestinationsAllParse(kept: seq<string>, r: Result<seq<Destination>, Exc>)
    requires r == MapAll(DestinationOf, kept)
    ensures r.Ok? <==> forall row :: row in kept ==> DestinationOf(row).Ok?
  {
    if !r.Ok? {
      var i :| 0 <= i < |kept| && !DestinationOf(kept[i]).Ok?;
      assert kept[i] in kept;
    }
  }

  /** Every destination comes from a kept row. */
  lemma DestinationsSound(kept: seq<string>, ds: seq<Destination>)
    requires MapAll(DestinationOf, kept) == Ok(ds)
    ensures forall d :: d in ds ==> exists row :: row in kept && DestinationOf(row) == Ok(d)
  {
    forall d | d in ds ensures exists row :: row in kept && DestinationOf(row) == Ok(d) {
      var i :| 0 <= i < |ds| && ds[i] == d;
      var row := kept[i];
      assert row in kept && DestinationOf(row) == Ok(d);
    }
  }

  /** Every kept row yields one of the destinations. */
  lemma DestinationsComplete(kept: seq<string>, ds: seq<Destination>)
    requires MapAll(DestinationOf, kept) == Ok(ds)
    ensures forall d :: (exists row :: row in kept && DestinationOf(row) == Ok(d)) ==> d in ds
  {
    forall row | row in kept ensures DestinationOf(row).Ok? && DestinationOf(row).value in ds {
      var i :| 0 <= i < |kept| && kept[i] == row;
      assert ds[i] == DestinationOf(row).value;
    }
  }

  /** A failure is the ValueError of a kept row. */
  lemma DestinationsFailure(kept: seq<string>, r: Result<seq<Destination>, Exc>)
    requires r == MapAll(DestinationOf, kept) && r.Err?
    ensures r.error == ValueError
  {
    var i :| 0 <= i < |kept| && FailsFirst(DestinationOf, kept, i, r.error);
  }

  // ---------------------------------------------------------------- the articles table

  datatype Article = Article(country: string, lidlCode: string, unit: string, codeAv2000: string, description: string)

  /** `zip(rows[::2], rows[1::2])`: consecutive pairs, an odd last row dropped. */
  function Pairs(rows: seq<string>): (r: seq<(string, string)>)
    ensures |r| == |rows| / 2
    ensures forall k :: 0 <= k < |r| ==> r[k] == (rows[2 * k], rows[2 * k + 1])
  {
    if |rows| < 2 then []
    else
      var rest := Pairs(rows[2..]);
      assert forall k :: 0 <= k < |rest| ==> rest[k] == (rows[2 * k + 2], rows[2 * k + 3]);
      [(rows[0], rows[1])] + rest
  }

  /**
   * One article from its two rows. Both rows are stripped first, so the columns
   * of the second row count from its first non-blank character.
   */
  function ArticleOf(pair: (string, string)): Article {
    var first := Strip(pair.0);
    var second := Strip(pair.1);
    Article(first, Strip(Slice(second, 0, 40)), Strip(Slice(second, 41, 49)), Strip(Slice(second, 49, 64)), Strip(From(second, 65)))
  }

  predicate FirstNotBlank(pair: (string, string)) {
    Strip(pair.0) != []
  }

  /**
   * `extract_data` of the articles table: rows 5..20 paired as (5, 6), (7, 8),
   * ..., (19, 20), and an article for each pair whose first row is not blank,
   * in screen order.
   */
  function ArticlesData(lines: Display): (r: seq<Article>)
    ensures |r| <= 8
    ensures var kept := Filter(FirstNotBlank, Pairs(lines[5..21]));
      |r| == |kept| && forall i :: 0 <= i < |kept| ==> r[i] == ArticleOf(kept[i])
    ensures forall a :: a in r <==>
      exists k :: 0 <= k < 8 && FirstNotBlank((lines[5 + 2 * k], lines[6 + 2 * k])) && a == ArticleOf((lines[5 + 2 * k], lines[6 + 2 * k]))
  {
    var rows := lines[5..21];
    ArticlesFromPairs(rows);
    assert forall k :: 0 <= k < 8 ==> rows[2 * k] == lines[5 + 2 * k] && rows[2 * k + 1] == lines[6 + 2 * k];
    ArticlesOf(rows)
  }

  /** The articles of a run of rows: one per pair whose first row is not blank. */
  function ArticlesOf(rows: seq<string>): (r: seq<Article>)
    ensures |r| <= |rows| / 2
  {
    var kept := Filter(FirstNotBlank, Pairs(rows));
    seq(|kept|, i requires 0 <= i < |kept| => ArticleOf(kept[i]))
  }

  /**
   * The articles are those of the kept pairs: one per pair, in the pairs'
   * order, and an article is listed exactly when it comes from such a pair.
   */
  lemma ArticlesFromPairs(rows: seq<string>)
    ensures forall a :: a in ArticlesOf(rows) <==>
      exists k :: 0 <= k < |rows| / 2 && FirstNotBlank((rows[2 * k], rows[2 * k + 1])) && a == ArticleOf((rows[2 * k], rows[2 * k + 1]))
    ensures var kept := Filter(FirstNotBlank, Pairs(rows));
      |ArticlesOf(rows)| == |kept| && forall i :: 0 <= i < |kept| ==> ArticlesOf(rows)[i] == ArticleOf(kept[i])
  {
    ArticlesSound(rows);
    ArticlesComplete(rows);
  }

  /** Every article comes from a pair whose first row is not blank. */
  lemma ArticlesSound(rows: seq<string>)
    ensures forall a :: a in ArticlesOf(rows) ==>
      exists k :: 0 <= k < |rows| / 2 && FirstNotBlank((rows[2 * k], rows[2 * k + 1])) && a == ArticleOf((rows[2 * k], rows[2 * k + 1]))
  {
    var pairs := Pairs(rows);
    var kept := Filter(FirstNotBlank, pairs);
    var r := ArticlesOf(rows);
    forall a | a in r
      ensures exists k :: 0 <= k < |rows| / 2 && FirstNotBlank((rows[2 * k], rows[2 * k + 1])) && a == ArticleOf((rows[2 * k], rows[2 * k + 1]))
    {
      var i :| 0 <= i < |r| && r[i] == a;
      assert kept[i] in kept;
      var k :| 0 <= k < |pairs| && pairs[k] == kept[i];
      assert pairs[k] == (rows[2 * k], rows[2 * k + 1]);
    }
  }

  /** Every pair whose first row is not blank yields one of the articles. */
  lemma ArticlesComplete(rows: seq<string>)
    ensures forall k :: 0 <= k < |rows| / 2 && FirstNotBlank((rows[2 * k], rows[2 * k + 1])) ==>
      ArticleOf((rows[2 * k], rows[2 * k + 1])) in ArticlesOf(rows)
  {
    var pairs := Pairs(rows);
    var kept := Filter(FirstNotBlank, pairs);
    var r := ArticlesOf(rows);
    forall k | 0 <= k < |rows| / 2 && FirstNotBlank((rows[2 * k], rows[2 * k + 1]))
      ensures ArticleOf((rows[2 * k], rows[2 * k + 1])) in r
    {
      assert pairs[k] == (rows[2 * k], rows[2 * k + 1]);
      assert pairs[k] in pairs;
      var i :| 0 <= i < |kept| && kept[i] == pairs[k];
      assert r[i] == ArticleOf(pairs[k]);
    }
  }

  // ---------------------------------------------------------------- end of the table and scrolling

  /** `is_last_page` of both tables: one update, then the table's last row is blank. */
  function IsLastPage(t: Term, env: Env): (r: Run<bool>)
    ensures t.closed ==> Refused(t, r)
    ensures !t.closed ==> r == Run(Update(t, env), Ok(Blank(Update(t, env).lines[ListLastLine])))
  {
    var u := Refresh(t, env);
    if u.r.Err? then Run(u.t, Err(u.r.error)) else Run(u.t, Ok(Strip(u.t.lines[ListLastLine]) == []))
  }

  /**
   * `scroll_next` of both tables: on the last page NoNextPage is raised and
   * nothing is sent; otherwise PG_DN goes out and the table's `ready` is waited
   * for with the navigator's timeout.
   */
  function ScrollNext(table: Table, t: Term, env: Env, timeout: int): (r: Run<()>)
    ensures t.closed ==> Refused(t, r)
    ensures !t.closed && Blank(Update(t, env).lines[ListLastLine]) ==> r == Run(Update(t, env), Err(NoNextPage))
    ensures !t.closed && !Blank(Update(t, env).lines[ListLastLine]) ==>
      && !r.t.closed && Sends(r.t.log) == Sends(t.log) + [Encode(Keys.PgDn)]
      && (r.r.Ok? ==> TableReady(table, r.t.lines, r.t.dirty))
      && (r.r.Err? ==> r.r.error.LoadingTimeout?)
  {
    var last := IsLastPage(t, env);
    if last.r.Err? then Run(last.t, Err(last.r.error))
    else if last.r.value then Run(last.t, Err(NoNextPage))
    else
      var s := SendSeq(last.t, env, Keys.PgDn);
      if s.r.Err? then s
      else WaitReady(s.t, env, (l: Display, d: set<int>) => TableReady(table, l, d), timeout)
  }

  // ---------------------------------------------------------------- the import menu

  /** The Lidl import menu (`MainMenu`): PAGE_NAME and the entries its `menu_select` accepts. */
  const MenuName: string := "Import ordini da xls Lidl"

  datatype MenuPage = Fake | Table(table: Table)

  const MenuItems: map<int, (string, MenuPage)> := map[
    1 := ("Import ordini dal xls Lidl", Fake),
    2 := ("Assegnazione lotti/prezzi assenti", Fake),
    3 := ("Tabella clienti/destinatari Lidl", Table(Destinations)),
    4 := ("Tabella articoli Lidl", Table(Articles)),
    6 := ("Definizione lotti confezionamento", Fake),
    16 := ("Parametri import ordini xls Lidl", Fake),
    22 := ("Stampa definizione lotti confez.", Fake)]

  /** `ready` of the import menu: the name, and its last entry on row 18. */
  predicate MenuReady(lines: Display) {
    Navigation.PageName(lines) == MenuName && Strip(lines[18]) == "16 Parametri import ordini xls Lidl"
  }

  /** Items 3 and 4 open the two tables, and each table's menu entry is its page name. */
  lemma MenuOpensTables()
    ensures 3 in MenuItems && MenuItems[3].1 == Table(Destinations) && MenuItems[3].0 == TableName(Destinations)
    ensures 4 in MenuItems && MenuItems[4].1 == Table(Articles) && MenuItems[4].0 == TableName(Articles)
    ensures forall k :: k in MenuItems && MenuItems[k].1.Table? ==> k == 3 || k == 4
  {
  }
}
