/**
 * Navigation (av2000_terminator/navigation/navigator.py, navigation/base/page.py,
 * navigation/base/menu.py and the older navigation/base.py): the breadcrumb of
 * pages, menu selection, and what every page reads off the screen (its name and
 * the selected company).
 *
 * Page classes are values of a type parameter `P`; a `Site` says, for each page,
 * when it is ready, which keys take the user back from it, its menu table and
 * how its name is read.
 */
module Navigation {
  import opened Wrappers
  import opened PyText
  import opened Utf8
  import opened Errors
  import opened Session
  import opened Terminal
  import Keys
  import Py

  /** The Navigator's default page-load timeout, in seconds. */
  const DefaultTimeout: int := 5

  /** MainMenu.PAGE_NAME. */
  const MainMenuName: string := "AV2000"

  /** FakePage.name. */
  const FakePageName: string := "Fake page controller"

  // ---------------------------------------------------------------- what a page reads

  /** `AbstractPage.name`: row 0 without its first 11 and last 28 columns, stripped. */
  function PageName(lines: Display): string {
    Strip(Slice(lines[0], 11, -28))
  }

  /** A title row laid out as 11 columns, the name, and 28 columns gives back the name. */
  lemma PageNameLayout(lines: Display, left: string, name: string, right: string)
    requires lines[0] == left + name + right && |left| == 11 && |right| == 28
    ensures PageName(lines) == Strip(name)
  {
    var row := left + name + right;
    assert Slice(row, 11, -28) == row[11..|row| - 28];
    assert row[11..|row| - 28] == name;
  }

  datatype Company = Company(id: string, name: string)

  /** `AbstractPage.company`: the first two columns of row 1 are the id, the rest the name. */
  function CompanyOf(lines: Display): (c: Company)
    ensures |lines[1]| >= 2 ==> c.id == Strip(lines[1][..2]) && c.name == Strip(lines[1][2..])
    ensures |lines[1]| < 2 ==> c.id == Strip(lines[1]) && c.name == []
  {
    Company(Strip(UpTo(lines[1], 2)), Strip(From(lines[1], 2)))
  }

  /** Row 1 laid out as a 2-column id followed by the name gives back both, stripped. */
  lemma CompanyLayout(lines: Display, id: string, name: string)
    requires lines[1] == id + name && |id| == 2
    ensures CompanyOf(lines) == Company(Strip(id), Strip(name))
  {
    assert lines[1][..2] == id;
    assert lines[1][2..] == name;
  }

  /** `FakePage.ready`. */
  predicate FakeReady(lines: Display, dirty: set<int>) {
    true
  }

  /** Waiting for a FakePage never updates the screen and never times out. */
  lemma FakePageLoadsAtOnce(t: Term, env: Env, timeout: int)
    requires !t.closed
    ensures WaitReady(t, env, FakeReady, timeout) == Run(t.(clockReads := t.clockReads + 1), Ok(()))
  {
    assert FakeReady(t.lines, t.dirty);
  }

  // ---------------------------------------------------------------- the site

  datatype MenuItem<P> = MenuItem(descr: string, page: P)

  datatype Site<!P> = Site(
    main: P,
    ready: P -> Ready,
    backKeys: P -> seq<string>,
    items: P -> map<int, MenuItem<P>>,
    name: (P, Display) -> string)

  /** The key sequences `keys`, each sent with `send_seq`, stopping at the first failure. */
  function SendKeys(t: Term, env: Env, keys: seq<string>): (r: Run<()>)
    ensures t.closed ==> Refused(t, r)
    ensures !t.closed ==> r.r.Ok? && !r.t.closed && Sends(r.t.log) == Sends(t.log) + EncodeAll(keys)
    decreases |keys|
  {
    if t.closed then Run(t, Err(DriverClosed))
    else if keys == [] then Run(t, Ok(()))
    else
      var s := SendSeq(t, env, keys[0]);
      var rest := SendKeys(s.t, env, keys[1..]);
      SendsChain(Sends(t.log), Sends(s.t.log), Sends(rest.t.log), Encode(keys[0]), EncodeAll(keys[1..]));
      rest
  }

  /** Two sends in a row: what the first adds, then what the second adds. */
  lemma SendsChain(a: seq<Bytes>, b: seq<Bytes>, c: seq<Bytes>, x: Bytes, ys: seq<Bytes>)
    requires b == a + [x] && c == b + ys
    ensures c == a + ([x] + ys)
  {
  }

  function EncodeAll(keys: seq<string>): (r: seq<Bytes>)
    ensures |r| == |keys|
    ensures forall i :: 0 <= i < |keys| ==> r[i] == Encode(keys[i])
  {
    if keys == [] then [] else [Encode(keys[0])] + EncodeAll(keys[1..])
  }

  // ---------------------------------------------------------------- the navigator

  /** The Navigator: the terminal, the breadcrumb (current page last) and the timeout. */
  datatype Nav<P> = Nav(t: Term, stack: seq<P>, timeout: int)

  datatype NavRun<P> = NavRun(nav: Nav<P>, r: Result<(), Exc>)

  /** `set_current_page`: the page is pushed first, then waited for. */
  function SetCurrentPage<P>(site: Site<P>, n: Nav<P>, env: Env, p: P): (r: NavRun<P>)
    ensures r.nav.stack == n.stack + [p] && r.nav.timeout == n.timeout
    ensures r.nav.t.closed == n.t.closed && Sends(r.nav.t.log) == Sends(n.t.log)
    ensures r.r.Ok? ==> site.ready(p)(r.nav.t.lines, r.nav.t.dirty)
    ensures r.r.Err? ==> r.r.error.LoadingTimeout? || (n.t.closed && r.r.error == DriverClosed)
  {
    var w := WaitReady(n.t, env, site.ready(p), n.timeout);
    NavRun(Nav(w.t, n.stack + [p], n.timeout), w.r)
  }

  /** `Navigator(av2000, timeout)`: the breadcrumb starts as [MainMenu]. */
  function Init<P>(site: Site<P>, t: Term, env: Env, timeout: int): (r: NavRun<P>)
    ensures r.nav.stack == [site.main] && |r.nav.stack| == 1
    ensures Sends(r.nav.t.log) == Sends(t.log)
  {
    SetCurrentPage(site, Nav(t, [], timeout), env, site.main)
  }

  /**
   * `back`: with more than one page, pop the current one, send its back keys and
   * wait for the page below; otherwise NoPreviousPage and nothing changes.
   */
  function Back<P>(site: Site<P>, n: Nav<P>, env: Env): (r: NavRun<P>)
    ensures |n.stack| <= 1 ==> r == NavRun(n, Err(NoPreviousPage))
    ensures |n.stack| > 1 ==> r.nav.stack == n.stack[..|n.stack| - 1] && r.nav.timeout == n.timeout
    ensures |n.stack| > 1 && !n.t.closed ==>
      && !r.nav.t.closed
      && Sends(r.nav.t.log) == Sends(n.t.log) + EncodeAll(site.backKeys(n.stack[|n.stack| - 1]))
    ensures |n.stack| > 1 && r.r.Ok? ==>
      site.ready(n.stack[|n.stack| - 2])(r.nav.t.lines, r.nav.t.dirty)
  {
    if |n.stack| > 1 then
      var current := n.stack[|n.stack| - 1];
      var below := n.stack[..|n.stack| - 1];
      var s := SendKeys(n.t, env, site.backKeys(current));
      if s.r.Err? then NavRun(Nav(s.t, below, n.timeout), s.r)
      else
        var w := WaitReady(s.t, env, site.ready(below[|below| - 1]), n.timeout);
        NavRun(Nav(w.t, below, n.timeout), w.r)
    else
      NavRun(n, Err(NoPreviousPage))
  }

  /** What going back from each page of `pages` sends, the top page first. */
  function BackTrail<P>(site: Site<P>, pages: seq<P>): seq<Bytes>
    decreases |pages|
  {
    if pages == [] then []
    else EncodeAll(site.backKeys(pages[|pages| - 1])) + BackTrail(site, pages[..|pages| - 1])
  }

  lemma AppendAssoc<T>(a: seq<T>, b: seq<T>, c: seq<T>)
    ensures a + b + c == a + (b + c)
  {
  }

  /** Going back from the top of `stack` is the first part of its trail. */
  lemma BackTrailStep<P>(site: Site<P>, stack: seq<P>)
    requires |stack| > 1
    ensures BackTrail(site, stack[1..]) ==
      EncodeAll(site.backKeys(stack[|stack| - 1])) + BackTrail(site, stack[..|stack| - 1][1..])
  {
    assert stack[1..][..|stack| - 2] == stack[..|stack| - 1][1..];
  }

  /**
   * `back_to_main_menu`: go back until one page is left, then check that the
   * current page is the main menu (an `assert` in the source).
   */
  function BackToMainMenu<P>(site: Site<P>, n: Nav<P>, env: Env): (r: NavRun<P>)
    ensures r.r.Ok? ==> |r.nav.stack| == 1 && site.name(r.nav.stack[0], r.nav.t.lines) == MainMenuName
    ensures |n.stack| >= 1 ==> 1 <= |r.nav.stack| <= |n.stack| && r.nav.stack == n.stack[..|r.nav.stack|]
    decreases |n.stack|
  {
    if |n.stack| > 1 then
      var b := Back(site, n, env);
      if b.r.Err? then b else BackToMainMenu(site, b.nav, env)
    else if |n.stack| == 0 then NavRun(n, Err(IndexError))
    else if site.name(n.stack[0], n.t.lines) == MainMenuName then NavRun(n, Ok(()))
    else NavRun(n, Err(AssertionFailed))
  }

  /**
   * A successful `back_to_main_menu` on an open terminal has sent the back
   * keys of every page it popped, the top page first, and nothing else.
   */
  lemma {:induction false} BackToMainMenuSends<P>(site: Site<P>, n: Nav<P>, env: Env)
    requires |n.stack| >= 1 && !n.t.closed && BackToMainMenu(site, n, env).r.Ok?
    ensures !BackToMainMenu(site, n, env).nav.t.closed
    ensures Sends(BackToMainMenu(site, n, env).nav.t.log) == Sends(n.t.log) + BackTrail(site, n.stack[1..])
    decreases |n.stack|
  {
    if |n.stack| > 1 {
      var b := Back(site, n, env);
      assert b.r.Ok?;
      var rest := BackToMainMenu(site, b.nav, env);
      assert rest == BackToMainMenu(site, n, env);
      BackToMainMenuSends(site, b.nav, env);
      BackTrailStep(site, n.stack);
      var top := EncodeAll(site.backKeys(n.stack[|n.stack| - 1]));
      var trail := BackTrail(site, b.nav.stack[1..]);
      assert Sends(rest.nav.t.log) == Sends(b.nav.t.log) + trail;
      assert Sends(b.nav.t.log) == Sends(n.t.log) + top;
      AppendAssoc(Sends(n.t.log), top, trail);
      assert b.nav.stack == n.stack[..|n.stack| - 1];
      assert top + trail == BackTrail(site, n.stack[1..]);
    } else {
      assert BackTrail(site, n.stack[1..]) == [];
      assert Sends(n.t.log) + [] == Sends(n.t.log);
    }
  }

  /** `menu`: the menu table's keys, each mapped to its description. */
  function Menu<P>(site: Site<P>, p: P): (m: map<int, string>)
    ensures m.Keys == site.items(p).Keys
    ensures forall k :: k in m ==> m[k] == site.items(p)[k].descr
  {
    map k | k in site.items(p) :: site.items(p)[k].descr
  }

  /**
   * `menu_select(item_num)` on the current page: the number is normalised with
   * `int()`; an entry of the table is selected by sending it zero-padded to two
   * digits plus a carriage return, and its page is pushed; any other number
   * raises ValueError with nothing sent.
   */
  function MenuSelect<P>(site: Site<P>, n: Nav<P>, env: Env, item: Py.Value): (r: NavRun<P>)
    ensures |n.stack| == 0 ==> r == NavRun(n, Err(IndexError))
    ensures |n.stack| > 0 && Py.IntCall(item).Err? ==> r == NavRun(n, Err(Py.IntCall(item).error))
    ensures
      && |n.stack| > 0 && Py.IntCall(item).Ok?
      && Py.IntCall(item).value !in site.items(n.stack[|n.stack| - 1])
      ==> r == NavRun(n, Err(ValueError))
    ensures
      && |n.stack| > 0 && Py.IntCall(item).Ok? && !n.t.closed
      && Py.IntCall(item).value in site.items(n.stack[|n.stack| - 1])
      ==>
        var k := Py.IntCall(item).value;
        && r.nav.stack == n.stack + [site.items(n.stack[|n.stack| - 1])[k].page]
        && Sends(r.nav.t.log) == Sends(n.t.log) + [Encode(Format02(k) + ReturnChar)]
    ensures n.t.closed ==> r.r.Err?
  {
    if |n.stack| == 0 then NavRun(n, Err(IndexError))
    else
      var items := site.items(n.stack[|n.stack| - 1]);
      match Py.IntCall(item)
      case Err(e) => NavRun(n, Err(e))
      case Ok(k) =>
        if k in items then
          var s := SendLine(n.t, env, Format02(k));
          if s.r.Err? then NavRun(Nav(s.t, n.stack, n.timeout), s.r)
          else SetCurrentPage(site, Nav(s.t, n.stack, n.timeout), env, items[k].page)
        else NavRun(n, Err(ValueError))
  }

  /** '3', '03' and 3 select the same item. */
  lemma MenuSelectNormalises<P>(site: Site<P>, n: Nav<P>, env: Env, k: nat)
    ensures MenuSelect(site, n, env, Py.Str(Format02(k))) == MenuSelect(site, n, env, Py.Int(k))
    ensures MenuSelect(site, n, env, Py.Str(IntToStr(k))) == MenuSelect(site, n, env, Py.Int(k))
  {
    Py.IntCallAgrees(k);
  }

  /** `len(navigator)`. */
  function Len<P>(n: Nav<P>): nat {
    |n.stack|
  }

  /** `current_page`: the top of the breadcrumb (IndexError on an empty one). */
  function CurrentPage<P>(n: Nav<P>): (r: Option<P>)
    ensures r.Some? <==> Len(n) > 0
    ensures r.Some? ==> r.value == n.stack[Len(n) - 1]
  {
    PyText.Index(n.stack, -1)
  }

  /** A page pushed by `set_current_page` is the current page, one level deeper. */
  lemma PushedIsCurrent<P>(site: Site<P>, n: Nav<P>, env: Env, p: P)
    ensures CurrentPage(SetCurrentPage(site, n, env, p).nav) == Some(p)
    ensures Len(SetCurrentPage(site, n, env, p).nav) == Len(n) + 1
  {
  }

  /** Going back after pushing a page restores the breadcrumb. */
  lemma BackUndoesPush<P>(site: Site<P>, n: Nav<P>, env: Env, p: P)
    requires Len(n) >= 1
    ensures Back(site, SetCurrentPage(site, n, env, p).nav, env).nav.stack == n.stack
  {
    var m := SetCurrentPage(site, n, env, p).nav;
    assert m.stack[..|m.stack| - 1] == n.stack;
  }
}
