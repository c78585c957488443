/**
 * The generators that page through a list on the terminal: Tasker's
 * lidl_warehouses_info_list, lidl_products_info_list and suppliers_list
 * (av2000_terminator/tasker.py), suppliers_list and the producers built on it
 * (av2000_terminator/tasks/anagrafiche/tasks.py), warehouses_info_list and
 * products_info_list (av2000_terminator/tasks/lidl/tasks.py), and the page
 * loop of the Lidl conversion workers (av2000_terminator/tasks/lidl/workers.py).
 *
 * The list on the terminal is given as data: the pages it shows, and the
 * exception the scroll after the last page raises (NoNextPage, unless the
 * wait for the terminal failed).
 */
module Pagination {
  import opened Wrappers
  import opened Errors
  import Seqs
  import Partition

  /** How a generator navigates to its list. */
  datatype NavStep = BackToMainMenu | Select(item: int) | OpenList

  /** What a generator does that can be seen from outside, in order. */
  datatype Step<D> =
    | Nav(step: NavStep)    // a navigation step before the list
    | Yield(item: D)        // one value handed to the consumer
    | Scroll                // current_page.scroll_next()
    | Progress(count: nat)  // 'Downloaded {counter} items.'
    | Total(count: nat)     // 'Download completed. Total items: {counter}'
    | Exit                  // navigator.exit()

  /** The pages a list shows, first to last, and what scrolling past the last one raises. */
  datatype Listing<D> = Listing(first: D, more: seq<D>, end: Exc) {
    function Pages(): seq<D> {
      [first] + more
    }
  }

  /** A generator's run: its steps, and the exception it lets out, if any. */
  datatype GenRun<D> = GenRun(steps: seq<Step<D>>, raised: Option<Exc>)

  /** The Lidl tables: back to the main menu, then 8, 20, 4 and 3 for destinations or 4 for articles. */
  const WarehousesPath: seq<NavStep> := [BackToMainMenu, Select(8), Select(20), Select(4), Select(3)]
  const ProductsPath: seq<NavStep> := [BackToMainMenu, Select(8), Select(20), Select(4), Select(4)]

  /** The suppliers' list: contabilità (3), the suppliers' card (9), then the list. */
  const SuppliersPath: seq<NavStep> := [Select(3), Select(9), OpenList]

  function Navs<D>(path: seq<NavStep>): (r: seq<Step<D>>)
    ensures |r| == |path| && forall i :: 0 <= i < |path| ==> r[i] == Nav(path[i])
  {
    if path == [] then [] else [Nav(path[0])] + Navs(path[1..])
  }

  /** The values yielded, in order. */
  function Yields<D>(steps: seq<Step<D>>): seq<D> {
    if steps == [] then [] else (if steps[0].Yield? then [steps[0].item] else []) + Yields(steps[1..])
  }

  lemma {:induction false} YieldsAppend<D>(a: seq<Step<D>>, b: seq<Step<D>>)
    ensures Yields(a + b) == Yields(a) + Yields(b)
  {
    if a != [] {
      assert (a + b)[1..] == a[1..] + b;
      YieldsAppend(a[1..], b);
    } else {
      assert a + b == b;
    }
  }

  /** The end of a generator: NoNextPage is the end of data and the navigator exits; anything else escapes. */
  function Finish<D>(end: Exc): (r: GenRun<D>) {
    if end == NoNextPage then GenRun([Exit], None) else GenRun([], Some(end))
  }

  // ------------------------------------------------------------ one value per page

  /** `yield extract_data(); scroll_next()` for every page. */
  function PerPage<D>(pages: seq<D>): (r: seq<Step<D>>) {
    if pages == [] then [] else [Yield(pages[0]), Scroll] + PerPage(pages[1..])
  }

  /** Tasker's generators: navigate, then one value per page until the scroll past the end. */
  function PageGen<D>(path: seq<NavStep>, listing: Listing<D>): (r: GenRun<D>) {
    var tail := Finish<D>(listing.end);
    GenRun(Navs(path) + PerPage(listing.Pages()) + tail.steps, tail.raised)
  }

  lemma {:induction false} PerPageYields<D>(pages: seq<D>)
    ensures Yields(PerPage(pages)) == pages
  {
    if pages != [] {
      YieldsAppend([Yield(pages[0]), Scroll], PerPage(pages[1..]));
      assert Yields([Yield(pages[0]), Scroll]) == [pages[0]];
      PerPageYields(pages[1..]);
    }
  }

  lemma NavsYieldNothing<D>(path: seq<NavStep>)
    ensures Yields(Navs<D>(path)) == []
  {
    if path != [] {
      YieldsAppend([Nav(path[0])], Navs<D>(path[1..]));
      NavsYieldNothing<D>(path[1..]);
    }
  }

  /**
   * Tasker.lidl_warehouses_info_list, lidl_products_info_list and suppliers_list
   * yield one extract_data list per page, in page order, and exit the navigator
   * after NoNextPage; any other exception leaves the generator before the exit.
   */
  lemma PageGenYieldsPages<D>(path: seq<NavStep>, listing: Listing<D>)
    ensures Yields(PageGen(path, listing).steps) == listing.Pages()
    ensures PageGen(path, listing).steps[..|path|] == Navs(path)
    ensures listing.end == NoNextPage <==> PageGen(path, listing).raised.None?
    ensures listing.end == NoNextPage ==> PageGen(path, listing).steps[|PageGen(path, listing).steps| - 1] == Exit
    ensures listing.end != NoNextPage ==> PageGen(path, listing).raised == Some(listing.end)
  {
    var tail := Finish<D>(listing.end);
    NavsYieldNothing<D>(path);
    PerPageYields(listing.Pages());
    YieldsAppend(Navs<D>(path), PerPage(listing.Pages()));
    YieldsAppend(Navs<D>(path) + PerPage(listing.Pages()), tail.steps);
    assert Yields(tail.steps) == [];
  }

  // ------------------------------------------------------------ every row of every page

  /** `for row in extract_data(): yield row`, then scroll_next, for every page. */
  function PerRow<R>(pages: seq<seq<R>>): (r: seq<Step<R>>) {
    if pages == [] then [] else RowSteps(pages[0]) + [Scroll] + PerRow(pages[1..])
  }

  function RowSteps<R>(rows: seq<R>): (r: seq<Step<R>>)
    ensures |r| == |rows| && forall i :: 0 <= i < |rows| ==> r[i] == Yield(rows[i])
  {
    if rows == [] then [] else [Yield(rows[0])] + RowSteps(rows[1..])
  }

  /** The Lidl tasks' generators: navigate, then every row of every page. */
  function RowGen<R>(path: seq<NavStep>, listing: Listing<seq<R>>): (r: GenRun<R>) {
    var tail := Finish<R>(listing.end);
    GenRun(Navs(path) + PerRow(listing.Pages()) + tail.steps, tail.raised)
  }

  lemma {:induction false} RowStepsYield<R>(rows: seq<R>)
    ensures Yields(RowSteps(rows)) == rows
  {
    if rows != [] {
      YieldsAppend([Yield(rows[0])], RowSteps(rows[1..]));
      RowStepsYield(rows[1..]);
    }
  }

  lemma {:induction false} PerRowYields<R(!new)>(pages: seq<seq<R>>)
    ensures Yields(PerRow(pages)) == Seqs.Flatten(pages)
  {
    if pages != [] {
      YieldsAppend(RowSteps(pages[0]) + [Scroll], PerRow(pages[1..]));
      YieldsAppend(RowSteps(pages[0]), [Scroll]);
      RowStepsYield(pages[0]);
      PerRowYields(pages[1..]);
    }
  }

  /** Steps that yield nothing. */
  lemma {:induction false} NoYields<D>(steps: seq<Step<D>>)
    requires forall i :: 0 <= i < |steps| ==> !steps[i].Yield?
    ensures Yields(steps) == []
  {
    if steps != [] {
      assert forall i :: 0 <= i < |steps[1..]| ==> steps[1..][i] == steps[i + 1];
      NoYields(steps[1..]);
    }
  }

  lemma {:induction false} PerRowAppend<R>(a: seq<seq<R>>, b: seq<seq<R>>)
    ensures PerRow(a + b) == PerRow(a) + PerRow(b)
  {
    if a == [] {
      assert a + b == b;
    } else {
      assert (a + b)[1..] == a[1..] + b;
      PerRowAppend(a[1..], b);
    }
  }

  /** One step per row and one Scroll per page. */
  lemma {:induction false} PerRowLength<R(!new)>(pages: seq<seq<R>>)
    ensures |PerRow(pages)| == |Seqs.Flatten(pages)| + |pages|
  {
    if pages != [] {
      PerRowLength(pages[1..]);
      Seqs.FlattenAppend([pages[0]], pages[1..]);
      assert [pages[0]] + pages[1..] == pages;
      assert Seqs.Flatten([pages[0]]) == pages[0] + Seqs.Flatten([]);
    }
  }

  /**
   * Between two scrolls the generator yields exactly the rows of one page:
   * the k-th Scroll comes right after the rows of pages 0 .. k, so a page is
   * always fully handed out before the next scroll_next.
   */
  lemma RowsBeforeScroll<R(!new)>(pages: seq<seq<R>>, k: nat)
    requires k < |pages|
    ensures |Seqs.Flatten(pages[..k + 1])| + k < |PerRow(pages)|
    ensures PerRow(pages)[|Seqs.Flatten(pages[..k + 1])| + k] == Scroll
    ensures Yields(PerRow(pages)[..|Seqs.Flatten(pages[..k + 1])| + k]) == Seqs.Flatten(pages[..k + 1])
  {
    var front := pages[..k + 1];
    var n := |Seqs.Flatten(front)| + k;
    assert pages == front + pages[k + 1..];
    PerRowAppend(front, pages[k + 1..]);
    PerRowLength(front);
    assert front == front[..k] + [pages[k]];
    PerRowAppend(front[..k], [pages[k]]);
    assert PerRow([pages[k]]) == RowSteps(pages[k]) + [Scroll];
    var p := PerRow(front);
    assert p[n] == Scroll;
    assert p == p[..n] + [Scroll];
    assert PerRow(pages)[..n] == p[..n];
    PerRowYields(front);
    YieldsAppend(p[..n], [Scroll]);
    NoYields<R>([Scroll]);
  }

  /** warehouses_info_list and products_info_list hand out the pages' rows, concatenated in page order. */
  lemma RowGenYieldsRows<R(!new)>(path: seq<NavStep>, listing: Listing<seq<R>>)
    ensures Yields(RowGen(path, listing).steps) == Seqs.Flatten(listing.Pages())
    ensures listing.end == NoNextPage <==> RowGen(path, listing).raised.None?
  {
    var tail := Finish<R>(listing.end);
    NavsYieldNothing<R>(path);
    PerRowYields(listing.Pages());
    YieldsAppend(Navs<R>(path), PerRow(listing.Pages()));
    YieldsAppend(Navs<R>(path) + PerRow(listing.Pages()), tail.steps);
    assert Yields(tail.steps) == [];
  }

  // ------------------------------------------------------------ anagrafiche suppliers_list

  /** The progress counter of suppliers_list between pages. */
  datatype Progress = Counting(counter: nat, trigger: nat)

  /** One page: add its rows to the counter; past the trigger, move the trigger by 100. */
  function CountPage(c: Progress, rows: nat): (r: Progress) {
    var counter := c.counter + rows;
    if counter > c.trigger then Counting(counter, c.trigger + 100) else Counting(counter, c.trigger)
  }

  /** A page's steps: the progress line when the trigger moved, its rows, then scroll_next. */
  function PageSteps<R>(c: Progress, page: seq<R>): (r: seq<Step<R>>) {
    var c1 := CountPage(c, |page|);
    (if c1.trigger != c.trigger then [Progress(c1.counter)] else []) + RowSteps(page) + [Scroll]
  }

  /** The counter after the pages from c on. */
  function Counted<R>(c: Progress, pages: seq<seq<R>>): (r: Progress)
    decreases |pages|
  {
    if pages == [] then c else Counted(CountPage(c, |pages[0]|), pages[1..])
  }

  /** The steps of the pages from c on. */
  function ListPages<R>(c: Progress, pages: seq<seq<R>>): (r: seq<Step<R>>)
    decreases |pages|
  {
    if pages == [] then [] else PageSteps(c, pages[0]) + ListPages(CountPage(c, |pages[0]|), pages[1..])
  }

  /** anagrafiche.tasks.suppliers_list: counter 0, trigger 100, the pages, the total, the exit. */
  function SuppliersList<R>(listing: Listing<seq<R>>): (r: GenRun<R>) {
    var c := Counted(Counting(0, 100), listing.Pages());
    var steps := ListPages(Counting(0, 100), listing.Pages());
    if listing.end == NoNextPage then GenRun(Navs(SuppliersPath) + steps + [Total(c.counter), Exit], None)
    else GenRun(Navs(SuppliersPath) + steps, Some(listing.end))
  }

  /** `ceil(n / 100)`, at least 1: where the trigger settles. */
  function Hundreds(n: nat): nat {
    if n <= 100 then 1 else (n + 99) / 100
  }

  /**
   * The counter is the number of rows seen; the trigger moves in steps of 100,
   * at most once per page. With pages of at most 100 rows (a screen holds far
   * fewer) it is 100·max(1, ceil(counter / 100)): one progress line each time
   * the count passes a new hundred.
   */
  lemma {:induction false} CounterCounts<R(!new)>(c: Progress, pages: seq<seq<R>>)
    requires c.trigger >= 100 && c.trigger % 100 == 0 && c.counter <= c.trigger
    requires c.trigger == 100 || c.trigger - 100 < c.counter
    requires forall i :: 0 <= i < |pages| ==> |pages[i]| <= 100
    ensures Counted(c, pages).counter == c.counter + |Seqs.Flatten(pages)|
    ensures Counted(c, pages).trigger == 100 * Hundreds(Counted(c, pages).counter)
    decreases |pages|
  {
    assert c.trigger == 100 * Hundreds(c.counter);
    if pages != [] {
      var c1 := CountPage(c, |pages[0]|);
      assert c1.trigger == 100 * Hundreds(c1.counter);
      assert forall i :: 0 <= i < |pages[1..]| ==> pages[1..][i] == pages[i + 1];
      CounterCounts(c1, pages[1..]);
      Seqs.FlattenAppend([pages[0]], pages[1..]);
      assert [pages[0]] + pages[1..] == pages;
      assert Seqs.Flatten([pages[0]]) == pages[0] + Seqs.Flatten([]);
    }
  }

  /** The number of progress lines among the steps. */
  function Prints<D>(steps: seq<Step<D>>): nat {
    if steps == [] then 0 else (if steps[0].Progress? then 1 else 0) + Prints(steps[1..])
  }

  lemma {:induction false} PrintsAppend<D>(a: seq<Step<D>>, b: seq<Step<D>>)
    ensures Prints(a + b) == Prints(a) + Prints(b)
  {
    if a == [] {
      assert a + b == b;
    } else {
      assert (a + b)[1..] == a[1..] + b;
      PrintsAppend(a[1..], b);
    }
  }

  lemma {:induction false} RowStepsPrint<R>(rows: seq<R>)
    ensures Prints(RowSteps(rows)) == 0
  {
    if rows != [] {
      PrintsAppend([Yield(rows[0])], RowSteps(rows[1..]));
      RowStepsPrint(rows[1..]);
    }
  }

  /**
   * Every progress line moves the trigger by exactly 100, so the lines printed
   * over the pages are the trigger's moves: trigger = start + 100 · lines.
   */
  lemma {:induction false} OnePrintPerHundred<R>(c: Progress, pages: seq<seq<R>>)
    ensures Counted(c, pages).trigger == c.trigger + 100 * Prints(ListPages(c, pages))
    decreases |pages|
  {
    if pages != [] {
      var c1 := CountPage(c, |pages[0]|);
      var head: seq<Step<R>> := if c1.trigger != c.trigger then [Progress(c1.counter)] else [];
      OnePrintPerHundred(c1, pages[1..]);
      PrintsAppend(PageSteps(c, pages[0]), ListPages(c1, pages[1..]));
      PrintsAppend(head + RowSteps(pages[0]), [Scroll]);
      PrintsAppend(head, RowSteps(pages[0]));
      RowStepsPrint(pages[0]);
      assert Prints<R>([Scroll]) == 0;
      assert Prints(head) == (if c1.trigger != c.trigger then 1 else 0);
    }
  }

  /** suppliers_list yields every row of every page in order, and counts them all in the total. */
  lemma SuppliersListYieldsRows<R(!new)>(listing: Listing<seq<R>>)
    ensures Yields(SuppliersList(listing).steps) == Seqs.Flatten(listing.Pages())
    ensures listing.end == NoNextPage ==>
      SuppliersList(listing).steps[|SuppliersList(listing).steps| - 2] == Total(|Seqs.Flatten(listing.Pages())|)
  {
    var steps := ListPages(Counting(0, 100), listing.Pages());
    ListPagesYield(Counting(0, 100), listing.Pages());
    CountedCounts(Counting(0, 100), listing.Pages());
    NavsYieldNothing<R>(SuppliersPath);
    YieldsAppend(Navs<R>(SuppliersPath), steps);
    if listing.end == NoNextPage {
      var c := Counted(Counting(0, 100), listing.Pages());
      YieldsAppend(Navs<R>(SuppliersPath) + steps, [Total(c.counter), Exit]);
      NoYields<R>([Total(c.counter), Exit]);
    }
  }

  lemma {:induction false} PageStepsYield<R>(c: Progress, page: seq<R>)
    ensures Yields(PageSteps(c, page)) == page
  {
    var c1 := CountPage(c, |page|);
    var head: seq<Step<R>> := if c1.trigger != c.trigger then [Progress(c1.counter)] else [];
    assert PageSteps(c, page) == head + RowSteps(page) + [Scroll];
    RowStepsYield(page);
    NoYields(head);
    NoYields<R>([Scroll]);
    YieldsAppend(head, RowSteps(page));
    YieldsAppend(head + RowSteps(page), [Scroll]);
    assert Yields(head + RowSteps(page)) == page;
  }

  lemma {:induction false} ListPagesYield<R(!new)>(c: Progress, pages: seq<seq<R>>)
    ensures Yields(ListPages(c, pages)) == Seqs.Flatten(pages)
    decreases |pages|
  {
    if pages != [] {
      var c1 := CountPage(c, |pages[0]|);
      ListPagesYield(c1, pages[1..]);
      PageStepsYield(c, pages[0]);
      YieldsAppend(PageSteps(c, pages[0]), ListPages(c1, pages[1..]));
    }
  }

  /** The counter counts every row of every page. */
  lemma {:induction false} CountedCounts<R(!new)>(c: Progress, pages: seq<seq<R>>)
    ensures Counted(c, pages).counter == c.counter + |Seqs.Flatten(pages)|
    decreases |pages|
  {
    if pages != [] {
      CountedCounts(CountPage(c, |pages[0]|), pages[1..]);
    }
  }

  /** The stride split, read back batch by batch, gives the tasks in order. */
  lemma StrideReassembles<T>(tasks: seq<T>, procs: int)
    ensures procs >= 1 ==> Partition.Reassemble(Partition.StrideProducer(tasks, procs).value) == tasks
  {
    if procs >= 1 {
      Partition.ReassembleSplit(tasks, procs);
    }
  }

  /**
   * suppliers_get_all lists every supplier, then hands the rows to
   * ParallelProducer: worker w downloads rows w, w + P, .. of the listing, and
   * get_next hands them back in listing order. An exception other than
   * NoNextPage leaves `list(suppliers_list(..))` before any producer exists.
   */
  function SuppliersGetAll<R(!new)>(listing: Listing<seq<R>>, procs: int): (r: Result<seq<seq<R>>, Exc>)
    ensures listing.end != NoNextPage ==> r == Err(listing.end)
    ensures listing.end == NoNextPage ==> (procs < 1 <==> r.Err?)
    ensures listing.end == NoNextPage && procs >= 1 ==> Partition.Reassemble(r.value) == Seqs.Flatten(listing.Pages())
  {
    var run := SuppliersList(listing);
    if run.raised.Some? then Err(run.raised.value)
    else
      SuppliersListYieldsRows(listing);
      StrideReassembles(Yields(run.steps), procs);
      Partition.StrideProducer(Yields(run.steps), procs)
  }

  // ------------------------------------------------------------ the Lidl workers' page loop

  /** What one turn of the loop sees: the page's data and whether is_last_page held. */
  datatype View<D> = View(data: D, last: bool)

  /** The loop ran out of views (Running), or ended with the exception the last scroll raised. */
  datatype PageRun<D> = Running(yielded: seq<D>) | Stopped(yielded: seq<D>, raised: Exc)

  /**
   * `while not last_page_processed`: yield the page, record is_last_page, then
   * scroll_next, which on the last page raises NoNextPage (the same blank-row
   * test decides both).
   */
  function LidlPages<D>(views: seq<View<D>>): (r: PageRun<D>) {
    if views == [] then Running([])
    else if views[0].last then Stopped([views[0].data], NoNextPage)
    else
      match LidlPages(views[1..])
      case Running(ys) => Running([views[0].data] + ys)
      case Stopped(ys, e) => Stopped([views[0].data] + ys, e)
  }

  /** The data of views 0 .. k - 1. */
  function Data<D>(views: seq<View<D>>): (r: seq<D>)
    ensures |r| == |views| && forall i :: 0 <= i < |views| ==> r[i] == views[i].data
  {
    if views == [] then [] else [views[0].data] + Data(views[1..])
  }

  /**
   * The loop ends only after a last-page observation, at the first one: it has
   * then yielded every page up to and including that one, and the final
   * scroll_next raised NoNextPage. Without one it is still running.
   */
  lemma {:induction false} LidlStopsAtLast<D>(views: seq<View<D>>, k: nat)
    requires k < |views| && views[k].last
    requires forall j :: 0 <= j < k ==> !views[j].last
    ensures LidlPages(views) == Stopped(Data(views[..k + 1]), NoNextPage)
    decreases k
  {
    if k > 0 {
      assert views[1..][..k] == views[..k + 1][1..];
      assert forall j :: 0 <= j < k - 1 ==> views[1..][j] == views[j + 1];
      LidlStopsAtLast(views[1..], k - 1);
    } else {
      assert views[..1] == [views[0]];
    }
  }

  lemma {:induction false} LidlRunsWithoutLast<D>(views: seq<View<D>>)
    requires forall j :: 0 <= j < |views| ==> !views[j].last
    ensures LidlPages(views) == Running(Data(views))
  {
    if views != [] {
      assert forall j :: 0 <= j < |views[1..]| ==> views[1..][j] == views[j + 1];
      LidlRunsWithoutLast(views[1..]);
    }
  }

  // ------------------------------------------------------------ Tasker.exit

  /** Tasker keeps only the connection parameters; `exit` reads `_navigator`, which nothing sets. */
  datatype Tasker = Tasker(connectionParams: string, navigator: Option<string>)

  function NewTasker(params: string): Tasker {
    Tasker(params, None)
  }

  function TaskerExit(t: Tasker): (r: Result<(), Exc>)
    ensures t.navigator.None? <==> r == Err(AttributeError("_navigator"))
  {
    if t.navigator.None? then Err(AttributeError("_navigator")) else Ok(())
  }

  /** Tasker.exit on a Tasker as its constructor leaves it always raises AttributeError. */
  lemma TaskerExitFails(params: string)
    ensures TaskerExit(NewTasker(params)) == Err(AttributeError("_navigator"))
  {
  }
}
