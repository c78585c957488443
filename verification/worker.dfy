/**
 * The worker processes: the retry loop and exit code of the read workers
 * (av2000_terminator/tasks/base.py AbstractReadWorker.run) and the checkpointed
 * task loops that run inside it (SuppliersDownloader and SuppliersUploader in
 * av2000_terminator/tasks/anagrafiche/workers.py, SuppliersDownloadTask in
 * av2000_terminator/tasks/suppliers_downloader.py), plus what
 * AbstractWriteWorker.run and the Lidl workers' constructors do.
 *
 * The pages the loop drives are not re-modelled here: whether a navigation
 * step raises is given by an oracle, indexed by the attempt (one connection,
 * one turn of the run loop) and the step.
 */
module Worker {
  import opened Wrappers
  import opened Errors

  /** The steps of a task loop that can raise. */
  datatype Stage =
    | SelectMenu(item: int)   // navigator.current_page.menu_select(item)
    | ShowPartner(index: nat) // show_partner / show_supplier of task `index`
    | GetData(index: nat)     // get_data, then queue.put
    | GoBack(index: nat)      // navigator.back() after task `index`

  /** What a step raises in a given attempt, if anything. */
  type Faults = (nat, Stage) -> Option<Exc>

  /** What a task loop does that can be seen from outside, in order. */
  datatype Event<K> =
    | Menu(item: int)     // a menu item selected
    | Show(id: K)         // the card of this id shown
    | Put(index: nat)     // the card of task `index` put on the queue
    | Back                // back to the search page
    | Report(count: nat)  // the progress line `name count`
    | Exit                // navigator.exit() in the run loop's finally

  /** The exception that ended an attempt, and the step that raised it. */
  datatype Fault = Fault(stage: Stage, error: Exc)

  /** One run of a task loop: the checkpoint it reached, what it did, and how it ended. */
  datatype Attempt<K> = Attempt(processed: nat, log: seq<Event<K>>, fault: Option<Fault>)

  /** The menu items every task loop selects first: contabilità (3), then the suppliers' card (9). */
  const OpenMenus: seq<int> := [3, 9]

  /** The progress line is printed when the checkpoint is a multiple of this. */
  const ReportEvery: nat := 25

  /**
   * The body of the for-loop from index i on: show the card, read it, put it on
   * the queue and move the checkpoint, go back, and report every 25 items. The
   * checkpoint equals the loop index, as the loop starts at the checkpoint.
   */
  function Items<K>(ids: seq<K>, faults: Faults, a: nat, i: nat): (r: Attempt<K>)
    ensures i <= |ids| ==> i <= r.processed <= |ids|
    ensures i > |ids| ==> r.processed == i
    ensures r.fault.None? ==> r.processed == if i <= |ids| then |ids| else i
    ensures r.fault.Some? && r.fault.value.stage.GoBack? ==> r.processed > i
    decreases |ids| - i
  {
    if i >= |ids| then Attempt(i, [], None)
    else if faults(a, ShowPartner(i)).Some? then
      Attempt(i, [], Some(Fault(ShowPartner(i), faults(a, ShowPartner(i)).value)))
    else if faults(a, GetData(i)).Some? then
      Attempt(i, [Show(ids[i])], Some(Fault(GetData(i), faults(a, GetData(i)).value)))
    else if faults(a, GoBack(i)).Some? then
      Attempt(i + 1, [Show(ids[i]), Put(i)], Some(Fault(GoBack(i), faults(a, GoBack(i)).value)))
    else
      var done := i + 1;
      var here := [Show(ids[i]), Put(i), Back] + (if done % ReportEvery == 0 then [Report(done)] else []);
      var rest := Items(ids, faults, a, done);
      Attempt(rest.processed, here + rest.log, rest.fault)
  }

  /** A task loop, attempt a, resuming at checkpoint `start`: the two menus, then the items. */
  function TaskLoop<K>(ids: seq<K>, faults: Faults, a: nat, start: nat): (r: Attempt<K>)
    ensures r.processed >= start
  {
    if faults(a, SelectMenu(3)).Some? then Attempt(start, [], Some(Fault(SelectMenu(3), faults(a, SelectMenu(3)).value)))
    else if faults(a, SelectMenu(9)).Some? then Attempt(start, [Menu(3)], Some(Fault(SelectMenu(9), faults(a, SelectMenu(9)).value)))
    else
      var items := Items(ids, faults, a, start);
      Attempt(items.processed, [Menu(3), Menu(9)] + items.log, items.fault)
  }

  // ------------------------------------------------------------ log projections

  /** The indices put on the queue, in order. */
  function Puts<K>(log: seq<Event<K>>): seq<nat> {
    if log == [] then [] else (if log[0].Put? then [log[0].index] else []) + Puts(log[1..])
  }

  /** The ids whose cards were shown, in order. */
  function Shows<K>(log: seq<Event<K>>): seq<K> {
    if log == [] then [] else (if log[0].Show? then [log[0].id] else []) + Shows(log[1..])
  }

  /** The counts of the progress lines, in order. */
  function Reports<K>(log: seq<Event<K>>): seq<nat> {
    if log == [] then [] else (if log[0].Report? then [log[0].count] else []) + Reports(log[1..])
  }

  /** How many times the navigator was closed. */
  function Exits<K>(log: seq<Event<K>>): nat {
    if log == [] then 0 else (if log[0].Exit? then 1 else 0) + Exits(log[1..])
  }

  /** lo, lo + 1, .., hi - 1. */
  function Range(lo: nat, hi: nat): (r: seq<nat>)
    decreases hi - lo
  {
    if lo >= hi then [] else [lo] + Range(lo + 1, hi)
  }

  /** The multiples of 25 in lo + 1 .. hi, in increasing order. */
  function Multiples(lo: nat, hi: nat): seq<nat>
    decreases hi - lo
  {
    if lo >= hi then []
    else (if (lo + 1) % ReportEvery == 0 then [lo + 1] else []) + Multiples(lo + 1, hi)
  }

  lemma PutsAppend<K>(a: seq<Event<K>>, b: seq<Event<K>>)
    ensures Puts(a + b) == Puts(a) + Puts(b)
    ensures Shows(a + b) == Shows(a) + Shows(b)
    ensures Reports(a + b) == Reports(a) + Reports(b)
    ensures Exits(a + b) == Exits(a) + Exits(b)
  {
    PutsJoin(a, b);
    ShowsJoin(a, b);
    ReportsJoin(a, b);
    ExitsJoin(a, b);
  }

  lemma {:induction false} PutsJoin<K>(a: seq<Event<K>>, b: seq<Event<K>>)
    ensures Puts(a + b) == Puts(a) + Puts(b)
  {
    if a != [] {
      assert (a + b)[1..] == a[1..] + b;
      PutsJoin(a[1..], b);
    } else {
      assert a + b == b;
    }
  }

  lemma {:induction false} ShowsJoin<K>(a: seq<Event<K>>, b: seq<Event<K>>)
    ensures Shows(a + b) == Shows(a) + Shows(b)
  {
    if a != [] {
      assert (a + b)[1..] == a[1..] + b;
      ShowsJoin(a[1..], b);
    } else {
      assert a + b == b;
    }
  }

  lemma {:induction false} ReportsJoin<K>(a: seq<Event<K>>, b: seq<Event<K>>)
    ensures Reports(a + b) == Reports(a) + Reports(b)
  {
    if a != [] {
      assert (a + b)[1..] == a[1..] + b;
      ReportsJoin(a[1..], b);
    } else {
      assert a + b == b;
    }
  }

  lemma {:induction false} ExitsJoin<K>(a: seq<Event<K>>, b: seq<Event<K>>)
    ensures Exits(a + b) == Exits(a) + Exits(b)
  {
    if a != [] {
      assert (a + b)[1..] == a[1..] + b;
      ExitsJoin(a[1..], b);
    } else {
      assert a + b == b;
    }
  }

  lemma RangeAppend(lo: nat, mid: nat, hi: nat)
    requires lo <= mid <= hi
    ensures Range(lo, hi) == Range(lo, mid) + Range(mid, hi)
    ensures Multiples(lo, hi) == Multiples(lo, mid) + Multiples(mid, hi)
  {
    RangeJoin(lo, mid, hi);
    MultiplesJoin(lo, mid, hi);
  }

  lemma {:induction false} RangeJoin(lo: nat, mid: nat, hi: nat)
    requires lo <= mid <= hi
    ensures Range(lo, hi) == Range(lo, mid) + Range(mid, hi)
    decreases mid - lo
  {
    if lo < mid {
      RangeJoin(lo + 1, mid, hi);
    }
  }

  lemma {:induction false} MultiplesJoin(lo: nat, mid: nat, hi: nat)
    requires lo <= mid <= hi
    ensures Multiples(lo, hi) == Multiples(lo, mid) + Multiples(mid, hi)
    decreases mid - lo
  {
    if lo < mid {
      MultiplesJoin(lo + 1, mid, hi);
    }
  }

  // ------------------------------------------------------------ the task loop

  /** The projections of one item's events. */
  lemma ItemLog<K>(id: K, i: nat, report: seq<Event<K>>)
    requires report == [] || (|report| == 1 && report[0].Report?)
    ensures var here := [Show(id), Put(i), Back] + report;
      && Puts(here) == [i]
      && Shows(here) == [id]
      && Reports(here) == (if report == [] then [] else [report[0].count])
      && Exits(here) == 0
  {
    var here := [Show(id), Put(i), Back] + report;
    assert here == [Show(id)] + ([Put(i)] + ([Back] + report));
    ItemLogPuts(id, i, report);
    ItemLogShows(id, i, report);
    ItemLogReports(id, i, report);
    ItemLogExits(id, i, report);
  }

  lemma ItemLogPuts<K>(id: K, i: nat, report: seq<Event<K>>)
    requires report == [] || (|report| == 1 && report[0].Report?)
    ensures Puts([Show(id)] + ([Put(i)] + ([Back] + report))) == [i]
  {
    assert Puts(report) == [];
    PutsJoin([Back], report);
    PutsJoin([Put(i)], [Back] + report);
    PutsJoin([Show(id)], [Put(i)] + ([Back] + report));
  }

  lemma ItemLogShows<K>(id: K, i: nat, report: seq<Event<K>>)
    requires report == [] || (|report| == 1 && report[0].Report?)
    ensures Shows([Show(id)] + ([Put(i)] + ([Back] + report))) == [id]
  {
    assert Shows(report) == [];
    ShowsJoin([Back], report);
    ShowsJoin([Put(i)], [Back] + report);
    ShowsJoin([Show(id)], [Put(i)] + ([Back] + report));
  }

  lemma ItemLogReports<K>(id: K, i: nat, report: seq<Event<K>>)
    requires report == [] || (|report| == 1 && report[0].Report?)
    ensures Reports([Show(id)] + ([Put(i)] + ([Back] + report))) == (if report == [] then [] else [report[0].count])
  {
    assert Reports(report) == (if report == [] then [] else [report[0].count]);
    ReportsJoin([Back], report);
    ReportsJoin([Put(i)], [Back] + report);
    ReportsJoin([Show(id)], [Put(i)] + ([Back] + report));
  }

  lemma ItemLogExits<K>(id: K, i: nat, report: seq<Event<K>>)
    requires report == [] || (|report| == 1 && report[0].Report?)
    ensures Exits([Show(id)] + ([Put(i)] + ([Back] + report))) == 0
  {
    assert Exits(report) == 0;
    ExitsJoin([Back], report);
    ExitsJoin([Put(i)], [Back] + report);
    ExitsJoin([Show(id)], [Put(i)] + ([Back] + report));
  }

  /** The projections of what an item leaves behind when a step raises. */
  lemma CutLog<K>(id: K, i: nat)
    ensures Puts([Show(id)]) == [] && Shows([Show(id)]) == [id] && Reports([Show(id)]) == [] && Exits([Show(id)]) == 0
    ensures var cut := [Show(id), Put(i)];
      Puts(cut) == [i] && Shows(cut) == [id] && Reports(cut) == [] && Exits(cut) == 0
  {
    PutsAppend([Show(id)], [Put(i)]);
    assert [Show(id)] + [Put(i)] == [Show(id), Put(i)];
  }

  /** The items of one finished item, then the rest of the loop. */
  lemma ItemThenRest<K>(ids: seq<K>, faults: Faults, a: nat, i: nat)
    requires i < |ids|
    requires faults(a, ShowPartner(i)).None? && faults(a, GetData(i)).None? && faults(a, GoBack(i)).None?
    ensures var rest := Items(ids, faults, a, i + 1);
      var log := Items(ids, faults, a, i).log;
      && Puts(log) == [i] + Puts(rest.log)
      && Shows(log) == [ids[i]] + Shows(rest.log)
      && Reports(log) == (if (i + 1) % ReportEvery == 0 then [i + 1] else []) + Reports(rest.log)
      && Exits(log) == Exits(rest.log)
  {
    var done := i + 1;
    var report := if done % ReportEvery == 0 then [Report(done)] else [];
    var here := [Show(ids[i]), Put(i), Back] + report;
    PutsAppend(here, Items(ids, faults, a, done).log);
    ItemLog(ids[i], i, report);
  }

  /**
   * The checkpoint counts the cards put on the queue: the loop puts tasks i ..
   * processed - 1, each once and in order, and never closes the navigator itself.
   */
  lemma {:induction false} ItemsCheckpoint<K>(ids: seq<K>, faults: Faults, a: nat, i: nat)
    requires i <= |ids|
    ensures Puts(Items(ids, faults, a, i).log) == Range(i, Items(ids, faults, a, i).processed)
    ensures Exits(Items(ids, faults, a, i).log) == 0
    decreases |ids| - i
  {
    if i < |ids| && faults(a, ShowPartner(i)).None? {
      CutLog(ids[i], i);
      if faults(a, GetData(i)).None? && faults(a, GoBack(i)).None? {
        var rest := Items(ids, faults, a, i + 1);
        ItemsCheckpoint(ids, faults, a, i + 1);
        ItemThenRest(ids, faults, a, i);
        RangeAppend(i, i + 1, rest.processed);
      } else if faults(a, GetData(i)).None? {
        assert Range(i, i + 1) == [i];
      }
    }
  }

  /** The loop shows the ids from i on, in order, stopping at most one past the checkpoint. */
  lemma {:induction false} ItemsVisitInOrder<K>(ids: seq<K>, faults: Faults, a: nat, i: nat)
    requires i <= |ids|
    ensures ids[i..Items(ids, faults, a, i).processed] <= Shows(Items(ids, faults, a, i).log) <= ids[i..]
    decreases |ids| - i
  {
    if i < |ids| && faults(a, ShowPartner(i)).None? {
      CutLog(ids[i], i);
      assert ids[i..] == [ids[i]] + ids[i + 1..];
      if faults(a, GetData(i)).None? && faults(a, GoBack(i)).None? {
        var rest := Items(ids, faults, a, i + 1);
        ItemsVisitInOrder(ids, faults, a, i + 1);
        ItemThenRest(ids, faults, a, i);
        assert ids[i..rest.processed] == [ids[i]] + ids[i + 1..rest.processed];
      } else if faults(a, GetData(i)).None? {
        assert ids[i..i + 1] == [ids[i]];
      }
    }
  }

  /**
   * The progress lines of an attempt of the loop from index i: the multiples
   * of 25 it passed, except the last one when the step back after that item
   * raised (the loop's contract guarantees that such an attempt passed i).
   */
  predicate ReportedFrom<K>(i: nat, r: Attempt<K>) {
    Reports(r.log) ==
      if r.fault.Some? && r.fault.value.stage.GoBack? && r.processed > i then Multiples(i, r.processed - 1)
      else Multiples(i, r.processed)
  }

  /**
   * The loop reports exactly the multiples of 25 it passed, except the last
   * one when the step back after that item raised.
   */
  lemma {:induction false} ItemsReport<K>(ids: seq<K>, faults: Faults, a: nat, i: nat)
    requires i <= |ids|
    ensures ReportedFrom(i, Items(ids, faults, a, i))
    decreases |ids| - i
  {
    var r := Items(ids, faults, a, i);
    if i < |ids| && faults(a, ShowPartner(i)).None? && faults(a, GetData(i)).None? && faults(a, GoBack(i)).None? {
      var rest := Items(ids, faults, a, i + 1);
      ItemsReport(ids, faults, a, i + 1);
      ItemsReportStep(ids, faults, a, i, r, rest);
    } else {
      ItemsReportCut(ids, faults, a, i, r);
    }
  }

  /** An item whose steps raise reports nothing. */
  lemma ItemsReportCut<K>(ids: seq<K>, faults: Faults, a: nat, i: nat, r: Attempt<K>)
    requires i <= |ids| && r == Items(ids, faults, a, i)
    requires !(i < |ids| && faults(a, ShowPartner(i)).None? && faults(a, GetData(i)).None? && faults(a, GoBack(i)).None?)
    ensures ReportedFrom(i, r)
  {
    if i < |ids| && faults(a, ShowPartner(i)).None? {
      CutLog(ids[i], i);
    }
    assert Reports(r.log) == [];
    assert Multiples(i, i) == [];
  }

  /** A finished item adds its report, if any, in front of the reports of the rest of the loop. */
  lemma ItemsReportStep<K>(ids: seq<K>, faults: Faults, a: nat, i: nat, r: Attempt<K>, rest: Attempt<K>)
    requires i < |ids| && r == Items(ids, faults, a, i) && rest == Items(ids, faults, a, i + 1)
    requires faults(a, ShowPartner(i)).None? && faults(a, GetData(i)).None? && faults(a, GoBack(i)).None?
    requires ReportedFrom(i + 1, rest)
    ensures ReportedFrom(i, r)
  {
    assert r.processed == rest.processed && r.fault == rest.fault;
    ItemThenRest(ids, faults, a, i);
    if rest.fault.Some? && rest.fault.value.stage.GoBack? {
      RangeAppend(i, i + 1, rest.processed - 1);
    } else {
      RangeAppend(i, i + 1, rest.processed);
    }
  }

  // ------------------------------------------------------------ the run loop

  /** The worker's state between turns of the run loop. */
  datatype Worker<K> = Worker(
    processed: nat,    // _processed_items, the checkpoint
    counter: nat,      // _iterations_counter
    errors: seq<Exc>,  // what _exception_queue holds
    attempts: nat,     // turns of the loop so far
    log: seq<Event<K>>)

  /** `_max_retry_ok() and not _error() and not _task_completed()`. */
  predicate Continues<K>(ids: seq<K>, maxRetry: int, w: Worker<K>) {
    w.counter < maxRetry && w.errors == [] && |ids| != w.processed
  }

  /**
   * The run loop: each turn opens a connection, runs the task loop from the
   * checkpoint, and closes the navigator in `finally`. LoadingTimeout counts
   * a retry; any other exception is queued and ends the loop. A turn without
   * an exception has done every task, which ends the loop as well.
   */
  function RunLoop<K>(ids: seq<K>, maxRetry: int, faults: Faults, w: Worker<K>): (r: Worker<K>)
    decreases maxRetry - w.counter
  {
    if !Continues(ids, maxRetry, w) then w
    else
      var t := TaskLoop(ids, faults, w.attempts, w.processed);
      var next := Worker(t.processed, w.counter, w.errors, w.attempts + 1, w.log + t.log + [Exit]);
      match t.fault
      case None => next
      case Some(f) =>
        if f.error.LoadingTimeout? then RunLoop(ids, maxRetry, faults, next.(counter := w.counter + 1))
        else next.(errors := w.errors + [f.error])
  }

  /** `sys.exit` at the end of run: 0 when complete, else 1 after an error, else 2. */
  function ExitCode<K>(ids: seq<K>, w: Worker<K>): (code: int) {
    if |ids| == w.processed then 0 else if w.errors != [] then 1 else 2
  }

  /** AbstractReadWorker.run from the constructor's state. */
  function Run<K>(ids: seq<K>, maxRetry: int, faults: Faults): Worker<K> {
    RunLoop(ids, maxRetry, faults, Worker(0, 0, [], 0, []))
  }

  /** A turn of the task loop keeps the checkpoint within the task list. */
  lemma TaskLoopBounds<K>(ids: seq<K>, faults: Faults, a: nat, start: nat)
    requires start <= |ids|
    ensures start <= TaskLoop(ids, faults, a, start).processed <= |ids|
    ensures TaskLoop(ids, faults, a, start).fault.None? ==> TaskLoop(ids, faults, a, start).processed == |ids|
  {
  }

  /** What one turn adds to the log: the items' puts and shows, the reports, one exit. */
  lemma TaskLoopCheckpoint<K>(ids: seq<K>, faults: Faults, a: nat, start: nat)
    requires start <= |ids|
    ensures var t := TaskLoop(ids, faults, a, start);
      && Puts(t.log) == Range(start, t.processed)
      && Reports(t.log) <= Multiples(start, t.processed)
      && Exits(t.log) == 0
  {
    var t := TaskLoop(ids, faults, a, start);
    if faults(a, SelectMenu(3)).None? && faults(a, SelectMenu(9)).None? {
      var items := Items(ids, faults, a, start);
      assert t.log == [Menu(3), Menu(9)] + items.log && t.processed == items.processed;
      ItemsCheckpoint(ids, faults, a, start);
      ItemsReport(ids, faults, a, start);
      MenusThenItems(items.log);
      ReportsWithin(start, items);
    } else if faults(a, SelectMenu(3)).None? {
      assert t.log == [Menu(3)];
      assert Reports(t.log) == [];
    } else {
      assert t.log == [];
    }
  }

  /** The menu selections put, show, report and close nothing. */
  lemma MenusThenItems<K>(log: seq<Event<K>>)
    ensures Puts([Menu(3), Menu(9)] + log) == Puts(log)
    ensures Reports([Menu(3), Menu(9)] + log) == Reports(log)
    ensures Exits([Menu(3), Menu(9)] + log) == Exits(log)
  {
    var menus: seq<Event<K>> := [Menu(3), Menu(9)];
    assert Puts(menus) == [] && Reports(menus) == [] && Exits(menus) == 0;
    PutsJoin(menus, log);
    ReportsJoin(menus, log);
    ExitsJoin(menus, log);
  }

  /** An attempt's progress lines are a prefix of the multiples of 25 it passed. */
  lemma ReportsWithin<K>(i: nat, r: Attempt<K>)
    requires ReportedFrom(i, r) && i <= r.processed
    ensures Reports(r.log) <= Multiples(i, r.processed)
  {
    if r.fault.Some? && r.fault.value.stage.GoBack? && r.processed > i {
      MultiplesJoin(i, r.processed - 1, r.processed);
    }
  }

  /** Reports counted up to `hi`, strictly increasing, each a multiple of 25. */
  predicate ReportsUpTo(reports: seq<nat>, hi: nat) {
    && (forall k :: 0 <= k < |reports| ==> reports[k] % ReportEvery == 0 && 0 < reports[k] <= hi)
    && (forall j, k :: 0 <= j < k < |reports| ==> reports[j] < reports[k])
  }

  lemma {:induction false} MultiplesUpTo(lo: nat, hi: nat)
    ensures forall k :: 0 <= k < |Multiples(lo, hi)| ==> lo < Multiples(lo, hi)[k] <= hi && Multiples(lo, hi)[k] % ReportEvery == 0
    ensures forall j, k :: 0 <= j < k < |Multiples(lo, hi)| ==> Multiples(lo, hi)[j] < Multiples(lo, hi)[k]
    decreases hi - lo
  {
    if lo < hi {
      MultiplesUpTo(lo + 1, hi);
    }
  }

  /** The state the run loop keeps: the log agrees with the checkpoint. */
  predicate Consistent<K>(ids: seq<K>, w: Worker<K>) {
    && w.processed <= |ids|
    && Puts(w.log) == Range(0, w.processed)
    && ReportsUpTo(Reports(w.log), w.processed)
    && Exits(w.log) == w.attempts
  }

  lemma {:induction false} ReportsGrow(earlier: seq<nat>, lo: nat, hi: nat, added: seq<nat>)
    requires ReportsUpTo(earlier, lo) && lo <= hi && added <= Multiples(lo, hi)
    ensures ReportsUpTo(earlier + added, hi)
  {
    MultiplesUpTo(lo, hi);
    var all := earlier + added;
    forall j, k | 0 <= j < k < |all|
      ensures all[j] < all[k]
    {
      if k < |earlier| {
      } else if j < |earlier| {
        assert all[k] == Multiples(lo, hi)[k - |earlier|];
      } else {
        assert all[j] == Multiples(lo, hi)[j - |earlier|];
        assert all[k] == Multiples(lo, hi)[k - |earlier|];
      }
    }
    forall k | 0 <= k < |all|
      ensures all[k] % ReportEvery == 0 && 0 < all[k] <= hi
    {
      if k >= |earlier| {
        assert all[k] == Multiples(lo, hi)[k - |earlier|];
      }
    }
  }

  /**
   * Across retries the run loop keeps the checkpoint honest: the cards on the
   * queue are tasks 0 .. processed - 1, each exactly once and in order, however
   * many attempts timed out; every count is reported at most once; the
   * navigator was closed once per attempt; and the counter only counts
   * timeouts, so it never passes max_retry.
   */
  lemma {:induction false} RunLoopKeeps<K>(ids: seq<K>, maxRetry: int, faults: Faults, w: Worker<K>)
    requires Consistent(ids, w)
    requires w.counter <= maxRetry || !Continues(ids, maxRetry, w)
    ensures Consistent(ids, RunLoop(ids, maxRetry, faults, w))
    ensures !Continues(ids, maxRetry, RunLoop(ids, maxRetry, faults, w))
    ensures RunLoop(ids, maxRetry, faults, w).counter >= w.counter
    ensures RunLoop(ids, maxRetry, faults, w).counter <= if w.counter <= maxRetry then maxRetry else w.counter
    ensures |RunLoop(ids, maxRetry, faults, w).errors| <= |w.errors| + 1
    decreases maxRetry - w.counter
  {
    if Continues(ids, maxRetry, w) {
      var t := TaskLoop(ids, faults, w.attempts, w.processed);
      var next := Worker(t.processed, w.counter, w.errors, w.attempts + 1, w.log + t.log + [Exit]);
      TurnKeeps(ids, faults, w, t, next);
      if t.fault.Some? && t.fault.value.error.LoadingTimeout? {
        RunLoopKeeps(ids, maxRetry, faults, next.(counter := w.counter + 1));
        assert RunLoop(ids, maxRetry, faults, w) == RunLoop(ids, maxRetry, faults, next.(counter := w.counter + 1));
      } else {
        assert RunLoop(ids, maxRetry, faults, w).errors == if t.fault.None? then w.errors else w.errors + [t.fault.value.error];
      }
    }
  }

  /** One turn of the run loop keeps the log consistent with the checkpoint. */
  lemma TurnKeeps<K>(ids: seq<K>, faults: Faults, w: Worker<K>, t: Attempt<K>, next: Worker<K>)
    requires Consistent(ids, w)
    requires t == TaskLoop(ids, faults, w.attempts, w.processed)
    requires next == Worker(t.processed, w.counter, w.errors, w.attempts + 1, w.log + t.log + [Exit])
    ensures Consistent(ids, next)
    ensures t.fault.None? ==> next.processed == |ids|
  {
    TaskLoopBounds(ids, faults, w.attempts, w.processed);
    TaskLoopCheckpoint(ids, faults, w.attempts, w.processed);
    PutsAppend(w.log, t.log);
    PutsAppend(w.log + t.log, [Exit]);
    RangeAppend(0, w.processed, t.processed);
    ReportsGrow(Reports(w.log), w.processed, t.processed, Reports(t.log));
  }

  /**
   * The exit code: 0 exactly when every task was put on the queue; 1 when an
   * exception other than LoadingTimeout stopped an unfinished run; 2 when
   * max_retry timeouts used up the retries.
   */
  lemma RunExit<K>(ids: seq<K>, maxRetry: int, faults: Faults)
    ensures var w := Run(ids, maxRetry, faults);
      && Puts(w.log) == Range(0, w.processed)
      && ReportsUpTo(Reports(w.log), w.processed)
      && Exits(w.log) == w.attempts
      && (ExitCode(ids, w) == 0 <==> w.processed == |ids|)
      && (ExitCode(ids, w) == 1 <==> w.processed != |ids| && |w.errors| == 1)
      && (ExitCode(ids, w) == 2 <==> w.processed != |ids| && w.errors == [] && w.counter >= maxRetry)
  {
    var w0: Worker<K> := Worker(0, 0, [], 0, []);
    assert Consistent(ids, w0);
    RunLoopKeeps(ids, maxRetry, faults, w0);
  }

  /** Every attempt starts over at the menus and resumes at the checkpoint rather than at task 0. */
  lemma ResumeAtCheckpoint<K>(ids: seq<K>, faults: Faults, a: nat, start: nat)
    requires start < |ids|
    requires faults(a, SelectMenu(3)).None? && faults(a, SelectMenu(9)).None?
    requires faults(a, ShowPartner(start)).None?
    ensures TaskLoop(ids, faults, a, start).log[..3] == [Menu(3), Menu(9), Show(ids[start])]
  {
  }

  // ------------------------------------------------------------ the concrete workers

  /** SuppliersDownloader and SuppliersUploader: the task list holds rows, the card shown is row['codice']. */
  function SuppliersDownloader(codes: seq<int>, maxRetry: int, faults: Faults): Worker<int> {
    Run(codes, maxRetry, faults)
  }

  /** SuppliersDownloadTask: the task list holds the ids themselves. */
  function SuppliersDownloadTask<K>(ids: seq<K>, maxRetry: int, faults: Faults): Worker<K> {
    Run(ids, maxRetry, faults)
  }

  /** With no step raising, the item loop ends without a fault. */
  lemma {:induction false} ItemsWithoutFaults<K>(ids: seq<K>, faults: Faults, a: nat, i: nat)
    requires forall s :: faults(a, s).None?
    ensures Items(ids, faults, a, i).fault.None?
    decreases |ids| - i
  {
    if i < |ids| {
      ItemsWithoutFaults(ids, faults, a, i + 1);
    }
  }

  /** When no step raises, the run loop makes a single turn over every task. */
  lemma OneTurnWithoutFaults<K>(ids: seq<K>, maxRetry: int, faults: Faults)
    requires ids != [] && maxRetry >= 1 && forall a, s :: faults(a, s).None?
    ensures Run(ids, maxRetry, faults)
      == Worker(|ids|, 0, [], 1, [Menu(3), Menu(9)] + Items(ids, faults, 0, 0).log + [Exit])
  {
    var w0: Worker<K> := Worker(0, 0, [], 0, []);
    assert Continues(ids, maxRetry, w0);
    ItemsWithoutFaults(ids, faults, 0, 0);
    var items := Items(ids, faults, 0, 0);
    assert TaskLoop(ids, faults, 0, 0) == Attempt(items.processed, [Menu(3), Menu(9)] + items.log, None);
    assert [] + ([Menu(3), Menu(9)] + items.log) + [Exit] == [Menu(3), Menu(9)] + items.log + [Exit];
  }

  /**
   * SuppliersDownloadTask when no step raises: one turn shows the ids
   * themselves, in order, puts every task on the queue, closes the navigator
   * once and exits with 0; with no ids there is no turn at all.
   */
  lemma DownloadTaskWithoutFaults<K>(ids: seq<K>, maxRetry: int, faults: Faults)
    requires maxRetry >= 1 && forall a, s :: faults(a, s).None?
    ensures var w := SuppliersDownloadTask(ids, maxRetry, faults);
      && w.processed == |ids| && ExitCode(ids, w) == 0
      && Shows(w.log) == ids && Puts(w.log) == Range(0, |ids|)
      && w.attempts == (if ids == [] then 0 else 1) && Exits(w.log) == w.attempts
  {
    if ids != [] {
      OneTurnWithoutFaults(ids, maxRetry, faults);
      var items := Items(ids, faults, 0, 0);
      ItemsWithoutFaults(ids, faults, 0, 0);
      ItemsVisitInOrder(ids, faults, 0, 0);
      ItemsCheckpoint(ids, faults, 0, 0);
      assert ids[0..] == ids;
      OneTurnLog(items.log);
    } else {
      assert !Continues(ids, maxRetry, Worker(0, 0, [], 0, []));
    }
  }

  /** The log of a single turn: the menus, the items, one exit. */
  lemma OneTurnLog<K>(log: seq<Event<K>>)
    ensures Shows([Menu(3), Menu(9)] + log + [Exit]) == Shows(log)
    ensures Puts([Menu(3), Menu(9)] + log + [Exit]) == Puts(log)
    ensures Exits([Menu(3), Menu(9)] + log + [Exit]) == Exits(log) + 1
  {
    var menus: seq<Event<K>> := [Menu(3), Menu(9)];
    var exit: seq<Event<K>> := [Exit];
    assert Shows(menus) == [] && Puts(menus) == [] && Exits(menus) == 0;
    assert Shows(exit) == [] && Puts(exit) == [] && Exits(exit) == 1;
    ShowsJoin(menus, log);
    PutsJoin(menus, log);
    ExitsJoin(menus, log);
    ShowsJoin(menus + log, exit);
    PutsJoin(menus + log, exit);
    ExitsJoin(menus + log, exit);
  }

  /** Reading the codes out of the rows: KeyError for a row without 'codice'. */
  function Codes(rows: seq<map<string, int>>): (r: Result<seq<int>, Exc>)
    ensures r.Ok? <==> forall i :: 0 <= i < |rows| ==> "codice" in rows[i]
    ensures r.Ok? ==> |r.value| == |rows| && forall i :: 0 <= i < |rows| ==> r.value[i] == rows[i]["codice"]
  {
    if rows == [] then Ok([])
    else if "codice" !in rows[0] then Err(KeyError)
    else
      match Codes(rows[1..])
      case Err(e) => Err(e)
      case Ok(rest) =>
        assert forall i :: 1 <= i < |rows| ==> rows[i] == rows[1..][i - 1];
        Ok([rows[0]["codice"]] + rest)
  }

  /** `len(self._tasks) == self._processed_items`: AttributeError when `_tasks` was never set. */
  function Completed<K>(tasks: Option<seq<K>>, processed: nat): (r: Result<bool, Exc>)
    ensures tasks.None? <==> r == Err(AttributeError("_tasks"))
    ensures tasks.Some? ==> r == Ok(|tasks.value| == processed)
  {
    match tasks
    case None => Err(AttributeError("_tasks"))
    case Some(ts) => Ok(|ts| == processed)
  }

  /**
   * The start of AbstractWriteWorker.run, from its constructor's state: the
   * loop condition `_max_retry_ok() and not _error() and not _task_completed()`,
   * or, when the retries are already used up, the `_task_completed()` after the
   * loop. Ok(true) means the loop is entered; Ok(false) that run goes straight
   * to its exit code.
   */
  function WriteWorkerStart<K>(tasks: Option<seq<K>>, maxRetry: int): (r: Result<bool, Exc>)
  {
    match Completed(tasks, 0)
    case Err(e) => Err(e)
    case Ok(done) => Ok(0 < maxRetry && !done)
  }

  /**
   * The constructor never sets `_tasks`, so run raises AttributeError before
   * its first turn whatever max_retry is; an exception escaping
   * Process.run ends the process with exit code 1.
   */
  lemma WriteWorkerFails<K>(maxRetry: int)
    ensures WriteWorkerStart<K>(None, maxRetry) == Err(AttributeError("_tasks"))
    ensures forall ts: seq<K> :: WriteWorkerStart(Some(ts), maxRetry) == Ok(0 < maxRetry && ts != [])
  {
  }

  /** The Lidl workers cannot resume, so their constructors insist on max_retry == 1. */
  function LidlWorker(maxRetry: int): (r: Result<(), Exc>)
    ensures r.Ok? <==> maxRetry == 1
    ensures r.Err? ==> r.error == ValueError
  {
    if maxRetry != 1 then Err(ValueError) else Ok(())
  }
}
