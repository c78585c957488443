/**
 * The consuming side of the parallel producers: ParallelProducer.get_next with
 * _ordered_fetch (av2000_terminator/tasks/base.py) and the generator loop of
 * Tasker._build_parallel_producer (av2000_terminator/tasker.py).
 *
 * Worker processes are not modelled; what the consumer observes of them is
 * given as data. A worker puts its results on its queue in task order, so the
 * b-th `get` on worker w's queue returns `lists[w][b]`. Exit codes only ever go
 * from "running" to a final value, so "some worker has a non-zero exit code"
 * is false until some number of results have been fetched and true from then
 * on: `failAt` is that number, or None when no worker fails.
 */
module Producer {
  import opened Wrappers
  import opened Partition

  /** `workers_error` once `fetched` results have been taken from the queues. */
  predicate Failed(failAt: Option<nat>, fetched: nat) {
    failAt.Some? && failAt.value <= fetched
  }

  /** Appending one worker to the batch: its result b, if it has one. */
  lemma {:induction false} BatchSnoc<T>(lists: seq<seq<T>>, i: nat, b: nat)
    requires i < |lists|
    ensures Batch(lists[..i + 1], b) == Batch(lists[..i], b) + (if b < |lists[i]| then [lists[i][b]] else [])
    decreases i
  {
    if i == 0 {
      assert lists[..1][1..] == [];
    } else {
      assert lists[..i + 1][1..] == lists[1..][..i];
      assert lists[..i][1..] == lists[1..][..i - 1];
      BatchSnoc(lists[1..], i - 1, b);
    }
  }

  /** Batches 0 .. b, then batch b. */
  lemma {:induction false} BatchesSnoc<T>(lists: seq<seq<T>>, from: nat, b: nat)
    requires from <= b
    ensures Batches(lists, from, b + 1) == Batches(lists, from, b) + Batch(lists, b)
    decreases b - from
  {
    if from < b {
      BatchesSnoc(lists, from + 1, b);
    }
  }

  /** The first b batches are the start of all m of them. */
  lemma {:induction false} BatchesPrefix<T>(lists: seq<seq<T>>, b: nat, m: nat)
    requires b <= m
    ensures Batches(lists, 0, m) == Batches(lists, 0, b) + Batches(lists, b, m)
    decreases m - b
  {
    if b < m {
      BatchesPrefix(lists, b + 1, m);
      BatchesSnoc(lists, 0, b);
      var x, y, z := Batches(lists, 0, b), Batch(lists, b), Batches(lists, b + 1, m);
      assert Batches(lists, b, m) == y + z;
      assert (x + y) + z == x + (y + z);
    }
  }

  /**
   * What _ordered_fetch has fetched after the first i workers: the start of
   * their results b, all of them unless a worker has failed, none if one had
   * failed before the batch, and never a result past the failure.
   */
  ghost predicate FetchedSoFar<T>(lists: seq<seq<T>>, b: nat, failAt: Option<nat>, before: nat, i: nat, batch: seq<T>)
    requires i <= |lists|
  {
    && |batch| <= |Batch(lists[..i], b)| && batch == Batch(lists[..i], b)[..|batch|]
    && (Failed(failAt, before + |batch|) || batch == Batch(lists[..i], b))
    && (Failed(failAt, before) ==> batch == [])
    && (failAt.Some? && before <= failAt.value ==> before + |batch| <= failAt.value)
  }

  /** Worker i's result b is taken while no worker has failed. */
  lemma FetchTake<T>(lists: seq<seq<T>>, b: nat, failAt: Option<nat>, before: nat, i: nat, batch: seq<T>)
    requires i < |lists| && b < |lists[i]| && !Failed(failAt, before + |batch|)
    requires FetchedSoFar(lists, b, failAt, before, i, batch)
    ensures FetchedSoFar(lists, b, failAt, before, i + 1, batch + [lists[i][b]])
  {
    BatchSnoc(lists, i, b);
    assert batch == Batch(lists[..i], b);
    var next := batch + [lists[i][b]];
    assert next == Batch(lists[..i + 1], b);
    assert next == Batch(lists[..i + 1], b)[..|next|];
  }

  /** Worker i is passed over when it has no result b or a worker has failed. */
  lemma FetchSkip<T>(lists: seq<seq<T>>, b: nat, failAt: Option<nat>, before: nat, i: nat, batch: seq<T>)
    requires i < |lists| && (b >= |lists[i]| || Failed(failAt, before + |batch|))
    requires FetchedSoFar(lists, b, failAt, before, i, batch)
    ensures FetchedSoFar(lists, b, failAt, before, i + 1, batch)
  {
    BatchSnoc(lists, i, b);
    var all, more := Batch(lists[..i], b), Batch(lists[..i + 1], b);
    assert more == all + (if b < |lists[i]| then [lists[i][b]] else []);
    assert batch == more[..|batch|];
  }

  /**
   * _ordered_fetch for batch b: for each worker that has a result b, in worker
   * order, wait for it unless a worker has failed. `before` results were fetched
   * by the earlier batches.
   */
  method OrderedFetch<T>(lists: seq<seq<T>>, b: nat, failAt: Option<nat>, before: nat) returns (batch: seq<T>)
    ensures |batch| <= |Batch(lists, b)| && batch == Batch(lists, b)[..|batch|]
    ensures Failed(failAt, before + |batch|) || batch == Batch(lists, b)
    ensures Failed(failAt, before) ==> batch == []
    ensures failAt.Some? && before <= failAt.value ==> before + |batch| <= failAt.value
  {
    batch := [];
    var i := 0;
    assert Batch(lists[..0], b) == [];
    while i < |lists|
      invariant i <= |lists|
      invariant FetchedSoFar(lists, b, failAt, before, i, batch)
    {
      if b < |lists[i]| {
        var fetched := false;
        while !Failed(failAt, before + |batch|) && !fetched
          invariant fetched ==> FetchedSoFar(lists, b, failAt, before, i + 1, batch)
          invariant !fetched ==> FetchedSoFar(lists, b, failAt, before, i, batch)
          decreases if fetched then 0 else 1
        {
          FetchTake(lists, b, failAt, before, i, batch);
          batch := batch + [lists[i][b]];
          fetched := true;
        }
        if !fetched {
          FetchSkip(lists, b, failAt, before, i, batch);
        }
      } else {
        FetchSkip(lists, b, failAt, before, i, batch);
      }
      i := i + 1;
    }
    assert lists[..|lists|] == lists;
  }

  /**
   * get_next: batch after batch while no worker has failed, yielding each
   * batch's results; TaskError (`raised`) when a worker has failed at the end.
   * The yielded results are the reassembled lists, cut short where the failure
   * showed, and TaskError comes exactly when it showed before the end.
   */
  method GetNext<T>(lists: seq<seq<T>>, failAt: Option<nat>) returns (out: seq<T>, raised: bool)
    ensures |out| <= |Reassemble(lists)| && out == Reassemble(lists)[..|out|]
    ensures failAt.None? ==> out == Reassemble(lists)
    ensures failAt.Some? ==> |out| == Min(failAt.value, |Reassemble(lists)|)
    ensures raised <==> Failed(failAt, |Reassemble(lists)|)
  {
    var batches := MaxLen(lists);
    var b := 0;
    out := [];
    while !Failed(failAt, |out|) && b < batches
      invariant b <= batches
      invariant |out| <= |Batches(lists, 0, b)| && out == Batches(lists, 0, b)[..|out|]
      invariant !Failed(failAt, |out|) ==> out == Batches(lists, 0, b)
      invariant failAt.Some? ==> |out| <= failAt.value
    {
      var batch := OrderedFetch(lists, b, failAt, |out|);
      BatchesSnoc(lists, 0, b);
      out := out + batch;
      b := b + 1;
    }
    BatchesPrefix(lists, b, batches);
    raised := Failed(failAt, |out|);
  }

  /** With the stride split and no failing worker, get_next yields the tasks' results in task order. */
  lemma StrideOrder<T>(tasks: seq<T>, p: nat)
    requires p >= 1
    ensures Reassemble(StrideProducer(tasks, p).value) == tasks
  {
    ReassembleSplit(tasks, p);
  }

  // ------------------------------------------------------------ Tasker's loop

  /**
   * What one turn of _build_parallel_producer's loop observes: the item `get`
   * returned (None when it timed out), whether any process is alive, whether
   * any has a non-zero exit code, and whether the queue is empty when the loop
   * condition is next evaluated.
   */
  datatype Poll<T> = Poll(got: Option<T>, alive: bool, error: bool, empty: bool)

  /** `(procs_alive or not results_queue.empty()) and not error` after this turn. */
  predicate Continues<T>(poll: Poll<T>) {
    (poll.alive || !poll.empty) && !poll.error
  }

  /**
   * The generator run over a sequence of turns: Done when the loop ends (with
   * TaskError raised when the last turn saw an error), Running when the turns
   * run out while the loop would still go on.
   */
  datatype Drain<T> = Done(yielded: seq<T>, raised: bool, turns: nat) | Running(yielded: seq<T>)

  /** The items the turns got, in order. */
  function Gets<T>(polls: seq<Poll<T>>): seq<T> {
    if polls == [] then []
    else (if polls[0].got.Some? then [polls[0].got.value] else []) + Gets(polls[1..])
  }

  /** The loop: the first turn always runs (procs_alive starts true, error false). */
  function Producer<T>(polls: seq<Poll<T>>): (r: Drain<T>) {
    if polls == [] then Running([])
    else
      var here := if polls[0].got.Some? then [polls[0].got.value] else [];
      if !Continues(polls[0]) then Done(here, polls[0].error, 1)
      else
        match Producer(polls[1..])
        case Done(ys, raised, n) => Done(here + ys, raised, n + 1)
        case Running(ys) => Running(here + ys)
  }

  /** Turn i is the first after which the loop condition fails. */
  predicate FirstStop<T>(polls: seq<Poll<T>>, i: nat) {
    i < |polls| && !Continues(polls[i]) && forall j :: 0 <= j < i ==> Continues(polls[j])
  }

  /**
   * The loop ends at the first turn whose observations fail the condition, has
   * then yielded every item got up to and including that turn, and raises
   * TaskError exactly when that turn saw an error.
   */
  lemma {:induction false} ProducerStops<T>(polls: seq<Poll<T>>, i: nat)
    requires FirstStop(polls, i)
    ensures Producer(polls) == Done(Gets(polls[..i + 1]), polls[i].error, i + 1)
    decreases i
  {
    if i > 0 {
      assert polls[1..][..i] == polls[..i + 1][1..];
      assert FirstStop(polls[1..], i - 1) by {
        forall j | 0 <= j < i - 1
          ensures Continues(polls[1..][j])
        {
          assert polls[1..][j] == polls[j + 1];
        }
      }
      assert Continues(polls[0]);
      ProducerStops(polls[1..], i - 1);
    } else {
      assert polls[..1][1..] == [];
    }
  }

  /** While every turn keeps the condition, the loop yields every item and is still running. */
  lemma {:induction false} ProducerRuns<T>(polls: seq<Poll<T>>)
    requires forall j :: 0 <= j < |polls| ==> Continues(polls[j])
    ensures Producer(polls) == Running(Gets(polls))
  {
    if polls != [] {
      assert Continues(polls[0]);
      ProducerRuns(polls[1..]);
    }
  }
}
