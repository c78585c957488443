/**
 * How the producers share a task list among their worker processes, and how
 * ParallelProducer puts the workers' results back together
 * (av2000_terminator/tasks/base.py ParallelProducer; av2000_terminator/tasker.py
 * _build_parallel_producer).
 */
module Partition {
  import opened Wrappers
  import opened Errors
  import Seqs

  // ------------------------------------------------------------ stride split

  /** `tasks[w::p]`: the task at index w and every p-th one after it. */
  function Stride<T>(tasks: seq<T>, w: nat, p: nat): seq<T>
    requires p >= 1
    decreases |tasks| - w
  {
    if w >= |tasks| then [] else [tasks[w]] + Stride(tasks, w + p, p)
  }

  /** Position k of `tasks[w::p]` exists exactly when index w + k·p does, and holds that task. */
  lemma {:induction false} StrideAt<T>(tasks: seq<T>, w: nat, p: nat, k: nat)
    requires p >= 1
    ensures k < |Stride(tasks, w, p)| <==> w + k * p < |tasks|
    ensures k < |Stride(tasks, w, p)| ==> Stride(tasks, w, p)[k] == tasks[w + k * p]
    decreases k
  {
    if w < |tasks| && k > 0 {
      StrideAt(tasks, w + p, p, k - 1);
      assert w + p + (k - 1) * p == w + k * p;
    }
  }

  /** The per-worker lists of workers w .. p - 1. */
  function SplitFrom<T>(tasks: seq<T>, p: nat, w: nat): (r: seq<seq<T>>)
    requires p >= 1 && w <= p
    ensures |r| == p - w
    ensures forall v :: 0 <= v < |r| ==> r[v] == Stride(tasks, w + v, p)
    decreases p - w
  {
    if w == p then [] else [Stride(tasks, w, p)] + SplitFrom(tasks, p, w + 1)
  }

  /** ParallelProducer's split: worker w receives `tasks[w::procs_num]`. */
  function Split<T>(tasks: seq<T>, p: nat): (r: seq<seq<T>>)
    requires p >= 1
  {
    SplitFrom(tasks, p, 0)
  }

  /** Task i goes to worker i mod p, at position i div p. */
  lemma TaskOwner<T>(tasks: seq<T>, p: nat, i: nat)
    requires p >= 1 && i < |tasks|
    ensures |Split(tasks, p)| == p
    ensures i / p < |Split(tasks, p)[i % p]| && Split(tasks, p)[i % p][i / p] == tasks[i]
  {
    var w, k := i % p, i / p;
    assert w + k * p == i;
    assert Split(tasks, p)[w] == Stride(tasks, w, p);
    StrideAt(tasks, w, p, k);
  }

  /** Position k of worker w's list is task w + k·p: nothing else ends up in a list. */
  lemma OwnedTask<T>(tasks: seq<T>, p: nat, w: nat, k: nat)
    requires p >= 1 && w < p && k < |Split(tasks, p)[w]|
    ensures w + k * p < |tasks| && Split(tasks, p)[w][k] == tasks[w + k * p]
  {
    assert Split(tasks, p)[w] == Stride(tasks, w, p);
    StrideAt(tasks, w, p, k);
  }

  /** The lists are balanced: a lower-numbered worker has the same number of tasks or one more. */
  lemma SplitBalanced<T>(tasks: seq<T>, p: nat, w: nat, v: nat)
    requires p >= 1 && w <= v < p
    ensures |Split(tasks, p)[v]| <= |Split(tasks, p)[w]| <= |Split(tasks, p)[v]| + 1
  {
    var sw, sv := Stride(tasks, w, p), Stride(tasks, v, p);
    var m := |sv|;
    StrideAt(tasks, v, p, m);
    StrideAt(tasks, w, p, m + 1);
    assert w + (m + 1) * p == w + p + m * p;
    if m > 0 {
      StrideAt(tasks, v, p, m - 1);
      StrideAt(tasks, w, p, m - 1);
      assert w + (m - 1) * p <= v + (m - 1) * p;
    }
  }

  /** Worker 0 has the most tasks: ceil(n / p) of them, the number of batches get_next runs. */
  lemma FirstIsLongest<T>(tasks: seq<T>, p: nat)
    requires p >= 1
    ensures |Split(tasks, p)[0]| * p >= |tasks|
    ensures |Split(tasks, p)[0]| > 0 ==> (|Split(tasks, p)[0]| - 1) * p < |tasks|
    ensures forall w :: 0 <= w < p ==> |Split(tasks, p)[w]| <= |Split(tasks, p)[0]|
  {
    var m := |Stride(tasks, 0, p)|;
    StrideAt(tasks, 0, p, m);
    if m > 0 {
      StrideAt(tasks, 0, p, m - 1);
    }
    forall w | 0 <= w < p
      ensures |Split(tasks, p)[w]| <= |Split(tasks, p)[0]|
    {
      SplitBalanced(tasks, p, 0, w);
    }
  }

  /** ParallelProducer's constructor: ValueError unless procs_num >= 1, else the stride split. */
  function StrideProducer<T>(tasks: seq<T>, procs: int): (r: Result<seq<seq<T>>, Exc>)
    ensures procs < 1 <==> r == Err(ValueError)
    ensures procs >= 1 ==> r.Ok? && |r.value| == procs
    ensures procs >= 1 ==> forall w :: 0 <= w < procs ==> r.value[w] == Stride(tasks, w, procs)
  {
    if procs < 1 then Err(ValueError) else Ok(Split(tasks, procs))
  }

  // ------------------------------------------------------------ reassembly

  /** One batch of get_next: result b of every worker that has one, in worker order. */
  function Batch<T>(lists: seq<seq<T>>, b: nat): seq<T> {
    if lists == [] then []
    else (if b < |lists[0]| then [lists[0][b]] else []) + Batch(lists[1..], b)
  }

  /** `max(len(w.tasks) for w in workers)`, 0 for no workers. */
  function MaxLen<T>(lists: seq<seq<T>>): (r: nat)
    ensures forall i :: 0 <= i < |lists| ==> |lists[i]| <= r
    ensures lists != [] ==> exists i :: 0 <= i < |lists| && |lists[i]| == r
  {
    if lists == [] then 0
    else
      var rest := MaxLen(lists[1..]);
      assert forall i :: 1 <= i < |lists| ==> lists[i] == lists[1..][i - 1];
      if |lists[0]| >= rest then |lists[0]| else rest
  }

  /** Batches from .. to - 1, one after the other. */
  function Batches<T>(lists: seq<seq<T>>, from: nat, to: nat): seq<T>
    decreases (to as int) - (from as int)
  {
    if from >= to then [] else Batch(lists, from) + Batches(lists, from + 1, to)
  }

  /** Everything get_next yields when no worker fails. */
  function Reassemble<T>(lists: seq<seq<T>>): seq<T> {
    Batches(lists, 0, MaxLen(lists))
  }

  function Min(a: int, b: int): int {
    if a <= b then a else b
  }

  /** Every list without its first element. */
  function Tails<T>(lists: seq<seq<T>>): (r: seq<seq<T>>)
    ensures |r| == |lists|
    ensures forall i :: 0 <= i < |lists| ==> r[i] == if lists[i] == [] then [] else lists[i][1..]
  {
    if lists == [] then [] else [if lists[0] == [] then [] else lists[0][1..]] + Tails(lists[1..])
  }

  /** Batch b + 1 of the lists is batch b of their tails. */
  lemma {:induction false} BatchShift<T>(lists: seq<seq<T>>, b: nat)
    ensures Batch(lists, b + 1) == Batch(Tails(lists), b)
  {
    if lists != [] {
      assert Tails(lists)[1..] == Tails(lists[1..]);
      BatchShift(lists[1..], b);
    }
  }

  lemma {:induction false} BatchesShift<T>(lists: seq<seq<T>>, from: nat, to: nat)
    ensures Batches(lists, from + 1, to + 1) == Batches(Tails(lists), from, to)
    decreases (to as int) - (from as int)
  {
    if from < to {
      BatchShift(lists, from);
      BatchesShift(lists, from + 1, to);
    }
  }

  /** Batches of lists that are all empty are empty. */
  lemma {:induction false} EmptyBatches<T>(lists: seq<seq<T>>, from: nat, to: nat)
    requires forall i :: 0 <= i < |lists| ==> lists[i] == []
    ensures Batches(lists, from, to) == []
    decreases (to as int) - (from as int)
  {
    if from < to {
      EmptyBatch(lists, from);
      EmptyBatches(lists, from + 1, to);
    }
  }

  lemma {:induction false} EmptyBatch<T>(lists: seq<seq<T>>, b: nat)
    requires forall i :: 0 <= i < |lists| ==> lists[i] == []
    ensures Batch(lists, b) == []
  {
    if lists != [] {
      assert lists[0] == [];
      EmptyBatch(lists[1..], b);
    }
  }

  /** The first batch of workers w .. p - 1 is tasks w .. p - 1. */
  lemma {:induction false} FirstBatch<T>(tasks: seq<T>, p: nat, w: nat)
    requires p >= 1 && w <= p
    ensures Batch(SplitFrom(tasks, p, w), 0) == tasks[Min(w, |tasks|)..Min(p, |tasks|)]
    decreases p - w
  {
    var lists := SplitFrom(tasks, p, w);
    if w < p {
      assert lists[0] == Stride(tasks, w, p);
      assert lists[1..] == SplitFrom(tasks, p, w + 1);
      FirstBatch(tasks, p, w + 1);
      var rest := tasks[Min(w + 1, |tasks|)..Min(p, |tasks|)];
      if w < |tasks| {
        assert tasks[w..Min(p, |tasks|)] == [tasks[w]] + rest;
      }
    }
  }

  /** `tasks[p:]` with Python's clamping. */
  function Drop<T>(tasks: seq<T>, p: nat): seq<T> {
    tasks[Min(p, |tasks|)..]
  }

  /** Without their first elements, the lists are the split of the tasks after the first p. */
  lemma TailsOfSplit<T>(tasks: seq<T>, p: nat)
    requires p >= 1
    ensures Tails(Split(tasks, p)) == Split(Drop(tasks, p), p)
  {
    var l, r := Tails(Split(tasks, p)), Split(Drop(tasks, p), p);
    forall w | 0 <= w < p
      ensures l[w] == r[w]
    {
      assert Split(tasks, p)[w] == Stride(tasks, w, p);
      assert r[w] == Stride(Drop(tasks, p), w, p);
      StrideTail(tasks, w, p);
    }
  }

  /** `tasks[w::p][1:] == tasks[p:][w::p]`. */
  lemma StrideTail<T>(tasks: seq<T>, w: nat, p: nat)
    requires p >= 1
    ensures (if Stride(tasks, w, p) == [] then [] else Stride(tasks, w, p)[1..]) == Stride(Drop(tasks, p), w, p)
  {
    StrideOffset(tasks, Min(p, |tasks|), w, p);
    if w < |tasks| && |tasks| < p {
      assert Stride(tasks, w + p, p) == [];
    }
  }

  /** Starting d tasks later is striding over the tasks after the first d. */
  lemma {:induction false} StrideOffset<T>(tasks: seq<T>, d: nat, w: nat, p: nat)
    requires p >= 1 && d <= |tasks|
    ensures Stride(tasks, w + d, p) == Stride(tasks[d..], w, p)
    decreases |tasks| - w
  {
    var rest := tasks[d..];
    if w + d < |tasks| {
      StrideOffset(tasks, d, w + p, p);
      assert rest[w] == tasks[w + d];
      assert Stride(tasks, w + d, p) == [tasks[w + d]] + Stride(tasks, w + d + p, p);
      assert Stride(rest, w, p) == [rest[w]] + Stride(rest, w + p, p);
      assert w + p + d == w + d + p;
    } else {
      assert Stride(rest, w, p) == [];
    }
  }

  /** Enough batches of the stride split give the tasks back. */
  lemma {:induction false} BatchesOfSplit<T>(tasks: seq<T>, p: nat, m: nat)
    requires p >= 1
    requires forall w :: 0 <= w < p ==> |Split(tasks, p)[w]| <= m
    ensures Batches(Split(tasks, p), 0, m) == tasks
    decreases m
  {
    var lists := Split(tasks, p);
    if tasks == [] {
      forall i | 0 <= i < |lists|
        ensures lists[i] == []
      {
        StrideAt(tasks, i, p, 0);
      }
      EmptyBatches(lists, 0, m);
    } else {
      SplitTailsBound(tasks, p, m);
      BatchesOfSplit(Drop(tasks, p), p, m - 1);
      BatchesOfSplitStep(tasks, p, m);
    }
  }

  /** The split of the tasks after the first p has lists one shorter. */
  lemma SplitTailsBound<T>(tasks: seq<T>, p: nat, m: nat)
    requires p >= 1 && tasks != []
    requires forall w :: 0 <= w < p ==> |Split(tasks, p)[w]| <= m
    ensures m >= 1
    ensures forall w :: 0 <= w < p ==> |Split(Drop(tasks, p), p)[w]| <= m - 1
  {
    var lists := Split(tasks, p);
    StrideAt(tasks, 0, p, 0);
    assert lists[0] == Stride(tasks, 0, p);
    TailsOfSplit(tasks, p);
    forall w | 0 <= w < p
      ensures |Split(Drop(tasks, p), p)[w]| <= m - 1
    {
      assert Split(Drop(tasks, p), p)[w] == Tails(lists)[w];
    }
  }

  /** The first batch followed by the batches of the tails gives the tasks back. */
  lemma BatchesOfSplitStep<T>(tasks: seq<T>, p: nat, m: nat)
    requires p >= 1 && m >= 1
    requires Batches(Split(Drop(tasks, p), p), 0, m - 1) == Drop(tasks, p)
    ensures Batches(Split(tasks, p), 0, m) == tasks
  {
    var lists := Split(tasks, p);
    FirstBatch(tasks, p, 0);
    TailsOfSplit(tasks, p);
    BatchesShift(lists, 0, m - 1);
    assert Batches(lists, 0, m) == Batch(lists, 0) + Batches(lists, 1, m);
    assert Batch(lists, 0) == tasks[..Min(p, |tasks|)];
    assert tasks == tasks[..Min(p, |tasks|)] + Drop(tasks, p);
  }

  /** With the stride split, get_next gives the tasks back in their original order. */
  lemma ReassembleSplit<T>(tasks: seq<T>, p: nat)
    requires p >= 1
    ensures Reassemble(Split(tasks, p)) == tasks
  {
    BatchesOfSplit(tasks, p, MaxLen(Split(tasks, p)));
  }

  // ------------------------------------------------------------ ceil chunks

  /** `math.ceil(len(tasks_list) / procs_num)`. */
  function ChunkSize(n: nat, p: nat): (s: nat)
    requires p >= 1
  {
    (n + p - 1) / p
  }

  /** Some tasks make every chunk at least one long. */
  lemma ChunkSizePositive(n: nat, p: nat)
    requires p >= 1 && n > 0
    ensures ChunkSize(n, p) > 0
  {
    assert n + p - 1 >= p;
  }

  /** The chunk size is the least s with s·p >= n. */
  lemma ChunkSizeIsCeil(n: nat, p: nat)
    requires p >= 1
    ensures ChunkSize(n, p) * p >= n
    ensures ChunkSize(n, p) > 0 ==> (ChunkSize(n, p) - 1) * p < n
  {
    var s := ChunkSize(n, p);
    assert s * p + (n + p - 1) % p == n + p - 1;
  }

  /** `tasks_list[lo : lo + s]`: Python's slice clamps both bounds to the length. */
  function Chunk<T>(tasks: seq<T>, lo: nat, s: nat): seq<T> {
    tasks[Min(lo, |tasks|)..Min(lo + s, |tasks|)]
  }

  /** The count chunks of size s starting at lo. */
  function ChunksFrom<T>(tasks: seq<T>, s: nat, lo: nat, count: nat): (r: seq<seq<T>>)
    ensures |r| == count
    decreases count
  {
    if count == 0 then [] else [Chunk(tasks, lo, s)] + ChunksFrom(tasks, s, lo + s, count - 1)
  }

  /** The tasks of the P processes _build_parallel_producer starts. */
  function Chunks<T>(tasks: seq<T>, p: nat): seq<seq<T>>
    requires p >= 1
  {
    ChunksFrom(tasks, ChunkSize(|tasks|, p), 0, p)
  }

  /** Chunk q is `tasks_list[s * q : s * (q + 1)]`. */
  lemma {:induction false} ChunkAt<T>(tasks: seq<T>, s: nat, lo: nat, count: nat, q: nat)
    requires q < count
    ensures ChunksFrom(tasks, s, lo, count)[q] == Chunk(tasks, lo + s * q, s)
    decreases q
  {
    var r := ChunksFrom(tasks, s, lo, count);
    assert r == [Chunk(tasks, lo, s)] + ChunksFrom(tasks, s, lo + s, count - 1);
    if q > 0 {
      ChunkAt(tasks, s, lo + s, count - 1, q - 1);
      assert r[q] == ChunksFrom(tasks, s, lo + s, count - 1)[q - 1];
      assert s * q == s * (q - 1) + s;
    }
  }

  /** _build_parallel_producer's check, then the chunks. */
  function ChunkProducer<T>(tasks: seq<T>, procs: int): (r: Result<seq<seq<T>>, Exc>)
    ensures procs < 1 <==> r == Err(ValueError)
    ensures procs >= 1 ==> r.Ok? && |r.value| == procs
  {
    if procs < 1 then Err(ValueError) else Ok(Chunks(tasks, procs))
  }

  lemma {:induction false} ChunksFromFlatten<T(!new)>(tasks: seq<T>, s: nat, lo: nat, count: nat)
    ensures Seqs.Flatten(ChunksFrom(tasks, s, lo, count)) == tasks[Min(lo, |tasks|)..Min(lo + s * count, |tasks|)]
    decreases count
  {
    if count > 0 {
      var n, mid, hi := |tasks|, lo + s, lo + s * count;
      assert s * (count - 1) >= 0;
      assert hi == mid + s * (count - 1);
      ChunksFromFlatten(tasks, s, mid, count - 1);
      assert tasks[Min(lo, n)..Min(mid, n)] + tasks[Min(mid, n)..Min(hi, n)] == tasks[Min(lo, n)..Min(hi, n)];
    }
  }

  /**
   * The chunks put back together are the task list, each holds at most
   * ceil(n / P) tasks, and chunk q is empty exactly when q·s >= n.
   */
  lemma ChunksPartition<T(!new)>(tasks: seq<T>, p: nat)
    requires p >= 1
    ensures Seqs.Flatten(Chunks(tasks, p)) == tasks
    ensures forall q :: 0 <= q < p ==> |Chunks(tasks, p)[q]| <= ChunkSize(|tasks|, p)
    ensures forall q :: 0 <= q < p ==>
      (Chunks(tasks, p)[q] == [] <==> ChunkSize(|tasks|, p) * q >= |tasks|)
  {
    var s := ChunkSize(|tasks|, p);
    ChunkSizeIsCeil(|tasks|, p);
    ChunksFromFlatten(tasks, s, 0, p);
    assert Min(0 + s * p, |tasks|) == |tasks|;
    forall q | 0 <= q < p
      ensures |Chunks(tasks, p)[q]| <= s
      ensures Chunks(tasks, p)[q] == [] <==> s * q >= |tasks|
    {
      ChunkBounds(tasks, p, q);
    }
  }

  lemma ChunkBounds<T>(tasks: seq<T>, p: nat, q: nat)
    requires p >= 1 && q < p
    ensures |Chunks(tasks, p)[q]| <= ChunkSize(|tasks|, p)
    ensures Chunks(tasks, p)[q] == [] <==> ChunkSize(|tasks|, p) * q >= |tasks|
  {
    var n := |tasks|;
    var s := ChunkSize(n, p);
    var lo := s * q;
    ChunkAt(tasks, s, 0, p, q);
    assert 0 + s * q == lo;
    var c := Chunks(tasks, p)[q];
    assert c == tasks[Min(lo, n)..Min(lo + s, n)];
    if lo < n {
      ChunkSizePositive(n, p);
      assert Min(lo + s, n) > lo;
    }
  }

  /** Trailing chunks can be empty: four tasks on three processes give 2, 2 and 0. */
  lemma TrailingChunkEmpty()
    ensures |Chunks([1, 2, 3, 4], 3)| == 3
    ensures Chunks([1, 2, 3, 4], 3) == [[1, 2], [3, 4], []]
  {
    var tasks := [1, 2, 3, 4];
    assert ChunkSize(4, 3) == 2;
    assert Chunk(tasks, 4, 2) == [];
    assert ChunksFrom(tasks, 2, 6, 0) == [];
    assert ChunksFrom(tasks, 2, 4, 1) == [[]];
    assert Chunk(tasks, 2, 2) == [3, 4];
    assert ChunksFrom(tasks, 2, 2, 2) == [[3, 4], []];
    assert Chunk(tasks, 0, 2) == [1, 2];
  }
}
