/**
 * Sequence operations shared by the screen extractors and the task generators:
 * list comprehensions with a filter, a map that stops at the first exception,
 * and the flattening of pages into one stream.
 */
module Seqs {
  import opened Wrappers

  /** `[x for x in xs if keep(x)]`. */
  function Filter<T(!new)>(keep: T -> bool, xs: seq<T>): (r: seq<T>)
    ensures |r| <= |xs|
    ensures forall x :: x in r <==> x in xs && keep(x)
  {
    if xs == [] then []
    else if keep(xs[0]) then [xs[0]] + Filter(keep, xs[1..])
    else Filter(keep, xs[1..])
  }

  /** The filter keeps each kept element as many times as it occurs, and nothing else. */
  lemma {:induction false} FilterCounts<T(!new)>(keep: T -> bool, xs: seq<T>)
    ensures forall x :: multiset(Filter(keep, xs))[x] == if keep(x) then multiset(xs)[x] else 0
  {
    if xs != [] {
      FilterCounts(keep, xs[1..]);
      assert xs == [xs[0]] + xs[1..];
      assert multiset(xs) == multiset{xs[0]} + multiset(xs[1..]);
      var rest := Filter(keep, xs[1..]);
      if keep(xs[0]) {
        assert multiset([xs[0]] + rest) == multiset{xs[0]} + multiset(rest);
      }
    }
  }

  /** The filter keeps the order of its input: filtering a concatenation concatenates the filtered parts. */
  lemma {:induction false} FilterAppend<T(!new)>(keep: T -> bool, a: seq<T>, b: seq<T>)
    ensures Filter(keep, a + b) == Filter(keep, a) + Filter(keep, b)
  {
    if a == [] {
      assert a + b == b;
    } else {
      assert (a + b)[0] == a[0];
      assert (a + b)[1..] == a[1..] + b;
      FilterAppend(keep, a[1..], b);
    }
  }

  /**
   * `[f(x) for x in xs]` where `f` may raise: the values when every call
   * succeeds, otherwise the exception of the first call that fails.
   */
  function MapAll<A, B, E(==)>(f: A -> Result<B, E>, xs: seq<A>): (r: Result<seq<B>, E>)
    ensures r.Ok? <==> forall i :: 0 <= i < |xs| ==> f(xs[i]).Ok?
    ensures r.Ok? ==> |r.value| == |xs| && forall i :: 0 <= i < |xs| ==> r.value[i] == f(xs[i]).value
    ensures r.Err? ==> exists i :: 0 <= i < |xs| && FailsFirst(f, xs, i, r.error)
  {
    if xs == [] then Ok([])
    else
      match f(xs[0])
      case Err(e) =>
        assert FailsFirst(f, xs, 0, e);
        Err(e)
      case Ok(y) =>
        var rest := MapAll(f, xs[1..]);
        assert forall i :: 1 <= i < |xs| ==> xs[i] == xs[1..][i - 1];
        match rest
        case Err(e) =>
          FailsFirstShift(f, xs, e);
          Err(e)
        case Ok(ys) => Ok([y] + ys)
  }

  /** Every call succeeds exactly when the head's does and every call on the tail does. */
  lemma OkSplit<A, B, E>(f: A -> Result<B, E>, xs: seq<A>)
    requires xs != []
    ensures (forall i :: 0 <= i < |xs| ==> f(xs[i]).Ok?)
        <==> f(xs[0]).Ok? && forall i :: 0 <= i < |xs[1..]| ==> f(xs[1..][i]).Ok?
  {
    assert forall i :: 1 <= i < |xs| ==> xs[i] == xs[1..][i - 1];
  }

  /** Prepending the head's image to the tail's images maps every element. */
  lemma MapCons<A, B, E>(f: A -> Result<B, E>, xs: seq<A>, y: B, ys: seq<B>)
    requires xs != [] && f(xs[0]) == Ok(y) && |ys| == |xs| - 1
    requires forall i :: 0 <= i < |xs[1..]| ==> f(xs[1..][i]) == Ok(ys[i])
    ensures forall i :: 0 <= i < |xs| ==> f(xs[i]) == Ok(([y] + ys)[i])
  {
    forall i | 0 <= i < |xs| ensures f(xs[i]) == Ok(([y] + ys)[i]) {
      if i > 0 {
        assert xs[i] == xs[1..][i - 1];
        assert ([y] + ys)[i] == ys[i - 1];
      }
    }
  }

  /** `f(xs[i])` raises `e`, and every call before it succeeds. */
  predicate FailsFirst<A, B, E(==)>(f: A -> Result<B, E>, xs: seq<A>, i: int, e: E)
    requires 0 <= i < |xs|
  {
    f(xs[i]).Err? && f(xs[i]).error == e && forall j :: 0 <= j < i ==> f(xs[j]).Ok?
  }

  lemma FailsFirstShift<A, B, E>(f: A -> Result<B, E>, xs: seq<A>, e: E)
    requires xs != [] && f(xs[0]).Ok?
    requires exists i :: 0 <= i < |xs[1..]| && FailsFirst(f, xs[1..], i, e)
    ensures exists i :: 0 <= i < |xs| && FailsFirst(f, xs, i, e)
  {
    var i :| 0 <= i < |xs[1..]| && FailsFirst(f, xs[1..], i, e);
    forall j | 0 <= j < i + 1 ensures f(xs[j]).Ok? {
      if j > 0 {
        assert xs[j] == xs[1..][j - 1];
      }
    }
    assert FailsFirst(f, xs, i + 1, e);
  }

  /** The concatenation of the pages, in order: what a generator yielding every row of every page produces. */
  function Flatten<T(!new)>(pages: seq<seq<T>>): (r: seq<T>)
    ensures forall x :: x in r <==> exists p :: p in pages && x in p
  {
    if pages == [] then []
    else
      var rest := Flatten(pages[1..]);
      assert forall p :: p in pages ==> p == pages[0] || p in pages[1..];
      pages[0] + rest
  }

  /** Flattening distributes over concatenation: a page's rows all come before the next page's. */
  lemma {:induction false} FlattenAppend<T(!new)>(a: seq<seq<T>>, b: seq<seq<T>>)
    ensures Flatten(a + b) == Flatten(a) + Flatten(b)
  {
    if a == [] {
      assert a + b == b;
    } else {
      assert (a + b)[0] == a[0];
      assert (a + b)[1..] == a[1..] + b;
      FlattenAppend(a[1..], b);
    }
  }

  /** A filter that keeps nothing of xs gives []. */
  lemma FilterNone<T(!new)>(keep: T -> bool, xs: seq<T>)
    requires forall x :: x in xs ==> !keep(x)
    ensures Filter(keep, xs) == []
  {
  }

  /** `sum(xs)`. */
  function Sum(xs: seq<int>): int {
    if xs == [] then 0 else xs[0] + Sum(xs[1..])
  }

  /** Appending one value adds it to the sum. */
  lemma {:induction false} SumSnoc(xs: seq<int>, x: int)
    ensures Sum(xs + [x]) == Sum(xs) + x
  {
    if xs != [] {
      assert (xs + [x])[1..] == xs[1..] + [x];
      SumSnoc(xs[1..], x);
    } else {
      assert xs + [x] == [x];
    }
  }
}
