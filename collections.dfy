/**
 * The sequential meaning of the Kotlin collection operations the aggregator uses
 * (`map`, `flatMap`, `filterNot`), and a nullable value as an Option.
 */
module Collections {

  datatype Option<T> = None | Some(value: T)

  /** `xs.map(f)`: one result per element, in order. */
  function Map<T, R>(f: T -> R, xs: seq<T>): (r: seq<R>)
    ensures |r| == |xs|
    ensures forall i :: 0 <= i < |xs| ==> r[i] == f(xs[i])
  {
    seq(|xs|, i requires 0 <= i < |xs| => f(xs[i]))
  }

  /** `xs.flatMap(f)`: the results of all elements concatenated, in order. */
  function FlatMap<T, R>(f: T -> seq<R>, xs: seq<T>): seq<R>
  {
    if |xs| == 0 then [] else f(xs[0]) + FlatMap(f, xs[1..])
  }

  /** `xs.filter(p)`: the elements satisfying `p`, in order. */
  function Filter<T>(p: T -> bool, xs: seq<T>): seq<T>
  {
    if |xs| == 0 then [] else (if p(xs[0]) then [xs[0]] else []) + Filter(p, xs[1..])
  }

  lemma {:induction false} FlatMapAppend<T, R>(f: T -> seq<R>, xs: seq<T>, ys: seq<T>)
    ensures FlatMap(f, xs + ys) == FlatMap(f, xs) + FlatMap(f, ys)
    decreases |xs|
  {
    if |xs| == 0 {
      assert xs + ys == ys;
    } else {
      assert (xs + ys)[1..] == xs[1..] + ys;
      FlatMapAppend(f, xs[1..], ys);
    }
  }

  /** An element of a flattened sequence comes from some element's contribution, and every contribution is kept. */
  lemma {:induction false} FlatMapMembership<T, R>(f: T -> seq<R>, xs: seq<T>, y: R)
    ensures y in FlatMap(f, xs) <==> exists i :: 0 <= i < |xs| && y in f(xs[i])
    decreases |xs|
  {
    if |xs| > 0 {
      FlatMapMembership(f, xs[1..], y);
      if exists i :: 0 <= i < |xs| && y in f(xs[i]) {
        var i :| 0 <= i < |xs| && y in f(xs[i]);
        if i > 0 {
          assert xs[1..][i - 1] == xs[i];
        }
      }
      if exists j :: 0 <= j < |xs[1..]| && y in f(xs[1..][j]) {
        var j :| 0 <= j < |xs[1..]| && y in f(xs[1..][j]);
        assert xs[j + 1] == xs[1..][j];
      }
    }
  }

  /** `map` is `flatMap` with one-element results. */
  lemma {:induction false} MapIsFlatMapOfSingletons<T, R>(f: T -> R, xs: seq<T>)
    ensures Map(f, xs) == FlatMap(x => [f(x)], xs)
    decreases |xs|
  {
    if |xs| > 0 {
      MapIsFlatMapOfSingletons(f, xs[1..]);
      assert Map(f, xs) == [f(xs[0])] + Map(f, xs[1..]);
    }
  }

  lemma {:induction false} FilterAppend<T>(p: T -> bool, xs: seq<T>, ys: seq<T>)
    ensures Filter(p, xs + ys) == Filter(p, xs) + Filter(p, ys)
    decreases |xs|
  {
    if |xs| == 0 {
      assert xs + ys == ys;
    } else {
      assert (xs + ys)[1..] == xs[1..] + ys;
      FilterAppend(p, xs[1..], ys);
    }
  }

  /** An element survives the filter exactly when it was there and satisfies the predicate. */
  lemma {:induction false} FilterMembership<T>(p: T -> bool, xs: seq<T>, x: T)
    ensures x in Filter(p, xs) <==> x in xs && p(x)
    decreases |xs|
  {
    if |xs| > 0 {
      FilterMembership(p, xs[1..], x);
      assert xs == [xs[0]] + xs[1..];
    }
  }

  /** Filtering keeps everything when every element satisfies the predicate. */
  lemma {:induction false} FilterKeepsAll<T>(p: T -> bool, xs: seq<T>)
    requires forall i :: 0 <= i < |xs| ==> p(xs[i])
    ensures Filter(p, xs) == xs
    decreases |xs|
  {
    if |xs| > 0 {
      FilterKeepsAll(p, xs[1..]);
      assert xs == [xs[0]] + xs[1..];
    }
  }

  /** A predicate and its negation `q` split a sequence: every element goes to exactly one side. */
  lemma {:induction false} FilterPartition<T>(p: T -> bool, q: T -> bool, xs: seq<T>)
    requires forall x :: q(x) == !p(x)
    ensures |Filter(p, xs)| + |Filter(q, xs)| == |xs|
    ensures multiset(Filter(p, xs)) + multiset(Filter(q, xs)) == multiset(xs)
    decreases |xs|
  {
    if |xs| > 0 {
      FilterPartition(p, q, xs[1..]);
      assert xs == [xs[0]] + xs[1..];
    }
  }
}
