/**
 * The fan-out/fan-in helpers of ConcurrentUtils.kt. Each helper launches one job per
 * element, lets the coroutine pool run the jobs in whatever order it chooses, and then
 * walks its job list in input order to join them and collect their results into the
 * caller's collection.
 *
 * The pool's choice is the `schedule` parameter: the order in which the jobs complete,
 * a permutation of the job indices. Results never depend on it; the side effects of
 * `action` happen in that order.
 */
module ConcurrentUtils {
  import opened Collections

  /** A launched coroutine: still running, or finished with its value. */
  datatype Job<R> = Active | Completed(value: R)

  /** `0, 1, ..., n - 1`. */
  function Indices(n: nat): (r: seq<nat>)
    ensures |r| == n && forall i :: 0 <= i < n ==> r[i] == i
  {
    seq(n, i requires 0 <= i < n => i)
  }

  /** The pool completes every job exactly once: the schedule is a permutation of the job indices. */
  predicate IsSchedule(schedule: seq<nat>, n: nat) {
    multiset(schedule) == multiset(Indices(n))
  }

  /** Indices that are all below `n`. */
  predicate Below(idx: seq<nat>, n: nat) {
    forall k :: 0 <= k < |idx| ==> idx[k] < n
  }

  /** The entries of `ys` in the order `order` names them. */
  function Pick<R>(ys: seq<R>, order: seq<nat>): (r: seq<R>)
    requires Below(order, |ys|)
    ensures |r| == |order|
    decreases |order|
  {
    if |order| == 0 then [] else [ys[order[0]]] + Pick(ys, order[1..])
  }

  /** The k-th picked entry is the entry the k-th index names. */
  lemma {:induction false} PickIndex<R>(ys: seq<R>, order: seq<nat>)
    requires Below(order, |ys|)
    ensures forall k :: 0 <= k < |order| ==> Pick(ys, order)[k] == ys[order[k]]
    decreases |order|
  {
    if |order| > 0 {
      PickIndex(ys, order[1..]);
    }
  }

  /** A schedule names only existing jobs and names every job. */
  lemma ScheduleBounds(schedule: seq<nat>, n: nat)
    requires IsSchedule(schedule, n)
    ensures |schedule| == n
    ensures forall k :: 0 <= k < |schedule| ==> schedule[k] < n
    ensures forall i :: 0 <= i < n ==> i in schedule
  {
    var idx := Indices(n);
    assert |multiset(schedule)| == |multiset(idx)|;
    forall k | 0 <= k < |schedule| ensures schedule[k] < n {
      assert schedule[k] in multiset(idx);
    }
    forall i | 0 <= i < n ensures i in schedule {
      assert idx[i] == i;
      assert i in multiset(schedule);
    }
  }

  /** Removing one occurrence of the same element from two equal multisets of indices keeps them equal. */
  lemma RemoveSame(a: seq<nat>, b: seq<nat>, j: nat)
    requires |a| > 0 && j < |b| && b[j] == a[0]
    requires multiset(a) == multiset(b)
    ensures multiset(a[1..]) == multiset(b[..j] + b[j + 1..])
  {
    var x := a[0];
    assert a == [x] + a[1..];
    assert b == b[..j] + [x] + b[j + 1..];
    assert multiset(a[1..]) == multiset(a) - multiset{x};
    assert multiset(b[..j] + b[j + 1..]) == multiset(b) - multiset{x};
  }

  /** Picking along a concatenation of orders concatenates the picks. */
  lemma {:induction false} PickConcat<R>(ys: seq<R>, a: seq<nat>, b: seq<nat>)
    requires Below(a, |ys|) && Below(b, |ys|)
    ensures Below(a + b, |ys|)
    ensures Pick(ys, a + b) == Pick(ys, a) + Pick(ys, b)
    decreases |a|
  {
    assert Below(a + b, |ys|) by {
      forall k | 0 <= k < |a + b| ensures (a + b)[k] < |ys| {
        if k >= |a| {
          assert (a + b)[k] == b[k - |a|];
        }
      }
    }
    if |a| == 0 {
      assert a + b == b;
    } else {
      assert (a + b)[1..] == a[1..] + b;
      PickConcat(ys, a[1..], b);
    }
  }

  /** Picking along `b` puts the entry of its position `j` between the picks of the parts around it. */
  lemma PickSplit<R>(ys: seq<R>, b: seq<nat>, j: nat)
    requires Below(b, |ys|) && j < |b|
    ensures Below(b[..j], |ys|) && Below(b[j + 1..], |ys|)
    ensures Pick(ys, b) == Pick(ys, b[..j]) + [ys[b[j]]] + Pick(ys, b[j + 1..])
  {
    assert b == b[..j] + b[j..];
    assert b[j..][1..] == b[j + 1..];
    PickConcat(ys, b[..j], b[j..]);
  }

  /** Picking the same indices in another order gives the same multiset of entries. */
  lemma {:induction false} PickPermutation<R>(ys: seq<R>, a: seq<nat>, b: seq<nat>)
    requires Below(a, |ys|) && Below(b, |ys|)
    requires multiset(a) == multiset(b)
    ensures multiset(Pick(ys, a)) == multiset(Pick(ys, b))
    decreases |a|
  {
    if |a| > 0 {
      assert a[0] in multiset(b);
      var j :| 0 <= j < |b| && b[j] == a[0];
      PickSplit(ys, b, j);
      PickConcat(ys, b[..j], b[j + 1..]);
      RemoveSame(a, b, j);
      PickPermutation(ys, a[1..], b[..j] + b[j + 1..]);
      var y, p1, p2 := [ys[a[0]]], Pick(ys, b[..j]), Pick(ys, b[j + 1..]);
      assert multiset(Pick(ys, a)) == multiset(y) + multiset(p1 + p2);
      assert multiset(Pick(ys, b)) == multiset(p1) + multiset(y) + multiset(p2);
    }
  }

  /** Whatever order the pool chooses, each element's result appears exactly once. */
  lemma ScheduledResultsArePermutation<R>(ys: seq<R>, schedule: seq<nat>)
    requires IsSchedule(schedule, |ys|)
    ensures forall k :: 0 <= k < |schedule| ==> schedule[k] < |ys|
    ensures multiset(Pick(ys, schedule)) == multiset(ys)
  {
    ScheduleBounds(schedule, |ys|);
    PickPermutation(ys, schedule, Indices(|ys|));
    PickIndex(ys, Indices(|ys|));
    assert Pick(ys, Indices(|ys|)) == ys;
  }

  /** The collection a caller passes in as `destination` (a mutable list). */
  class MutableList<R> {
    var elements: seq<R>

    constructor ()
      ensures elements == []
    {
      elements := [];
    }

    method Add(x: R)
      modifies this
      ensures elements == old(elements) + [x]
    {
      elements := elements + [x];
    }

    method AddAll(xs: seq<R>)
      modifies this
      ensures elements == old(elements) + xs
    {
      elements := elements + xs;
    }
  }

  /** What an `action` did, one entry per run, in the order the runs happened. */
  class Effects<E> {
    var performed: seq<E>

    constructor ()
      ensures performed == []
    {
      performed := [];
    }
  }

  /** The launch loop: one job per element, none of them finished yet. */
  method Launch<T, R>(xs: seq<T>) returns (jobs: seq<Job<R>>)
    ensures |jobs| == |xs|
    ensures forall i :: 0 <= i < |jobs| ==> jobs[i] == Active
  {
    jobs := [];
    for i := 0 to |xs|
      invariant |jobs| == i
      invariant forall k :: 0 <= k < i ==> jobs[k] == Active
    {
      jobs := jobs + [Active];
    }
  }

  /**
   * The pool runs the jobs in the order of `schedule`. Afterwards every job has completed
   * with its own element's result, and `trace` lists the results in completion order.
   */
  method RunPool<T, R>(xs: seq<T>, f: T -> R, jobs: seq<Job<R>>, schedule: seq<nat>)
    returns (done: seq<Job<R>>, trace: seq<R>)
    requires |jobs| == |xs| && forall i :: 0 <= i < |jobs| ==> jobs[i] == Active
    requires IsSchedule(schedule, |xs|)
    ensures |done| == |xs|
    ensures forall i :: 0 <= i < |xs| ==> done[i] == Completed(f(xs[i]))
    ensures |trace| == |schedule|
    ensures forall k :: 0 <= k < |schedule| ==> schedule[k] < |xs| && trace[k] == f(xs[schedule[k]])
  {
    ScheduleBounds(schedule, |xs|);
    done, trace := jobs, [];
    for k := 0 to |schedule|
      invariant |done| == |xs| && |trace| == k
      invariant forall i :: 0 <= i < |xs| && done[i].Completed? ==> done[i].value == f(xs[i])
      invariant forall m :: 0 <= m < k ==> done[schedule[m]].Completed?
      invariant forall m :: 0 <= m < k ==> trace[m] == f(xs[schedule[m]])
    {
      var j := schedule[k];
      var r := f(xs[j]);
      done := done[j := Completed(r)];
      trace := trace + [r];
    }
    forall i | 0 <= i < |xs| ensures done[i] == Completed(f(xs[i])) {
      assert i in schedule;
      var m :| 0 <= m < |schedule| && schedule[m] == i;
    }
  }

  /** `parallelForEach`: `action` runs once per element, in the pool's order; returns after every job is joined. */
  method ParallelForEach<T, E>(xs: seq<T>, action: T -> E, schedule: seq<nat>, effects: Effects<E>)
    requires IsSchedule(schedule, |xs|)
    modifies effects
    ensures |schedule| == |xs| && forall k :: 0 <= k < |schedule| ==> schedule[k] < |xs|
    ensures effects.performed == old(effects.performed) + Pick(Map(action, xs), schedule)
  {
    ScheduleBounds(schedule, |xs|);
    var jobs: seq<Job<E>> := Launch(xs);
    var trace;
    jobs, trace := RunPool(xs, action, jobs, schedule);
    PickIndex(Map(action, xs), schedule);
    assert trace == Pick(Map(action, xs), schedule);
    effects.performed := effects.performed + trace;
  }

  /** `parallelMapTo`: appends the results to `destination` in input order, whatever the completion order, and returns it. */
  method ParallelMapTo<T, R>(xs: seq<T>, transform: T -> R, schedule: seq<nat>, destination: MutableList<R>)
    returns (r: MutableList<R>)
    requires IsSchedule(schedule, |xs|)
    modifies destination
    ensures r == destination
    ensures destination.elements == old(destination.elements) + Map(transform, xs)
  {
    var jobs: seq<Job<R>> := Launch(xs);
    var trace;
    jobs, trace := RunPool(xs, transform, jobs, schedule);
    for i := 0 to |jobs|
      invariant destination.elements == old(destination.elements) + Map(transform, xs[..i])
    {
      assert Map(transform, xs[..i + 1]) == Map(transform, xs[..i]) + [transform(xs[i])];
      destination.Add(jobs[i].value);
    }
    assert xs[..|xs|] == xs;
    r := destination;
  }

  /** `parallelMap`: a fresh list with one result per element, in input order. */
  method ParallelMap<T, R>(xs: seq<T>, transform: T -> R, schedule: seq<nat>) returns (r: MutableList<R>)
    requires IsSchedule(schedule, |xs|)
    ensures fresh(r)
    ensures r.elements == Map(transform, xs)
  {
    var destination := new MutableList();
    r := ParallelMapTo(xs, transform, schedule, destination);
  }

  /** `parallelFlatMapTo`: appends the concatenated results to `destination` in input order and returns it. */
  method ParallelFlatMapTo<T, R>(xs: seq<T>, transform: T -> seq<R>, schedule: seq<nat>, destination: MutableList<R>)
    returns (r: MutableList<R>)
    requires IsSchedule(schedule, |xs|)
    modifies destination
    ensures r == destination
    ensures destination.elements == old(destination.elements) + FlatMap(transform, xs)
  {
    var jobs: seq<Job<seq<R>>> := Launch(xs);
    var trace;
    jobs, trace := RunPool(xs, transform, jobs, schedule);
    for i := 0 to |jobs|
      invariant destination.elements == old(destination.elements) + FlatMap(transform, xs[..i])
    {
      FlatMapAppend(transform, xs[..i], [xs[i]]);
      assert xs[..i + 1] == xs[..i] + [xs[i]];
      assert FlatMap(transform, [xs[i]]) == transform(xs[i]);
      destination.AddAll(jobs[i].value);
    }
    assert xs[..|xs|] == xs;
    r := destination;
  }

  /** `parallelFlatMap`: a fresh list holding the concatenated results, in input order. */
  method ParallelFlatMap<T, R>(xs: seq<T>, transform: T -> seq<R>, schedule: seq<nat>) returns (r: MutableList<R>)
    requires IsSchedule(schedule, |xs|)
    ensures fresh(r)
    ensures r.elements == FlatMap(transform, xs)
  {
    var destination := new MutableList();
    r := ParallelFlatMapTo(xs, transform, schedule, destination);
  }

  /** `parallelOnEach`: runs `action` once per element and returns its receiver, unchanged. */
  method ParallelOnEach<T, E>(receiver: MutableList<T>, action: T -> E, schedule: seq<nat>, effects: Effects<E>)
    returns (r: MutableList<T>)
    requires IsSchedule(schedule, |receiver.elements|)
    modifies effects
    ensures r == receiver && r.elements == old(receiver.elements)
    ensures |schedule| == |r.elements| && forall k :: 0 <= k < |schedule| ==> schedule[k] < |r.elements|
    ensures effects.performed == old(effects.performed) + Pick(Map(action, r.elements), schedule)
  {
    var xs := receiver.elements;
    ScheduleBounds(schedule, |xs|);
    var jobs: seq<Job<E>> := Launch(xs);
    var trace;
    jobs, trace := RunPool(xs, action, jobs, schedule);
    PickIndex(Map(action, xs), schedule);
    assert trace == Pick(Map(action, xs), schedule);
    effects.performed := effects.performed + trace;
    r := receiver;
  }
}
