/**
 * Aggregator.kt: its own two-field torrent, the registry of sources, and the Aggregator,
 * which on every timer tick gathers the torrents of all registered sources, drops those
 * whose name is already in its in-memory history, hands each remaining magnet link to the
 * converter and every other link to the downloader, and records the names it handled.
 *
 * The converter and the downloader are not modelled; each hand-over is recorded as a
 * Dispatch, and whether the call returned normally or threw is an input
 * (`returnsNormally`). The timer is modelled by the state of the one TimerTask the
 * Aggregator owns.
 */
module Aggregator {
  import opened Text
  import opened Collections
  import Sources
  import ConcurrentUtils

  /** The torrent of Aggregator.kt (name and source only). */
  datatype Torrent = Torrent(name: string, source: string) {

    /** `source.startsWith("magnet", true)`. */
    predicate IsMagnet() {
      StartsWithIgnoreCase(source, "magnet")
    }

    predicate IsTorrent() {
      !IsMagnet()
    }
  }

  /** The `sources` registry, in its order: HorribleSubsRss, GJMRss, AniDexRss. */
  const Registry: seq<Sources.SourceKind> := [Sources.HorribleSubs, Sources.GoodJobMedia, Sources.AniDex]

  /** Every source's getter returned normally. */
  predicate AllFetched(fetched: seq<Option<seq<Torrent>>>) {
    forall i :: 0 <= i < |fetched| ==> fetched[i].Some?
  }

  /**
   * `sources.flatMap { it.torrents }`, given what each source's getter produced (`None`
   * when it threw). Nothing catches such an exception, so one failing source fails the
   * whole gathering.
   */
  function Gather(fetched: seq<Option<seq<Torrent>>>): (r: Option<seq<Torrent>>)
    ensures r.Some? <==> AllFetched(fetched)
    decreases |fetched|
  {
    if |fetched| == 0 then Some([])
    else if fetched[0].None? then None
    else
      var rest := Gather(fetched[1..]);
      if rest.None? then None else Some(fetched[0].value + rest.value)
  }

  /** A source's torrents, or none when its getter threw. */
  function SourceTorrents(o: Option<seq<Torrent>>): seq<Torrent> {
    if o.Some? then o.value else []
  }

  /** When every source succeeds, gathering is `flatMap` over the sources' lists. */
  lemma {:induction false} GatherIsFlatMap(fetched: seq<Option<seq<Torrent>>>)
    requires AllFetched(fetched)
    ensures Gather(fetched) == Some(FlatMap(SourceTorrents, fetched))
    decreases |fetched|
  {
    if |fetched| > 0 {
      GatherIsFlatMap(fetched[1..]);
    }
  }

  /** A torrent is a candidate exactly when some source's list holds it. */
  lemma GatherMembership(fetched: seq<Option<seq<Torrent>>>, t: Torrent)
    requires AllFetched(fetched)
    ensures t in Gather(fetched).value <==> exists i :: 0 <= i < |fetched| && t in fetched[i].value
  {
    GatherIsFlatMap(fetched);
    FlatMapMembership(SourceTorrents, fetched, t);
  }

  /** Where the torrents of source `i` start in the gathered list: the sizes of the sources before it. */
  function Offset(fetched: seq<Option<seq<Torrent>>>, i: nat): nat
    requires AllFetched(fetched) && i <= |fetched|
  {
    if i == 0 then 0 else |fetched[0].value| + Offset(fetched[1..], i - 1)
  }

  /** The gathered list ends right after the last source's block. */
  lemma {:induction false} GatherLength(fetched: seq<Option<seq<Torrent>>>)
    requires AllFetched(fetched)
    ensures |Gather(fetched).value| == Offset(fetched, |fetched|)
    decreases |fetched|
  {
    if |fetched| > 0 {
      GatherLength(fetched[1..]);
    }
  }

  /**
   * The gathered list is the sources' lists one after the other in registry order: the
   * torrents of source `i` form one block, starting after those of the sources before it,
   * and nothing follows the last block.
   */
  lemma {:induction false} GatherInRegistryOrder(fetched: seq<Option<seq<Torrent>>>, i: nat)
    requires AllFetched(fetched) && i < |fetched|
    ensures Gather(fetched).Some?
    ensures |Gather(fetched).value| == Offset(fetched, |fetched|)
    ensures Offset(fetched, i) + |fetched[i].value| <= |Gather(fetched).value|
    ensures Gather(fetched).value[Offset(fetched, i)..Offset(fetched, i) + |fetched[i].value|] == fetched[i].value
    decreases i
  {
    GatherLength(fetched);
    if i > 0 {
      GatherInRegistryOrder(fetched[1..], i - 1);
      var first, rest := fetched[0].value, Gather(fetched[1..]).value;
      var o := Offset(fetched[1..], i - 1);
      assert Gather(fetched).value == first + rest;
      assert (first + rest)[|first| + o..|first| + o + |fetched[i].value|] == rest[o..o + |fetched[i].value|];
    }
  }

  /** `filterNot { history.contains(it.name) }`: the candidates not yet handled, in order. */
  function Pending(candidates: seq<Torrent>, history: seq<string>): seq<Torrent> {
    Filter((t: Torrent) => t.name !in history, candidates)
  }

  /** What a cycle hands one torrent to. */
  datatype Dispatch =
    | Convert(magnet: string)                  // converter.convert(source)
    | Download(url: string, fileName: string)  // downloader.download(URL(source), "$name.torrent")

  /** The branch of the `when` a torrent takes. */
  function DispatchOf(t: Torrent): Dispatch {
    if t.IsMagnet() then Convert(t.source) else Download(t.source, t.name + ".torrent")
  }

  function NameOf(t: Torrent): string {
    t.name
  }

  /** The history after dispatching `pending`: the names of the torrents whose branch returned normally, appended in order. */
  function NextHistory(history: seq<string>, pending: seq<Torrent>, returnsNormally: Torrent -> bool): seq<string> {
    history + Map(NameOf, Filter(returnsNormally, pending))
  }

  /** The state of a `java.util.TimerTask`: new, scheduled, or cancelled. */
  datatype TaskState = Virgin | Scheduled | Cancelled

  /** The lifecycle fields of an Aggregator. */
  datatype Lifecycle = Lifecycle(isRunning: bool, task: TaskState)

  /** The state invariant: the aggregator runs exactly while its task is scheduled. */
  predicate Consistent(s: Lifecycle) {
    s.isRunning <==> s.task == Scheduled
  }

  const LongMax: int := 0x7FFF_FFFF_FFFF_FFFF
  const LongMin: int := -0x8000_0000_0000_0000

  /**
   * `TimeUnit.MINUTES.toMillis(d)`: the product with 60000, saturated to the Long range
   * when it would overflow. The period is positive exactly when the interval is.
   */
  function MinutesToMillis(d: int): (r: int)
    ensures r > 0 <==> d > 0
    ensures LongMin <= d <= LongMax ==> LongMin <= r <= LongMax
    ensures r != d * 60000 ==> r == (if d > 0 then LongMax else LongMin)
    ensures -(LongMax / 60000) <= d <= LongMax / 60000 ==> r == d * 60000
  {
    if d > LongMax / 60000 then LongMax
    else if d < -(LongMax / 60000) then LongMin
    else d * 60000
  }

  /**
   * `start()` as written, with the timer period in milliseconds: it schedules its one
   * `task` when not running. `Timer.schedule` first throws IllegalArgumentException for a
   * period that is not positive, then IllegalStateException for a task that is not new,
   * so the second component, "returned normally", is false in both cases and nothing changes.
   */
  function StartStep(s: Lifecycle, period: int): (Lifecycle, bool) {
    if s.isRunning then (s, true)
    else if period <= 0 then (s, false)
    else if s.task != Virgin then (s, false)
    else (Lifecycle(true, Scheduled), true)
  }

  /** `stop()`: cancels the task when running. */
  function StopStep(s: Lifecycle): Lifecycle {
    if s.isRunning then Lifecycle(false, Cancelled) else s
  }

  /** `start()` as evidently intended: a new task for every start, so starting always succeeds. */
  function StartWithFreshTask(s: Lifecycle, period: int): (Lifecycle, bool) {
    if s.isRunning then (s, true)
    else if period <= 0 then (s, false)
    else (Lifecycle(true, Scheduled), true)
  }

  datatype Call = StartCall | StopCall

  /** The lifecycle after a series of calls, with `start()` as written; a throwing start changes nothing. */
  function Replay(s: Lifecycle, period: int, calls: seq<Call>): Lifecycle
    decreases |calls|
  {
    if |calls| == 0 then s
    else
      var before := Replay(s, period, calls[..|calls| - 1]);
      if calls[|calls| - 1] == StartCall then StartStep(before, period).0 else StopStep(before)
  }

  /** The lifecycle after a series of calls, with the corrected start. */
  function ReplayWithFreshTask(s: Lifecycle, period: int, calls: seq<Call>): Lifecycle
    decreases |calls|
  {
    if |calls| == 0 then s
    else
      var before := ReplayWithFreshTask(s, period, calls[..|calls| - 1]);
      if calls[|calls| - 1] == StartCall then StartWithFreshTask(before, period).0 else StopStep(before)
  }

  class Aggregator {
    const scanInterval: int
    /** Names of the torrents handled so far. */
    var history: seq<string>
    var isRunning: bool
    /** The one TimerTask this aggregator schedules and cancels. */
    var task: TaskState
    /** Every hand-over to the converter or the downloader, in order. */
    var dispatched: seq<Dispatch>

    ghost predicate Valid()
      reads this
    {
      Consistent(Lifecycle(isRunning, task))
    }

    constructor (scanInterval: int)
      ensures Valid()
      ensures this.scanInterval == scanInterval
      ensures history == [] && dispatched == [] && !isRunning && task == Virgin
    {
      this.scanInterval := scanInterval;
      history := [];
      isRunning := false;
      task := Virgin;
      dispatched := [];
    }

    /**
     * `task.run()`: one aggregation cycle. `fetched[i]` is what the getter of the i-th
     * registered source produced. When every source succeeds, each pending torrent is
     * dispatched once and its name is recorded if its branch returned normally.
     */
    method Run(fetched: seq<Option<seq<Torrent>>>, returnsNormally: Torrent -> bool) returns (completed: bool)
      requires |fetched| == |Registry|
      modifies this`history, this`dispatched
      ensures completed <==> AllFetched(fetched)
      ensures !completed ==> history == old(history) && dispatched == old(dispatched)
      ensures completed ==>
        var pending := Pending(Gather(fetched).value, old(history));
        && dispatched == old(dispatched) + Map(DispatchOf, pending)
        && history == NextHistory(old(history), pending, returnsNormally)
    {
      var gathered := Gather(fetched);
      if gathered.None? {
        return false;
      }
      var pending := Pending(gathered.value, history);
      DispatchAll(pending, returnsNormally);
      completed := true;
    }

    /** The `parallelForEach` of a cycle: hands over every pending torrent and records those whose branch returned normally. */
    method DispatchAll(pending: seq<Torrent>, returnsNormally: Torrent -> bool)
      modifies this`history, this`dispatched
      ensures dispatched == old(dispatched) + Map(DispatchOf, pending)
      ensures history == NextHistory(old(history), pending, returnsNormally)
    {
      ghost var log0, names0 := dispatched, history;
      for i := 0 to |pending|
        invariant dispatched == log0 + Map(DispatchOf, pending[..i])
        invariant history == names0 + Map(NameOf, Filter(returnsNormally, pending[..i]))
      {
        var t := pending[i];
        CycleStep(pending, i, returnsNormally);
        Hand(t);
        if returnsNormally(t) {
          history := history + [t.name];
        }
      }
      assert pending[..|pending|] == pending;
    }

    /** The `when` of one dispatch: a magnet goes to the converter, any other torrent to the downloader. */
    method Hand(t: Torrent)
      modifies this`dispatched
      ensures dispatched == old(dispatched) + [DispatchOf(t)]
    {
      if t.IsMagnet() {
        dispatched := dispatched + [Convert(t.source)];
      } else if t.IsTorrent() {
        dispatched := dispatched + [Download(t.source, t.name + ".torrent")];
      }
    }

    /**
     * `start()`: schedules the task every `scanInterval` minutes if not running; `ok` is
     * false when the timer refuses the period or the task.
     */
    method Start() returns (ok: bool)
      requires Valid()
      modifies this`isRunning, this`task
      ensures Valid()
      ensures (Lifecycle(isRunning, task), ok) == StartStep(Lifecycle(old(isRunning), old(task)), MinutesToMillis(scanInterval))
    {
      ok := true;
      if !isRunning {
        var period := MinutesToMillis(scanInterval);
        if period <= 0 {
          return false;
        }
        if task != Virgin {
          return false;
        }
        task := Scheduled;
        isRunning := true;
      }
    }

    /** `stop()`: cancels the task if running. */
    method Stop()
      requires Valid()
      modifies this`isRunning, this`task
      ensures Valid()
      ensures Lifecycle(isRunning, task) == StopStep(Lifecycle(old(isRunning), old(task)))
    {
      if isRunning {
        task := Cancelled;
        isRunning := false;
      }
    }
  }

  /** How the dispatch log and the history of a cycle grow when one more pending torrent is handled. */
  lemma CycleStep(pending: seq<Torrent>, i: nat, returnsNormally: Torrent -> bool)
    requires i < |pending|
    ensures Map(DispatchOf, pending[..i + 1]) == Map(DispatchOf, pending[..i]) + [DispatchOf(pending[i])]
    ensures Map(NameOf, Filter(returnsNormally, pending[..i + 1]))
         == Map(NameOf, Filter(returnsNormally, pending[..i])) + (if returnsNormally(pending[i]) then [pending[i].name] else [])
  {
    var t := pending[i];
    assert pending[..i + 1] == pending[..i] + [t];
    FilterAppend(returnsNormally, pending[..i], [t]);
    assert Filter(returnsNormally, [t]) == if returnsNormally(t) then [t] else [];
  }

  /**
   * The cycle's hand-overs, in candidate order, are what `parallelForEach` performs when the
   * pool runs the jobs in input order; under any other completion order they are the same
   * hand-overs, rearranged.
   */
  lemma DispatchesMatchForEach(pending: seq<Torrent>, schedule: seq<nat>)
    requires ConcurrentUtils.IsSchedule(schedule, |pending|)
    ensures ConcurrentUtils.Below(ConcurrentUtils.Indices(|pending|), |pending|)
    ensures ConcurrentUtils.Pick(Map(DispatchOf, pending), ConcurrentUtils.Indices(|pending|)) == Map(DispatchOf, pending)
    ensures ConcurrentUtils.Below(schedule, |pending|)
    ensures multiset(ConcurrentUtils.Pick(Map(DispatchOf, pending), schedule)) == multiset(Map(DispatchOf, pending))
  {
    var log := Map(DispatchOf, pending);
    ConcurrentUtils.ScheduledResultsArePermutation(log, schedule);
    ConcurrentUtils.PickIndex(log, ConcurrentUtils.Indices(|pending|));
  }

  /**
   * The cycle's `parallelForEach` itself, with the pool completing the jobs in the order
   * `schedule` gives: it performs the hand-overs that `Aggregator.DispatchAll` appends to
   * its log, in completion order, and in that very order when the jobs complete in input order.
   */
  method ForEachDispatch(pending: seq<Torrent>, schedule: seq<nat>, effects: ConcurrentUtils.Effects<Dispatch>)
    requires ConcurrentUtils.IsSchedule(schedule, |pending|)
    modifies effects
    ensures |effects.performed| == |old(effects.performed)| + |pending|
    ensures effects.performed[..|old(effects.performed)|] == old(effects.performed)
    ensures multiset(effects.performed[|old(effects.performed)|..]) == multiset(Map(DispatchOf, pending))
    ensures schedule == ConcurrentUtils.Indices(|pending|) ==>
      effects.performed == old(effects.performed) + Map(DispatchOf, pending)
  {
    ghost var before := effects.performed;
    ConcurrentUtils.ParallelForEach(pending, DispatchOf, schedule, effects);
    DispatchesMatchForEach(pending, schedule);
    assert effects.performed[|before|..] == ConcurrentUtils.Pick(Map(DispatchOf, pending), schedule);
  }

  /** Every torrent takes exactly one branch: magnets go to the converter, all others to the downloader as `name.torrent`. */
  lemma DispatchRoutes(t: Torrent)
    ensures t.IsMagnet() != t.IsTorrent()
    ensures DispatchOf(t).Convert? <==> t.IsMagnet()
    ensures DispatchOf(t).Convert? ==> DispatchOf(t).magnet == t.source
    ensures DispatchOf(t).Download? ==> DispatchOf(t) == Download(t.source, t.name + ".torrent")
  {
  }

  /** Over a whole cycle, the converter receives the magnets and the downloader the others, together all pending torrents. */
  lemma CycleSplitsByKind(pending: seq<Torrent>)
    ensures |Filter((t: Torrent) => t.IsMagnet(), pending)| + |Filter((t: Torrent) => !t.IsMagnet(), pending)| == |pending|
    ensures |Map(DispatchOf, pending)| == |pending|
    ensures forall i :: 0 <= i < |pending| ==> (Map(DispatchOf, pending)[i].Convert? <==> pending[i].IsMagnet())
  {
    FilterPartition((t: Torrent) => t.IsMagnet(), (t: Torrent) => !t.IsMagnet(), pending);
  }

  /** A candidate is dispatched exactly when its name is not in the history as it stood before the cycle. */
  lemma PendingIff(candidates: seq<Torrent>, history: seq<string>, t: Torrent)
    ensures t in Pending(candidates, history) <==> t in candidates && t.name !in history
  {
    FilterMembership((u: Torrent) => u.name !in history, candidates, t);
  }

  /** The history does not deduplicate within a cycle: when every name is new, every candidate is dispatched, same-named ones included. */
  lemma NewCandidatesAllDispatched(candidates: seq<Torrent>, history: seq<string>)
    requires forall i :: 0 <= i < |candidates| ==> candidates[i].name !in history
    ensures Pending(candidates, history) == candidates
  {
    FilterKeepsAll((u: Torrent) => u.name !in history, candidates);
  }

  /** A concrete instance: two new torrents of the same name in one cycle are both dispatched. */
  lemma SameNameTwiceDispatchedTwice(a: Torrent, b: Torrent, history: seq<string>)
    requires a.name == b.name && a.name !in history
    ensures Pending([a, b], history) == [a, b]
  {
    NewCandidatesAllDispatched([a, b], history);
  }

  /**
   * After a cycle the old history is a prefix of the new one, every dispatched torrent whose
   * branch returned normally has its name recorded, and every new entry is such a name.
   */
  lemma NextHistoryRecords(history: seq<string>, pending: seq<Torrent>, returnsNormally: Torrent -> bool)
    ensures history <= NextHistory(history, pending, returnsNormally)
    ensures forall t :: t in pending && returnsNormally(t) ==> t.name in NextHistory(history, pending, returnsNormally)
    ensures forall n :: n in NextHistory(history, pending, returnsNormally) ==>
      n in history || exists t :: t in pending && returnsNormally(t) && t.name == n
  {
    var done := Filter(returnsNormally, pending);
    var names := Map(NameOf, done);
    assert NextHistory(history, pending, returnsNormally) == history + names;
    forall t | t in pending && returnsNormally(t) ensures t.name in history + names {
      FilterMembership(returnsNormally, pending, t);
      var i :| 0 <= i < |done| && done[i] == t;
      assert names[i] == t.name;
    }
    forall n | n in history + names && n !in history
      ensures exists t :: t in pending && returnsNormally(t) && t.name == n
    {
      var i :| 0 <= i < |names| && names[i] == n;
      FilterMembership(returnsNormally, pending, done[i]);
    }
  }

  /** One timer tick's inputs: the gathered candidates and which dispatches return normally. */
  datatype Round = Round(candidates: seq<Torrent>, returnsNormally: Torrent -> bool)

  /** The history after a series of cycles. */
  function HistoryAfter(history: seq<string>, rounds: seq<Round>): seq<string>
    decreases |rounds|
  {
    if |rounds| == 0 then history
    else
      var before := HistoryAfter(history, rounds[..|rounds| - 1]);
      var last := rounds[|rounds| - 1];
      NextHistory(before, Pending(last.candidates, before), last.returnsNormally)
  }

  /** The history only grows by appending: the history after fewer rounds is a prefix. */
  lemma {:induction false} HistoryOnlyGrows(history: seq<string>, rounds: seq<Round>, j: nat)
    requires j <= |rounds|
    ensures HistoryAfter(history, rounds[..j]) <= HistoryAfter(history, rounds)
    decreases |rounds|
  {
    if j < |rounds| {
      var init := rounds[..|rounds| - 1];
      assert rounds[..j] == init[..j];
      HistoryOnlyGrows(history, init, j);
      var last := rounds[|rounds| - 1];
      var before := HistoryAfter(history, init);
      NextHistoryRecords(before, Pending(last.candidates, before), last.returnsNormally);
    } else {
      assert rounds[..j] == rounds;
    }
  }

  /** A name in the history is never dispatched again, in any later cycle. */
  lemma NeverRedispatched(history: seq<string>, rounds: seq<Round>, k: nat, u: Torrent)
    requires k < |rounds|
    requires u in Pending(rounds[k].candidates, HistoryAfter(history, rounds[..k]))
    ensures u.name !in history
  {
    HistoryOnlyGrows(history, rounds[..k], 0);
    assert rounds[..k][..0] == [];
    PendingIff(rounds[k].candidates, HistoryAfter(history, rounds[..k]), u);
  }

  /** A torrent handled successfully in cycle `j` has its name skipped by every later cycle `k`. */
  lemma HandledNeverRedispatched(history: seq<string>, rounds: seq<Round>, j: nat, k: nat, t: Torrent, u: Torrent)
    requires j < k < |rounds|
    requires t in Pending(rounds[j].candidates, HistoryAfter(history, rounds[..j])) && rounds[j].returnsNormally(t)
    requires u in Pending(rounds[k].candidates, HistoryAfter(history, rounds[..k]))
    ensures u.name != t.name
  {
    var hj := HistoryAfter(history, rounds[..j]);
    NextHistoryRecords(hj, Pending(rounds[j].candidates, hj), rounds[j].returnsNormally);
    assert rounds[..j + 1][..j] == rounds[..j];
    assert HistoryAfter(history, rounds[..j + 1]) == NextHistory(hj, Pending(rounds[j].candidates, hj), rounds[j].returnsNormally);
    assert rounds[..k][..j + 1] == rounds[..j + 1];
    HistoryOnlyGrows(history, rounds[..k], j + 1);
    PendingIff(rounds[k].candidates, HistoryAfter(history, rounds[..k]), u);
  }

  /** `start()` from idle with a new task and a positive period schedules it; while running it changes nothing. */
  lemma StartTransitions(s: Lifecycle, period: int)
    requires Consistent(s)
    ensures Consistent(StartStep(s, period).0)
    ensures !s.isRunning && s.task == Virgin && period > 0 ==> StartStep(s, period) == (Lifecycle(true, Scheduled), true)
    ensures !s.isRunning && period <= 0 ==> StartStep(s, period) == (s, false)
    ensures s.isRunning ==> StartStep(s, period) == (s, true)
  {
  }

  /** `stop()` while running cancels the task; when idle it changes nothing. */
  lemma StopTransitions(s: Lifecycle)
    requires Consistent(s)
    ensures Consistent(StopStep(s))
    ensures s.isRunning ==> StopStep(s) == Lifecycle(false, Cancelled)
    ensures !s.isRunning ==> StopStep(s) == s
  {
  }

  /** As written, start, stop, start fails: the second start throws and the aggregator stays stopped. */
  lemma RestartAfterStopThrows(period: int)
    requires period > 0
    ensures StartStep(Lifecycle(false, Virgin), period) == (Lifecycle(true, Scheduled), true)
    ensures var s := StopStep(StartStep(Lifecycle(false, Virgin), period).0);
      StartStep(s, period) == (Lifecycle(false, Cancelled), false)
  {
  }

  /** As written, once the task is cancelled no series of calls makes the aggregator run again. */
  lemma {:induction false} StoppedForever(s: Lifecycle, period: int, calls: seq<Call>)
    requires s.task == Cancelled && !s.isRunning
    ensures Replay(s, period, calls) == s
    decreases |calls|
  {
    if |calls| > 0 {
      StoppedForever(s, period, calls[..|calls| - 1]);
    }
  }

  /** A scan interval that is not positive gives a period the timer refuses, so an idle aggregator never starts. */
  lemma {:induction false} NonPositiveIntervalNeverRuns(s: Lifecycle, scanInterval: int, calls: seq<Call>)
    requires !s.isRunning && scanInterval <= 0
    ensures Replay(s, MinutesToMillis(scanInterval), calls) == s
    ensures ReplayWithFreshTask(s, MinutesToMillis(scanInterval), calls) == s
    decreases |calls|
  {
    if |calls| > 0 {
      NonPositiveIntervalNeverRuns(s, scanInterval, calls[..|calls| - 1]);
    }
  }

  /**
   * With a new task per start and a positive period, a start after any series of calls
   * (stops included) leaves the aggregator running.
   */
  lemma {:induction false} FreshTaskAlwaysRestarts(s: Lifecycle, period: int, calls: seq<Call>)
    requires Consistent(s) && period > 0
    ensures Consistent(ReplayWithFreshTask(s, period, calls))
    ensures ReplayWithFreshTask(s, period, calls + [StartCall]).isRunning
    ensures StartWithFreshTask(ReplayWithFreshTask(s, period, calls), period).1
    decreases |calls|
  {
    if |calls| > 0 {
      FreshTaskAlwaysRestarts(s, period, calls[..|calls| - 1]);
    }
    assert (calls + [StartCall])[..|calls|] == calls;
  }
}
