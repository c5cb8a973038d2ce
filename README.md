# Aggregator: a Dafny model of the polling and dispatch core

The aggregator polls several anime RSS feeds on a timer. Each entry is a torrent with a name,
a source reference and a publication instant. On every tick, the aggregator:

- gathers the torrents of every registered source (each source reads its feed once and then serves that cached feed, see Findings);
- skips those whose name it has already handled;
- hands each remaining magnet link to a magnet-to-torrent converter, and every other link to a direct downloader;
- records the name of each torrent it handled.

This project models that core and proves its behaviour:

- `text.dfy` (module `Text`): the Kotlin string operations the core uses.
  - `startsWith(prefix, ignoreCase = true)`.
  - `String.replace`, which scans left to right and never overlaps two replacements.
  - The decimal rendering of a `Long`, with its parsing partner.
  - `Long.div`, which truncates toward zero.
- `collections.dfy` (module `Collections`): `map`, `flatMap` and `filter` as sequence functions, and their lemmas.
- `torrent_utils.dfy` (module `TorrentUtils`): the three-field `Torrent` of TorrentUtils.kt.
  - The magnet/torrent kind test.
  - The sanitised output file name.
- `concurrent_utils.dfy` (module `ConcurrentUtils`): the fan-out/fan-in helpers.
  - Each helper launches one job per element.
  - The pool completes the jobs in an order given by `schedule`, which is any permutation of the job indices.
  - The helper then joins the jobs in input order and appends their results to the caller's list.
- `sources.dfy` (module `Sources`): feed entries and the torrents each source kind makes of them.
  - `RssSource` is a class whose `lastRawFeed` cache is filled lazily by the `torrents` getter and replaced by `refresh`.
  - DeadFishRss rewrites each link into a download URL.
  - Over a series of calls, a source's getter keeps returning its first successfully read feed, because nothing calls `refresh`.
- `aggregator.dfy` (module `Aggregator`): the two-field `Torrent` of Aggregator.kt and the source registry.
  - The `Aggregator` class holds the `history` list, `isRunning`, the state of its one `TimerTask` and a log of every hand-over (`Dispatch`).
  - Its methods are `Run` (one cycle), `Start` and `Stop`.
  - Pure lemmas cover dedup, routing, history growth over any number of cycles, and the start/stop lifecycle.

The repository declares `Torrent` twice: in TorrentUtils.kt with a publication date, and in Aggregator.kt without one. The two are kept apart, each in the module of its file. Sources produce the three-field torrent. The cycle works on the two-field one and takes each registered source's result as an input.

Some behaviours of the code are worth stating outright:

- Dedup is by name only, against an in-memory list of names (Aggregator.kt:58, 73, 86). It survives neither a restart of the process nor a file already present in the output directory.
- Nothing catches a failing source. A `torrents` getter that throws aborts the whole cycle before anything is dispatched.
  The exception also leaves `TimerTask.run()` and ends `java.util.Timer`'s thread, so no later tick runs while `isRunning` stays true.
  The model returns `completed == false` in that case and leaves the history and the dispatch log unchanged.
- A source caches a read feed before mapping its items. When an item lacks its title, link or date, the map throws, the feed stays cached, and that source's getter throws on every later call (`Sources.MalformedItemPoisonsCache`). In the program the first such throw already ends the timer's thread, so polling stops for good while `isRunning` stays true.
- A dispatch that throws does not stop the cycle, because `parallelForEach` joins launched jobs without rethrowing. Its name is not recorded, so the next tick tries it again.
- Restarting after `stop()` fails, and so does starting with a scan interval that is not positive (see Findings and `Aggregator.NonPositiveIntervalNeverRuns`).
- Aggregator.kt hands the downloader `name + ".torrent"` without sanitising the name. TorrentUtils.kt's `fileName` is the sanitised form.
  The model keeps what Aggregator.kt passes.

## Model

| member | source | states |
|---|---|---|
| `TorrentUtils.Torrent.IsMagnet` | src/main/kotlin/com/waicool20/aggregator/TorrentUtils.kt:37 | computes `source.startsWith("magnet", true)` with `Text.StartsWithIgnoreCase`; `TorrentUtils.IsMagnetIffMagnetPrefix` states what it accepts |
| `TorrentUtils.Torrent.IsTorrent` | src/main/kotlin/com/waicool20/aggregator/TorrentUtils.kt:38 | computes the negation of `IsMagnet`; `TorrentUtils.KindsPartition` states that the two kinds partition all torrents |
| `TorrentUtils.Sanitize` | src/main/kotlin/com/waicool20/aggregator/TorrentUtils.kt:40-41 | computes the name with every `/` and then every `\` replaced by `-`, through `Text.ReplaceAll`; `TorrentUtils.SanitizePointwise`, `TorrentUtils.SanitizeIdempotent` and `TorrentUtils.SameFileNameIff` state its properties |
| `TorrentUtils.Torrent.FileName` | src/main/kotlin/com/waicool20/aggregator/TorrentUtils.kt:39-42 | computes the sanitised name followed by `.torrent`; `TorrentUtils.FileNameShape`, `TorrentUtils.FileNameHasNoSeparator`, `TorrentUtils.SameFileNameIff` and `TorrentUtils.FileNameCollision` state its properties |
| `TorrentUtils.IsMagnetIffMagnetPrefix` | src/main/kotlin/com/waicool20/aggregator/TorrentUtils.kt:37 | a torrent is a magnet exactly when its source has at least six characters and they read `magnet` ignoring ASCII case |
| `TorrentUtils.KindsPartition` | src/main/kotlin/com/waicool20/aggregator/TorrentUtils.kt:37-38 | every torrent is exactly one of magnet and torrent |
| `TorrentUtils.SanitizePointwise` | src/main/kotlin/com/waicool20/aggregator/TorrentUtils.kt:39-41 | the two replacements keep the length; `/` and `\` become `-`; every other character is unchanged |
| `TorrentUtils.FileNameHasNoSeparator` | src/main/kotlin/com/waicool20/aggregator/TorrentUtils.kt:39-42 | no file name contains `/` or `\`, so none leaves the output directory |
| `TorrentUtils.FileNameShape` | src/main/kotlin/com/waicool20/aggregator/TorrentUtils.kt:39-42 | the file name is `|name| + 8` long, ends in `.torrent`, and keeps each name character in place with separators turned into `-` |
| `TorrentUtils.SanitizeIdempotent` | src/main/kotlin/com/waicool20/aggregator/TorrentUtils.kt:40-41 | a name without separators is unchanged, so sanitising twice equals sanitising once |
| `TorrentUtils.SameFileNameIff` | src/main/kotlin/com/waicool20/aggregator/TorrentUtils.kt:40-41 | two torrents share a file name exactly when their names have equal length and differ only by `/`, `\` and `-` in the same places |
| `TorrentUtils.FileNameCollision` | src/main/kotlin/com/waicool20/aggregator/TorrentUtils.kt:39-42 | `a/b`, `a\b` and `a-b` all map to `a-b.torrent`, so sanitising is not injective |
| `Text.StartsWithIgnoreCase` | src/main/kotlin/com/waicool20/aggregator/TorrentUtils.kt:37 | computes `startsWith(prefix, ignoreCase = true)`: the string is at least as long as the prefix, and each prefix character matches the string's character equal or equal once upper-cased; `Text.CharEqualsIgnoreCaseIsLowerEquality` and `TorrentUtils.IsMagnetIffMagnetPrefix` state what it accepts |
| `Text.ReplaceAll` | src/main/kotlin/com/waicool20/aggregator/TorrentUtils.kt:40-41 | computes Kotlin's `replace` (also used at Sources.kt:65): a left-to-right scan that replaces each occurrence and resumes after it; `Text.ReplaceCharPointwise`, `Text.ReplaceAbsent` and `Text.ReplaceSplit` state its properties |
| `Text.CharEqualsIgnoreCaseIsLowerEquality` | src/main/kotlin/com/waicool20/aggregator/TorrentUtils.kt:37 | two characters match ignoring case exactly when their lower-case forms are equal |
| `Text.ReplaceCharPointwise` | src/main/kotlin/com/waicool20/aggregator/TorrentUtils.kt:40-41 | replacing a one-character string by another maps the string position by position |
| `Text.ReplaceAbsent` | src/main/kotlin/com/waicool20/aggregator/Sources.kt:65 | `replace` with a pattern that does not occur returns the string unchanged |
| `Text.ReplaceSplit` | src/main/kotlin/com/waicool20/aggregator/Sources.kt:65 | when no occurrence starts in `a`, `replace` on `a + b` is `replace` on `a` followed by `replace` on `b` |
| `Text.LongToString` | src/main/kotlin/com/waicool20/aggregator/Sources.kt:66 | a Long renders as digits, with a leading `-` when negative |
| `Text.LongToStringRoundTrip` | src/main/kotlin/com/waicool20/aggregator/Sources.kt:64-66 | parsing the rendered Long gives the number back |
| `Text.TruncDiv` | src/main/kotlin/com/waicool20/aggregator/Sources.kt:64 | `Long.div` truncates toward zero: the remainder has the dividend's sign and is smaller than the divisor |
| `Collections.FlatMapAppend` | src/main/kotlin/com/waicool20/aggregator/ConcurrentUtils.kt:63-65 | flattening a concatenation is the concatenation of the flattenings, so results keep input order |
| `Collections.FlatMapMembership` | src/main/kotlin/com/waicool20/aggregator/Aggregator.kt:73 | an item is in a flattened list exactly when some element's list contains it |
| `Collections.MapIsFlatMapOfSingletons` | src/main/kotlin/com/waicool20/aggregator/ConcurrentUtils.kt:39-66 | mapping is flat-mapping with one-element results |
| `ConcurrentUtils.Launch` | src/main/kotlin/com/waicool20/aggregator/ConcurrentUtils.kt:40-45 | the launch loop creates exactly one job per element, none of them finished yet |
| `ConcurrentUtils.RunPool` | src/main/kotlin/com/waicool20/aggregator/ConcurrentUtils.kt:41-45 | in any completion order, each job ends up holding its own element's result; the completion trace follows the schedule |
| `ConcurrentUtils.ScheduledResultsArePermutation` | src/main/kotlin/com/waicool20/aggregator/ConcurrentUtils.kt:23-33 | whatever the completion order, each element's action result happens exactly once (the trace is a permutation) |
| `ConcurrentUtils.ParallelForEach` | src/main/kotlin/com/waicool20/aggregator/ConcurrentUtils.kt:23-33 | `action` runs once per element, in the pool's order, and all runs are done on return |
| `ConcurrentUtils.ParallelMapTo` | src/main/kotlin/com/waicool20/aggregator/ConcurrentUtils.kt:39-50 | returns the same destination, whose old contents stay a prefix, followed by `transform` of each input in input order, whatever the completion order |
| `ConcurrentUtils.ParallelMap` | src/main/kotlin/com/waicool20/aggregator/ConcurrentUtils.kt:35-37 | returns a fresh list with exactly one result per input, in order |
| `ConcurrentUtils.ParallelFlatMapTo` | src/main/kotlin/com/waicool20/aggregator/ConcurrentUtils.kt:56-67 | returns the same destination with the concatenated results appended in input order |
| `ConcurrentUtils.ParallelFlatMap` | src/main/kotlin/com/waicool20/aggregator/ConcurrentUtils.kt:52-54 | returns a fresh list holding the concatenated results in input order |
| `ConcurrentUtils.ParallelOnEach` | src/main/kotlin/com/waicool20/aggregator/ConcurrentUtils.kt:69-80 | returns its receiver unchanged after running `action` once per element |
| `Sources.EntryTorrent` | src/main/kotlin/com/waicool20/aggregator/Sources.kt:51 | computes the plain sources' `Torrent(title, link, publishedDate)` for one entry; `Sources.RssTorrentsPerEntry` states it per entry |
| `Sources.DeadFishHash` | src/main/kotlin/com/waicool20/aggregator/Sources.kt:65 | computes the link with the show-page prefix and then `.html` removed by `Text.ReplaceAll`; `Sources.DeadFishHashOfShowLink` states that it is the page's hash |
| `Sources.DeadFishLink` | src/main/kotlin/com/waicool20/aggregator/Sources.kt:64-66 | computes the download URL: fixed prefix, publication seconds by `Text.TruncDiv` and `Text.LongToString`, `&hash=`, the hash; `Sources.DeadFishLinkOfShowLink` states its shape and the parse-back of the seconds |
| `Sources.DeadFishTorrent` | src/main/kotlin/com/waicool20/aggregator/Sources.kt:63-66 | computes DeadFishRss's torrent for one entry: title, download URL, publication instant; `Sources.DeadFishTorrentsPerEntry` states it per entry |
| `Sources.EntriesTorrents` | src/main/kotlin/com/waicool20/aggregator/Sources.kt:51 | computes each source kind's `map` over a feed's entries, DeadFishRss with its own lambda (Sources.kt:63-66); `Sources.RssTorrentsPerEntry` and `Sources.DeadFishTorrentsPerEntry` state its contents |
| `Sources.FeedTorrents` | src/main/kotlin/com/waicool20/aggregator/Sources.kt:51 | computes the getter's `map` over a feed, failing on an item without title, link or date; `Sources.FeedTorrentsIff` states when it succeeds and what it returns |
| `Sources.GetterStep` | src/main/kotlin/com/waicool20/aggregator/Sources.kt:50-51 | computes one getter call: the cached feed if any, else the read feed cached before the `map`; `Sources.RssSource.Torrents` is proved against it, and `Sources.CachedFeedSticks` and `Sources.MalformedItemPoisonsCache` state its effect over later calls |
| `Sources.GetterResults` | src/main/kotlin/com/waicool20/aggregator/Sources.kt:48-52 | computes the getter's results over a series of calls, one result per call; `Sources.FirstSuccessfulReadSticks`, `Sources.CachedFeedSticks`, `Sources.MalformedItemPoisonsCache` and `Sources.LaterFeedIgnored` state what they are |
| `Sources.RefreshThenGetStep` | src/main/kotlin/com/waicool20/aggregator/Sources.kt:44-52 | computes `refresh()` followed by the getter: a successful read replaces the cache and is mapped, a failed one throws and keeps the cache; `Sources.RssSource.RefreshThenGet` is proved against it |
| `Sources.RefreshingResults` | src/main/kotlin/com/waicool20/aggregator/Sources.kt:44-52 | computes the results of a series of refresh-then-get calls; `Sources.RefreshedTicksFollowFeed` states that each follows its own call's feed |
| `Sources.RssSource.constructor` | src/main/kotlin/com/waicool20/aggregator/Sources.kt:32-35 | a new source has no cached feed and has read nothing |
| `Sources.RssSource.Refresh` | src/main/kotlin/com/waicool20/aggregator/Sources.kt:44-46 | reads the feed once and replaces the cache with it; a failed read throws and leaves the cache alone |
| `Sources.RssSource.Torrents` | src/main/kotlin/com/waicool20/aggregator/Sources.kt:48-52 | uses the cached feed without reading, or reads once and caches the result before mapping it; the result is the mapped items of the cached feed, or an exception when an item lacks a title, link or date (the feed stays cached) |
| `Sources.FeedTorrentsIff` | src/main/kotlin/com/waicool20/aggregator/Sources.kt:51 | a feed's items map to torrents exactly when every item has its title, link and date, and then there is one torrent per item |
| `Sources.CachedFeedSticks` | src/main/kotlin/com/waicool20/aggregator/Sources.kt:50 | a source with a cached feed gives the same result on every later call, whatever a read would produce: that feed's torrents, or the same exception |
| `Sources.FirstSuccessfulReadSticks` | src/main/kotlin/com/waicool20/aggregator/Sources.kt:48-52 | over a series of calls of the getter, it throws until the first successful read, and on every later call gives what that first feed maps to |
| `Sources.MalformedItemPoisonsCache` | src/main/kotlin/com/waicool20/aggregator/Sources.kt:50-51 | a read feed with an item lacking a title, link or date is cached before the map throws, so the getter throws on that call and on every later call |
| `Sources.LaterFeedIgnored` | src/main/kotlin/com/waicool20/aggregator/Sources.kt:50 | a feed that is empty at the first call and gains an entry later yields no torrent on either call |
| `Sources.RssSource.RefreshThenGet` | src/main/kotlin/com/waicool20/aggregator/Sources.kt:44-52 | `refresh()` then the getter: reads once, and the result comes from this read, or the call throws and keeps the old cache |
| `Sources.RefreshedTicksFollowFeed` | src/main/kotlin/com/waicool20/aggregator/Sources.kt:44-52 | with a refresh before every read, each call's result is what that call's feed maps to |
| `Sources.RssTorrentsPerEntry` | src/main/kotlin/com/waicool20/aggregator/Sources.kt:51 | one torrent per complete entry, in entry order, with name = title, source = link and date = publication |
| `Sources.DeadFishTorrentsPerEntry` | src/main/kotlin/com/waicool20/aggregator/Sources.kt:63-67 | DeadFish never drops a complete entry: one torrent per entry, in order, named by the title, its source a download URL |
| `Sources.DeadFishHashOfShowLink` | src/main/kotlin/com/waicool20/aggregator/Sources.kt:65 | for the link `https://www.acgnx.se/show-` + H + `.html`, with H containing neither piece, the hash is H |
| `Sources.DeadFishLinkOfShowLink` | src/main/kotlin/com/waicool20/aggregator/Sources.kt:64-66 | the download URL is the fixed prefix, then the publication seconds (division by 1000 truncated toward zero), then `&hash=` and H; the seconds parse back, and they are within one second of the instant, on the side of zero |
| `Aggregator.Gather` | src/main/kotlin/com/waicool20/aggregator/Aggregator.kt:73 | gathering the sources' torrents succeeds exactly when every source's getter returns normally |
| `Aggregator.GatherInRegistryOrder` | src/main/kotlin/com/waicool20/aggregator/Aggregator.kt:41-45 | the candidate list holds the sources' lists one after another, in registry order, each source's list as one block at its offset, and ends after the last block |
| `Aggregator.GatherLength` | src/main/kotlin/com/waicool20/aggregator/Aggregator.kt:73 | the candidate list is exactly as long as the sources' lists together |
| `Aggregator.GatherIsFlatMap` | src/main/kotlin/com/waicool20/aggregator/Aggregator.kt:73 | when every source succeeds, gathering is `flatMap` over the sources' lists |
| `Aggregator.GatherMembership` | src/main/kotlin/com/waicool20/aggregator/Aggregator.kt:73 | a torrent is a candidate exactly when some source's list holds it |
| `Aggregator.Torrent.IsMagnet` | src/main/kotlin/com/waicool20/aggregator/Aggregator.kt:37 | computes `source.startsWith("magnet", true)` for the two-field torrent; `Aggregator.DispatchRoutes` states the branch it selects |
| `Aggregator.Torrent.IsTorrent` | src/main/kotlin/com/waicool20/aggregator/Aggregator.kt:38 | computes the negation of `IsMagnet`; `Aggregator.DispatchRoutes` states that exactly one of the two holds |
| `Aggregator.Pending` | src/main/kotlin/com/waicool20/aggregator/Aggregator.kt:73 | computes `filterNot { history.contains(it.name) }` over the candidates; `Aggregator.PendingIff`, `Aggregator.NewCandidatesAllDispatched`, `Aggregator.SameNameTwiceDispatchedTwice` and `Aggregator.NeverRedispatched` state its properties |
| `Aggregator.DispatchOf` | src/main/kotlin/com/waicool20/aggregator/Aggregator.kt:74-85 | computes the hand-over of the `when`: `Convert(source)` for a magnet, else `Download(source, name + ".torrent")`; `Aggregator.Aggregator.Hand` is proved against it, and `Aggregator.DispatchRoutes` and `Aggregator.CycleSplitsByKind` state its properties |
| `Aggregator.NextHistory` | src/main/kotlin/com/waicool20/aggregator/Aggregator.kt:86 | computes the old history followed by the names of the pending torrents whose branch returned normally; `Aggregator.NextHistoryRecords` and `Aggregator.HistoryOnlyGrows` state its properties |
| `Aggregator.HistoryAfter` | src/main/kotlin/com/waicool20/aggregator/Aggregator.kt:72-87 | computes the history after a series of completed cycles; `Aggregator.HistoryOnlyGrows`, `Aggregator.NeverRedispatched` and `Aggregator.HandledNeverRedispatched` state its properties |
| `Aggregator.StartStep` | src/main/kotlin/com/waicool20/aggregator/Aggregator.kt:94-99 | computes `start()` as written on the lifecycle: a no-op while running, a throw for a non-positive period and then for a used task, else scheduled and running; `Aggregator.Aggregator.Start` is proved against it, and `Aggregator.StartTransitions` and `Aggregator.RestartAfterStopThrows` state its properties |
| `Aggregator.StopStep` | src/main/kotlin/com/waicool20/aggregator/Aggregator.kt:101-106 | computes `stop()` on the lifecycle: cancels the task and clears `isRunning` while running; `Aggregator.Aggregator.Stop` is proved against it and `Aggregator.StopTransitions` states its properties |
| `Aggregator.StartWithFreshTask` | src/main/kotlin/com/waicool20/aggregator/Aggregator.kt:94-99 | computes the corrected `start()` with a new task per call; `Aggregator.FreshTaskAlwaysRestarts` states that it always resumes for a positive period |
| `Aggregator.Replay` | src/main/kotlin/com/waicool20/aggregator/Aggregator.kt:94-106 | computes the lifecycle after a series of `start`/`stop` calls as written; `Aggregator.StoppedForever` and `Aggregator.NonPositiveIntervalNeverRuns` state its properties |
| `Aggregator.ReplayWithFreshTask` | src/main/kotlin/com/waicool20/aggregator/Aggregator.kt:94-106 | computes the lifecycle after a series of calls with the corrected start; `Aggregator.FreshTaskAlwaysRestarts` and `Aggregator.NonPositiveIntervalNeverRuns` state its properties |
| `Aggregator.Aggregator.constructor` | src/main/kotlin/com/waicool20/aggregator/Aggregator.kt:58-59 | a new aggregator has an empty history, is not running, and has an unscheduled task |
| `Aggregator.Aggregator.Run` | src/main/kotlin/com/waicool20/aggregator/Aggregator.kt:72-87 | a cycle dispatches each candidate whose name is not in the old history, exactly once and in order, then appends the names of those whose branch returned normally; if a source fails, nothing changes |
| `Aggregator.MinutesToMillis` | src/main/kotlin/com/waicool20/aggregator/Aggregator.kt:96 | the timer period is positive exactly when the scan interval is; within the non-overflowing range it is the interval times 60000, and beyond it saturates to the Long bound of the interval's sign |
| `Aggregator.Aggregator.DispatchAll` | src/main/kotlin/com/waicool20/aggregator/Aggregator.kt:73-87 | hands over every pending torrent once, in order, and appends to the history the names of those whose branch returned normally |
| `Aggregator.DispatchesMatchForEach` | src/main/kotlin/com/waicool20/aggregator/Aggregator.kt:73 | the in-order hand-overs are `parallelForEach`'s effects when the pool completes the jobs in input order; any other completion order performs the same hand-overs, rearranged |
| `Aggregator.ForEachDispatch` | src/main/kotlin/com/waicool20/aggregator/Aggregator.kt:73 | runs the cycle's `parallelForEach` through `ConcurrentUtils.ParallelForEach` under any completion order: it appends exactly the hand-overs `Aggregator.Aggregator.DispatchAll` logs, rearranged, and in the same order when the jobs complete in input order |
| `Aggregator.Aggregator.Hand` | src/main/kotlin/com/waicool20/aggregator/Aggregator.kt:74-85 | one `when`: a magnet goes to `convert(source)`, any other torrent to the downloader with `name + ".torrent"` |
| `Aggregator.Aggregator.Start` | src/main/kotlin/com/waicool20/aggregator/Aggregator.kt:94-99 | from idle with a new task and a positive scan interval, schedules it and sets `isRunning`; while running, does nothing; with a non-positive interval or a cancelled task, throws and changes nothing |
| `Aggregator.Aggregator.Stop` | src/main/kotlin/com/waicool20/aggregator/Aggregator.kt:101-106 | while running, cancels the task and clears `isRunning`; when idle, does nothing |
| `Aggregator.DispatchRoutes` | src/main/kotlin/com/waicool20/aggregator/Aggregator.kt:74-85 | each torrent takes exactly one branch: magnets go to `convert(source)`, all others to the downloader with `name + ".torrent"` |
| `Aggregator.CycleSplitsByKind` | src/main/kotlin/com/waicool20/aggregator/Aggregator.kt:73-85 | in a cycle, the converted and the downloaded torrents together are exactly the pending ones |
| `Aggregator.PendingIff` | src/main/kotlin/com/waicool20/aggregator/Aggregator.kt:73 | a candidate is dispatched exactly when its name is not in the history as it stood before the cycle |
| `Aggregator.NewCandidatesAllDispatched` | src/main/kotlin/com/waicool20/aggregator/Aggregator.kt:73 | when every name is new, every candidate is dispatched; nothing is deduplicated within a cycle |
| `Aggregator.SameNameTwiceDispatchedTwice` | src/main/kotlin/com/waicool20/aggregator/Aggregator.kt:73 | two new torrents with the same name in one cycle are both dispatched |
| `Aggregator.NextHistoryRecords` | src/main/kotlin/com/waicool20/aggregator/Aggregator.kt:86 | the old history stays a prefix; every dispatched torrent whose branch returned normally has its name recorded; nothing else is added |
| `Aggregator.HistoryOnlyGrows` | src/main/kotlin/com/waicool20/aggregator/Aggregator.kt:86 | over any series of cycles, the history after fewer cycles is a prefix of the history after more |
| `Aggregator.NeverRedispatched` | src/main/kotlin/com/waicool20/aggregator/Aggregator.kt:73 | a name in the history is never dispatched in any later cycle |
| `Aggregator.HandledNeverRedispatched` | src/main/kotlin/com/waicool20/aggregator/Aggregator.kt:73-86 | a torrent handled successfully in one cycle has its name skipped in every later cycle |
| `Aggregator.StartTransitions` | src/main/kotlin/com/waicool20/aggregator/Aggregator.kt:94-99 | `start` keeps "running exactly while scheduled"; from idle with a new task and a positive period it schedules once; from idle with a non-positive period it throws and changes nothing; while running it is a no-op |
| `Aggregator.StopTransitions` | src/main/kotlin/com/waicool20/aggregator/Aggregator.kt:101-106 | `stop` keeps the invariant; while running it cancels and clears `isRunning`; when idle it is a no-op |
| `Aggregator.RestartAfterStopThrows` | src/main/kotlin/com/waicool20/aggregator/Aggregator.kt:94-106 | as written, with a positive period, the first start succeeds, and start, stop, start throws on the second start and the aggregator stays stopped |
| `Aggregator.StoppedForever` | src/main/kotlin/com/waicool20/aggregator/Aggregator.kt:94-106 | as written, once the task is cancelled, no series of `start`/`stop` calls runs the aggregator again |
| `Aggregator.NonPositiveIntervalNeverRuns` | src/main/kotlin/com/waicool20/aggregator/Aggregator.kt:94-99 | with a scan interval that is not positive, no series of calls starts an idle aggregator, with the task as written or a new one per start |
| `Aggregator.FreshTaskAlwaysRestarts` | src/main/kotlin/com/waicool20/aggregator/Aggregator.kt:94-99 | with a new task per `start` and a positive period, starting after any series of calls, stops included, succeeds and leaves the aggregator running |

## Findings

| source | as written | input that shows it | evidently intended | confidence | as-written member | corrected member |
|---|---|---|---|---|---|---|
| src/main/kotlin/com/waicool20/aggregator/Aggregator.kt:94-106 | `start()` hands the same `task` object to `timer.schedule` every time. `stop()` cancels that task. `java.util.Timer` throws IllegalStateException when scheduling a task that is not new. | `start(); stop(); start()`: the second `start` throws and `isRunning` stays false | `start()` after `stop()` resumes the schedule, as the `isRunning` guard suggests (for example, a new TimerTask per start) | high; not executed | `Aggregator.RestartAfterStopThrows` | `Aggregator.FreshTaskAlwaysRestarts` |
| src/main/kotlin/com/waicool20/aggregator/Sources.kt:44-52 | The getter reads the feed only while `lastRawFeed` is null. Nothing calls `refresh()`, and the registry's sources are created once (Aggregator.kt:41-45). | tick 1 reads a feed with no entries; tick 2's read would hold one entry; the getter returns no torrents on both ticks | every tick polls the current feed, so that new releases are picked up, which is what `refresh()` is for | medium; not executed | `Sources.LaterFeedIgnored` | `Sources.RefreshedTicksFollowFeed` |

`Sources.FirstSuccessfulReadSticks` generalises the second finding to any series of getter calls. Its corrected transition is `Sources.RssSource.RefreshThenGet`. `Aggregator.Aggregator.Run` takes each source's result as an input, so it covers the as-written and the corrected source alike.

The `Aggregator` class keeps the as-written `start` (`Aggregator.StartStep`), because that is what the source does. `Aggregator.StoppedForever` generalises the finding to any series of calls. The corrected transition is `Aggregator.StartWithFreshTask`.

## Left out

- The magnet-to-torrent converter and the direct downloader are not modelled. This covers MagnetToTorrentConverter.kt and TorrentUtils.kt:45-120: the native library, the libtorrent session, the DHT wait, bdecoding, HTTP, cookies and file writes. They are foreign calls and I/O.
  - A cycle records each hand-over as a `Dispatch`.
  - Whether the call returned normally is the input `returnsNormally`.
- The libtorrent state file and the shutdown hook (Aggregator.kt:62-69) are I/O and are not modelled.
- Feed reading and parsing (`rawFeed`, Sources.kt:37-42) and the feed URLs are network I/O and are not modelled. The outcome of a read is a parameter: `Some(feed)` or `None` for an exception. A parsed item is either complete or marked as missing its title, link or date; which field is missing is not modelled.
- `TorrentSource` is an interface with overriding classes. Without traits, the model uses a `SourceKind` value and selects the DeadFish mapping by kind.
- Publication dates are milliseconds since the epoch. The conversion to `ZonedDateTime` in the system time zone is not modelled.
- The timing of ticks, logging, `measureTimeMillis` and the next-check message (Aggregator.kt:49, 88-90) are not modelled. The timer appears as the state of the Aggregator's one TimerTask and the checks `Timer.schedule` makes on the period and the task.
- The sources' state is not threaded through `Aggregator.Aggregator.Run`. A cycle takes each source's getter result as an input, and `Sources.GetterResults` gives what those results are over a series of getter calls.
- Aggregator.Aggregator.Run: whether a dispatch returns normally is a function of the torrent's value, so two equal torrents in one cycle share their outcome. The source allows them to differ. No proved property depends on this.
- A task that throws (for example, after a failing source) also ends `java.util.Timer`'s thread, so no later tick runs. The model reports the failed cycle but does not model the dead timer.
- `Text.CharEqualsIgnoreCase` folds ASCII letters only. Java's full Unicode case mapping is not modelled.
- `Text.ReplaceAll` requires a non-empty pattern. Kotlin's behaviour for an empty pattern is not modelled; every call in the core uses a non-empty literal.
- Real concurrency is not modelled. Coroutines, thread-safety and the unsynchronised `history.add` from concurrent jobs are outside the model. In the helpers, the pool's completion order is the `schedule` parameter.
- Aggregator.Aggregator.Run: dispatches the pending torrents one after another, in candidate order. In the source they run concurrently through `parallelForEach`, so the history receives names in completion order. Membership and count are the same.
- ConcurrentUtils.ParallelMapTo: `transform` is a total function, so the model leaves out a throwing job. In the source, `await()` rethrows the first failure in input order, after the results before it were already appended. The same holds for `ConcurrentUtils.ParallelFlatMapTo` and `ConcurrentUtils.ParallelOnEach`.
- ConcurrentUtils.ParallelForEach: `action` is a total function. In the source, `join()` does not rethrow a failed launched job, so every other action still runs. The cycle's `returnsNormally` input models that outcome.
- ConcurrentUtils.ParallelMapTo: the destination is a mutable list. Other `MutableCollection`s, such as sets that ignore duplicates, are not modelled. The same holds for `ParallelFlatMapTo`.
- Sources.RssSource.Torrents: Kotlin's `mapNotNull` could drop nulls. DeadFish's lambda never yields null, so it is modelled as `map`.
