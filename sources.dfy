/**
 * The feed sources of Sources.kt. A feed is the list of its items; an item whose title,
 * link and publication instant are all present is an Entry. Reading a feed over the
 * network is not modelled, so the methods that would read it take the outcome of that
 * read as a parameter: `Some(feed)` when the read succeeds, `None` when it throws.
 */
module Sources {
  import opened Text
  import opened Collections
  import opened TorrentUtils

  /** One entry of an RSS feed, with all the fields the getters use. */
  datatype Entry = Entry(title: string, link: string, publishedMillis: int)

  /**
   * One item of a parsed feed: `None` for an item the parser left without a title, a link
   * or a publication date, which makes the getters' `map` throw.
   */
  type Item = Option<Entry>

  type Feed = seq<Item>

  /** Every item of the feed has the fields the getters use. */
  predicate AllComplete(feed: Feed) {
    forall i :: 0 <= i < |feed| ==> feed[i].Some?
  }

  /** The entries of a feed whose items are all complete. */
  function Entries(feed: Feed): (r: seq<Entry>)
    requires AllComplete(feed)
    ensures |r| == |feed| && forall i :: 0 <= i < |feed| ==> feed[i] == Some(r[i])
  {
    seq(|feed|, i requires 0 <= i < |feed| && feed[i].Some? => feed[i].value)
  }

  /** The source classes of Sources.kt; only DeadFishRss overrides the `torrents` getter. */
  datatype SourceKind = HorribleSubs | GoodJobMedia | AniDex | TokyoTosho | DeadFish

  /** `Torrent(it.title, it.link, it.publishedDate)`. */
  function EntryTorrent(e: Entry): Torrent {
    Torrent(e.title, e.link, e.publishedMillis)
  }

  /** The DeadFish page prefix and suffix that are stripped from an entry's link to get its hash. */
  const ShowPrefix: string := "https://www.acgnx.se/show-"
  const ShowSuffix: string := ".html"
  const DownloadPrefix: string := "https://www.acgnx.se/down.php?date="
  const HashParameter: string := "&hash="

  /** `link.replace(ShowPrefix, "").replace(ShowSuffix, "")`. */
  function DeadFishHash(link: string): string {
    ReplaceAll(ReplaceAll(link, ShowPrefix, ""), ShowSuffix, "")
  }

  /** The download URL built for one DeadFish entry: publication seconds (truncated) and hash. */
  function DeadFishLink(e: Entry): string {
    DownloadPrefix + LongToString(TruncDiv(e.publishedMillis, 1000)) + HashParameter + DeadFishHash(e.link)
  }

  /** The `mapNotNull` lambda of DeadFishRss: it never yields null. */
  function DeadFishTorrent(e: Entry): Torrent {
    Torrent(e.title, DeadFishLink(e), e.publishedMillis)
  }

  /** What the `map` of each kind of source makes of a feed's entries. */
  function EntriesTorrents(kind: SourceKind, entries: seq<Entry>): seq<Torrent> {
    if kind == DeadFish then Map(DeadFishTorrent, entries) else Map(EntryTorrent, entries)
  }

  /** What the `torrents` getter makes of a feed once it has it: `None` when the `map` throws on an incomplete item. */
  function FeedTorrents(kind: SourceKind, feed: Feed): Option<seq<Torrent>> {
    if AllComplete(feed) then Some(EntriesTorrents(kind, Entries(feed))) else None
  }

  /**
   * One call of the `torrents` getter on a source whose cache is `cache`, given the outcome
   * of the read it would make: the new cache and the getter's result (`None`: it threw).
   * A read feed is cached before its items are mapped, so it stays cached when the map throws.
   */
  function GetterStep(kind: SourceKind, cache: Option<Feed>, read: Option<Feed>): (Option<Feed>, Option<seq<Torrent>>) {
    if cache.Some? then (cache, FeedTorrents(kind, cache.value))
    else if read.Some? then (read, FeedTorrents(kind, read.value))
    else (None, None)
  }

  /** `refresh()` followed by the getter: the feed is read anew and the getter uses that read. */
  function RefreshThenGetStep(kind: SourceKind, cache: Option<Feed>, read: Option<Feed>): (Option<Feed>, Option<seq<Torrent>>) {
    if read.Some? then (read, FeedTorrents(kind, read.value)) else (cache, None)
  }

  /** What the getter returns on a series of calls, given what the read each call would make produces. */
  function GetterResults(kind: SourceKind, cache: Option<Feed>, outcomes: seq<Option<Feed>>): (r: seq<Option<seq<Torrent>>>)
    ensures |r| == |outcomes|
    decreases |outcomes|
  {
    if |outcomes| == 0 then []
    else
      var (next, result) := GetterStep(kind, cache, outcomes[0]);
      [result] + GetterResults(kind, next, outcomes[1..])
  }

  /** The same series of calls when each call refreshes the source before reading its torrents. */
  function RefreshingResults(kind: SourceKind, cache: Option<Feed>, outcomes: seq<Option<Feed>>): (r: seq<Option<seq<Torrent>>>)
    ensures |r| == |outcomes|
    decreases |outcomes|
  {
    if |outcomes| == 0 then []
    else
      var (next, result) := RefreshThenGetStep(kind, cache, outcomes[0]);
      [result] + RefreshingResults(kind, next, outcomes[1..])
  }

  /** An RSS source with its cached feed. */
  class RssSource {
    const kind: SourceKind
    /** The feed read last, if any read has succeeded yet. */
    var lastRawFeed: Option<Feed>
    /** How many times the feed has been read over the network. */
    var fetches: nat

    constructor (kind: SourceKind)
      ensures this.kind == kind && lastRawFeed == None && fetches == 0
    {
      this.kind := kind;
      lastRawFeed := None;
      fetches := 0;
    }

    /** `refresh()`: fetches the feed again and replaces the cache; a failed read leaves the cache as it was. */
    method Refresh(read: Option<Feed>) returns (ok: bool)
      modifies this
      ensures ok <==> read.Some?
      ensures fetches == old(fetches) + 1
      ensures lastRawFeed == if ok then read else old(lastRawFeed)
    {
      fetches := fetches + 1;
      ok := read.Some?;
      if ok {
        lastRawFeed := read;
      }
    }

    /**
     * The `torrents` getter: the cached feed when there is one, otherwise the feed is read
     * once and cached, and then its items are mapped. `None` stands for the exception a
     * failed read or a failing map throws.
     */
    method Torrents(read: Option<Feed>) returns (r: Option<seq<Torrent>>)
      modifies this
      ensures old(lastRawFeed).Some? ==>
        lastRawFeed == old(lastRawFeed) && fetches == old(fetches)
        && r == FeedTorrents(kind, old(lastRawFeed).value)
      ensures old(lastRawFeed).None? ==>
        fetches == old(fetches) + 1 && lastRawFeed == read
        && r == (if read.Some? then FeedTorrents(kind, read.value) else None)
      ensures r.Some? ==> lastRawFeed.Some? && AllComplete(lastRawFeed.value)
      ensures (lastRawFeed, r) == GetterStep(kind, old(lastRawFeed), read)
    {
      if lastRawFeed.None? {
        fetches := fetches + 1;
        if read.None? {
          return None;
        }
        lastRawFeed := read;
      }
      r := FeedTorrents(kind, lastRawFeed.value);
    }

    /** `refresh()` then the `torrents` getter: the result always comes from this read. */
    method RefreshThenGet(read: Option<Feed>) returns (r: Option<seq<Torrent>>)
      modifies this
      ensures fetches == old(fetches) + 1
      ensures (lastRawFeed, r) == RefreshThenGetStep(kind, old(lastRawFeed), read)
    {
      var ok := Refresh(read);
      if !ok {
        return None;
      }
      r := Torrents(read);
    }
  }

  /**
   * Without `refresh()`, the first successful read is cached for good: every later call of
   * the getter returns the torrents of that first feed, whatever later reads would produce,
   * and the calls before it threw.
   */
  lemma {:induction false} FirstSuccessfulReadSticks(kind: SourceKind, outcomes: seq<Option<Feed>>, j: nat)
    requires j < |outcomes| && outcomes[j].Some?
    requires forall i :: 0 <= i < j ==> outcomes[i].None?
    ensures forall k :: 0 <= k < j ==> GetterResults(kind, None, outcomes)[k].None?
    ensures forall k :: j <= k < |outcomes| ==> GetterResults(kind, None, outcomes)[k] == FeedTorrents(kind, outcomes[j].value)
    decreases j
  {
    if j == 0 {
      CachedFeedSticks(kind, outcomes[0].value, outcomes[1..]);
      var rest := GetterResults(kind, outcomes[0], outcomes[1..]);
      assert GetterResults(kind, None, outcomes) == [FeedTorrents(kind, outcomes[0].value)] + rest;
    } else {
      FirstSuccessfulReadSticks(kind, outcomes[1..], j - 1);
      assert GetterResults(kind, None, outcomes) == [None] + GetterResults(kind, None, outcomes[1..]);
    }
  }

  /** A source with a cached feed keeps giving what that feed's items map to on every later call. */
  lemma {:induction false} CachedFeedSticks(kind: SourceKind, f: Feed, outcomes: seq<Option<Feed>>)
    ensures forall k :: 0 <= k < |outcomes| ==> GetterResults(kind, Some(f), outcomes)[k] == FeedTorrents(kind, f)
    decreases |outcomes|
  {
    if |outcomes| > 0 {
      CachedFeedSticks(kind, f, outcomes[1..]);
      assert GetterResults(kind, Some(f), outcomes) == [FeedTorrents(kind, f)] + GetterResults(kind, Some(f), outcomes[1..]);
    }
  }

  /** A concrete instance: a feed that gains an entry after the first call is never seen to. */
  lemma LaterFeedIgnored(kind: SourceKind, e: Entry)
    ensures GetterResults(kind, None, [Some([]), Some([Some(e)])]) == [Some([]), Some([])]
    ensures FeedTorrents(kind, [Some(e)]).Some? && |FeedTorrents(kind, [Some(e)]).value| == 1
  {
    CachedFeedSticks(kind, [], [Some([Some(e)])]);
    assert AllComplete([Some(e)]);
    assert Entries([Some(e)]) == [e];
  }

  /**
   * A read feed with an incomplete item is cached before the map throws on it, so the getter
   * throws on that call and on every later one, whatever later reads would produce.
   */
  lemma MalformedItemPoisonsCache(kind: SourceKind, f: Feed, i: nat, later: seq<Option<Feed>>)
    requires i < |f| && f[i].None?
    ensures forall k :: 0 <= k < |later| + 1 ==> GetterResults(kind, None, [Some(f)] + later)[k].None?
  {
    assert !AllComplete(f);
    FirstSuccessfulReadSticks(kind, [Some(f)] + later, 0);
  }

  /** The items of a feed map to torrents exactly when every item is complete. */
  lemma FeedTorrentsIff(kind: SourceKind, f: Feed)
    ensures FeedTorrents(kind, f).Some? <==> forall i :: 0 <= i < |f| ==> f[i].Some?
    ensures FeedTorrents(kind, f).Some? ==> |FeedTorrents(kind, f).value| == |f|
  {
  }

  /** With a refresh before every read, each call's torrents are those of that call's feed. */
  lemma {:induction false} RefreshedTicksFollowFeed(kind: SourceKind, cache: Option<Feed>, outcomes: seq<Option<Feed>>)
    ensures forall k :: 0 <= k < |outcomes| ==>
      RefreshingResults(kind, cache, outcomes)[k] == (if outcomes[k].Some? then FeedTorrents(kind, outcomes[k].value) else None)
    decreases |outcomes|
  {
    if |outcomes| > 0 {
      var (next, result) := RefreshThenGetStep(kind, cache, outcomes[0]);
      RefreshedTicksFollowFeed(kind, next, outcomes[1..]);
      assert RefreshingResults(kind, cache, outcomes) == [result] + RefreshingResults(kind, next, outcomes[1..]);
    }
  }

  /** A plain RSS source yields one torrent per entry, in entry order, named by the title and pointing at the link. */
  lemma RssTorrentsPerEntry(kind: SourceKind, entries: seq<Entry>)
    requires kind != DeadFish
    ensures |EntriesTorrents(kind, entries)| == |entries|
    ensures forall i :: 0 <= i < |entries| ==>
      EntriesTorrents(kind, entries)[i] == Torrent(entries[i].title, entries[i].link, entries[i].publishedMillis)
  {
  }

  /** DeadFishRss also yields exactly one torrent per entry, in order, named by the entry's title. */
  lemma DeadFishTorrentsPerEntry(entries: seq<Entry>)
    ensures |EntriesTorrents(DeadFish, entries)| == |entries|
    ensures forall i :: 0 <= i < |entries| ==>
      EntriesTorrents(DeadFish, entries)[i].name == entries[i].title
      && EntriesTorrents(DeadFish, entries)[i].pubDate == entries[i].publishedMillis
      && DownloadPrefix <= EntriesTorrents(DeadFish, entries)[i].source
  {
  }

  /** No occurrence of the prefix can start in `h` and run into the `.html` that follows it. */
  lemma NoPrefixAcrossSuffix(h: string)
    requires !Contains(h, ShowPrefix)
    ensures forall i: nat :: i < |h| ==> !(ShowPrefix <= (h + ShowSuffix)[i..])
  {
    forall i: nat | i < |h| ensures !(ShowPrefix <= (h + ShowSuffix)[i..]) {
      var t := (h + ShowSuffix)[i..];
      if i + |ShowPrefix| <= |h| {
        assert t[..|ShowPrefix|] == h[i..i + |ShowPrefix|];
        assert !OccursAt(h, ShowPrefix, i);
      } else if |ShowPrefix| <= |t| {
        // The occurrence would cover position |h|, which holds '.', at an offset of at
        // least 21 into the prefix, where the prefix is "show-".
        var d := |h| - i;
        assert t[d] == '.' && ShowPrefix[d] != '.';
      }
    }
  }

  /** No occurrence of `.html` can start in `h` and run into the `.html` that follows it. */
  lemma NoSuffixAcrossSuffix(h: string)
    requires !Contains(h, ShowSuffix)
    ensures forall i: nat :: i < |h| ==> !(ShowSuffix <= (h + ShowSuffix)[i..])
  {
    forall i: nat | i < |h| ensures !(ShowSuffix <= (h + ShowSuffix)[i..]) {
      var t := (h + ShowSuffix)[i..];
      if i + |ShowSuffix| <= |h| {
        assert t[..|ShowSuffix|] == h[i..i + |ShowSuffix|];
        assert !OccursAt(h, ShowSuffix, i);
      } else {
        // Position |h| holds '.', which `.html` has only at offset 0.
        var d := |h| - i;
        assert t[d] == '.' && ShowSuffix[d] != '.';
      }
    }
  }

  /** For a show-page link `ShowPrefix + h + ".html"`, where `h` contains neither piece, the hash is `h`. */
  lemma DeadFishHashOfShowLink(h: string)
    requires !Contains(h, ShowPrefix) && !Contains(h, ShowSuffix)
    ensures DeadFishHash(ShowPrefix + h + ShowSuffix) == h
  {
    var link := ShowPrefix + h + ShowSuffix;
    assert ShowPrefix <= link;
    assert link[|ShowPrefix|..] == h + ShowSuffix;
    assert ReplaceAll(link, ShowPrefix, "") == ReplaceAll(h + ShowSuffix, ShowPrefix, "");
    NoPrefixAcrossSuffix(h);
    ReplaceSplit(h, ShowSuffix, ShowPrefix, "");
    ReplaceAbsent(h, ShowPrefix, "");
    assert ReplaceAll(ShowSuffix, ShowPrefix, "") == ShowSuffix;
    NoSuffixAcrossSuffix(h);
    ReplaceSplit(h, ShowSuffix, ShowSuffix, "");
    ReplaceAbsent(h, ShowSuffix, "");
    assert ReplaceAll(ShowSuffix, ShowSuffix, "") == "";
  }

  /**
   * The DeadFish download URL for a show-page link carries the publication time in whole
   * seconds (truncated toward zero) and the page's hash; both can be read back from it.
   */
  lemma DeadFishLinkOfShowLink(e: Entry, h: string)
    requires e.link == ShowPrefix + h + ShowSuffix
    requires !Contains(h, ShowPrefix) && !Contains(h, ShowSuffix)
    ensures DeadFishLink(e) == DownloadPrefix + LongToString(TruncDiv(e.publishedMillis, 1000)) + HashParameter + h
    ensures var seconds := ParseLong(LongToString(TruncDiv(e.publishedMillis, 1000)));
      && seconds == TruncDiv(e.publishedMillis, 1000)
      && (e.publishedMillis >= 0 ==> 0 <= e.publishedMillis - seconds * 1000 < 1000)
      && (e.publishedMillis < 0 ==> -1000 < e.publishedMillis - seconds * 1000 <= 0)
  {
    DeadFishHashOfShowLink(h);
    LongToStringRoundTrip(TruncDiv(e.publishedMillis, 1000));
  }
}
