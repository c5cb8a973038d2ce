/**
 * The item model of TorrentUtils.kt: a torrent with its name, its source reference
 * and its publication instant, the magnet/torrent kind test and the sanitised
 * output file name.
 */
module TorrentUtils {
  import opened Text

  /** A publication instant, as milliseconds since the epoch (the time zone is not modelled). */
  type Instant = int

  /** The path separators that `fileName` replaces. */
  predicate IsSeparator(c: char) {
    c == '/' || c == '\\'
  }

  /** `name.replace("/", "-").replace("\\", "-")`. */
  function Sanitize(name: string): string {
    ReplaceAll(ReplaceAll(name, "/", "-"), "\\", "-")
  }

  const TorrentExtension: string := ".torrent"

  datatype Torrent = Torrent(name: string, source: string, pubDate: Instant) {

    /** `source.startsWith("magnet", true)`. */
    predicate IsMagnet() {
      StartsWithIgnoreCase(source, "magnet")
    }

    predicate IsTorrent() {
      !IsMagnet()
    }

    /** The name with both separators replaced by `-`, followed by `.torrent`. */
    function FileName(): string {
      Sanitize(name) + TorrentExtension
    }
  }

  /** Sanitising keeps every position: a separator becomes `-`, any other character stays. */
  lemma SanitizePointwise(name: string)
    ensures |Sanitize(name)| == |name|
    ensures forall i :: 0 <= i < |name| ==>
      Sanitize(name)[i] == (if IsSeparator(name[i]) then '-' else name[i])
  {
    ReplaceCharPointwise(name, '/', '-');
    ReplaceCharPointwise(ReplaceAll(name, "/", "-"), '\\', '-');
  }

  /** The kind test reads the first six characters of the source, ignoring ASCII case. */
  lemma IsMagnetIffMagnetPrefix(t: Torrent)
    ensures t.IsMagnet() <==> |t.source| >= 6 && forall i :: 0 <= i < 6 ==> LowerAscii(t.source[i]) == "magnet"[i]
  {
    forall i | 0 <= i < 6 && i < |t.source| {
      CharEqualsIgnoreCaseIsLowerEquality(t.source[i], "magnet"[i]);
    }
  }

  /** Every torrent has exactly one kind. */
  lemma KindsPartition(t: Torrent)
    ensures t.IsMagnet() != t.IsTorrent()
  {
  }

  /** The output file name never contains a path separator, so it cannot leave the output directory. */
  lemma FileNameHasNoSeparator(t: Torrent)
    ensures forall i :: 0 <= i < |t.FileName()| ==> !IsSeparator(t.FileName()[i])
  {
    SanitizePointwise(t.name);
    var f := t.FileName();
    forall i | 0 <= i < |f| ensures !IsSeparator(f[i]) {
      if i >= |t.name| {
        assert f[i] == TorrentExtension[i - |t.name|];
      }
    }
  }

  /** The output file name is the sanitised name plus `.torrent`: eight characters longer, with that suffix. */
  lemma FileNameShape(t: Torrent)
    ensures |t.FileName()| == |t.name| + 8
    ensures t.FileName()[|t.name|..] == ".torrent"
    ensures forall i :: 0 <= i < |t.name| ==>
      t.FileName()[i] == (if IsSeparator(t.name[i]) then '-' else t.name[i])
  {
    SanitizePointwise(t.name);
  }

  /** A name without separators is left as it is, so sanitising twice is sanitising once. */
  lemma SanitizeIdempotent(name: string)
    ensures (forall i :: 0 <= i < |name| ==> !IsSeparator(name[i])) ==> Sanitize(name) == name
    ensures Sanitize(Sanitize(name)) == Sanitize(name)
  {
    SanitizePointwise(name);
    SanitizePointwise(Sanitize(name));
  }

  /** Characters that sanitising cannot tell apart: the two separators and `-` itself. */
  predicate SameAfterSanitize(a: char, b: char) {
    (if IsSeparator(a) then '-' else a) == (if IsSeparator(b) then '-' else b)
  }

  /**
   * Two torrents get the same file name exactly when their names have the same length
   * and differ at most by `/`, `\` and `-` in the same positions; sanitising is not injective.
   */
  lemma SameFileNameIff(s: Torrent, t: Torrent)
    ensures s.FileName() == t.FileName() <==>
      |s.name| == |t.name| && forall i :: 0 <= i < |s.name| ==> SameAfterSanitize(s.name[i], t.name[i])
  {
    SanitizePointwise(s.name);
    SanitizePointwise(t.name);
    if s.FileName() == t.FileName() {
      assert |s.name| == |t.name|;
      forall i | 0 <= i < |s.name| ensures SameAfterSanitize(s.name[i], t.name[i]) {
        assert s.FileName()[i] == t.FileName()[i];
      }
    }
    if |s.name| == |t.name| && forall i :: 0 <= i < |s.name| ==> SameAfterSanitize(s.name[i], t.name[i]) {
      assert Sanitize(s.name) == Sanitize(t.name);
    }
  }

  /** A concrete collision: `a/b`, `a\b` and `a-b` are all written to `a-b.torrent`. */
  lemma FileNameCollision(d: Instant)
    ensures Torrent("a/b", "magnet:?x", d).FileName() == Torrent("a-b", "magnet:?x", d).FileName() == "a-b.torrent"
    ensures Torrent("a\\b", "magnet:?x", d).FileName() == "a-b.torrent"
  {
    SanitizePointwise("a/b");
    SanitizePointwise("a-b");
    SanitizePointwise("a\\b");
  }
}
