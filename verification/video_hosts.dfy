/**
  What the two embed resolvers share: how a hostname is recognised as
  YouTube or Vimeo (by substring, not equality), the canonical embed URL
  prefixes, and the path helpers `pathname.split("/").filter(Boolean)` and
  `s.split("?")[0]`.
 */
module VideoHosts {
  import opened JsValue
  import opened JsString

  const YouTubeEmbedBase: string := "https://www.youtube.com/embed/"
  const VimeoPlayerBase: string := "https://player.vimeo.com/video/"

  /** `hostname.includes("youtube.com") || hostname.includes("youtu.be")`. */
  predicate IsYouTubeHost(hostname: string) {
    Includes(hostname, "youtube.com") || Includes(hostname, "youtu.be")
  }

  /** `hostname.includes("youtu.be")`: the short-link host. */
  predicate IsShortLinkHost(hostname: string) {
    Includes(hostname, "youtu.be")
  }

  /** `hostname.includes("vimeo.com")`. */
  predicate IsVimeoHost(hostname: string) {
    Includes(hostname, "vimeo.com")
  }

  function YouTubeEmbed(id: string): string {
    YouTubeEmbedBase + id
  }

  function VimeoPlayer(id: string): string {
    VimeoPlayerBase + id
  }

  /** `pathname.split("/").filter(Boolean)`: the non-empty path segments. */
  function PathSegments(pathname: string): (segs: seq<string>)
    ensures forall k :: 0 <= k < |segs| ==> segs[k] != "" && '/' !in segs[k]
  {
    var pieces := Split(pathname, "/");
    SplitPiecesAvoidChar(pathname, '/');
    assert forall p | p in pieces :: '/' !in p;
    Compact(pieces)
  }

  /** `s.split("?")[0]`: the text before the first '?'. */
  function BeforeQuery(s: string): string {
    Split(s, "?")[0]
  }

  /** `split("?")[0]` is the longest prefix free of '?': it is followed by '?' or by nothing. */
  lemma BeforeQueryIsLongestPlainPrefix(s: string)
    ensures StartsWith(s, BeforeQuery(s)) && '?' !in BeforeQuery(s)
    ensures |BeforeQuery(s)| == |s| || s[|BeforeQuery(s)|] == '?'
  {
    var found := IndexOf(s, "?");
    if found.Some? {
      var i := found.value;
      SplitStep(s, "?", i);
      PrefixBeforeFirstOccurrence(s, "?", i);
      assert s[i..i + 1] == "?";
    } else {
      SplitWithoutSeparator(s, "?");
    }
    var b := BeforeQuery(s);
    if '?' in b {
      var j :| 0 <= j < |b| && b[j] == '?';
      assert OccursAt(b, "?", j);
      SplitPiecesExcludeSeparator(s, "?");
    }
  }

  /** Any hostname that contains "youtube.com" anywhere is treated as YouTube. */
  lemma HostMatchIsBySubstring(before: string, after: string)
    ensures IsYouTubeHost(before + "youtube.com" + after)
    ensures IsShortLinkHost(before + "youtu.be" + after)
    ensures IsVimeoHost(before + "vimeo.com" + after)
  {
    var h1 := before + "youtube.com" + after;
    assert h1[|before|..|before| + 11] == "youtube.com";
    assert OccursAt(h1, "youtube.com", |before|);
    var h2 := before + "youtu.be" + after;
    assert h2[|before|..|before| + 8] == "youtu.be";
    assert OccursAt(h2, "youtu.be", |before|);
    var h3 := before + "vimeo.com" + after;
    assert h3[|before|..|before| + 9] == "vimeo.com";
    assert OccursAt(h3, "vimeo.com", |before|);
  }

  /** A path made of the given segments, each preceded by '/': ["a", "b"] gives "/a/b". */
  function SlashPath(segs: seq<string>): string
    decreases |segs|
  {
    if |segs| == 0 then "" else "/" + segs[0] + SlashPath(segs[1..])
  }

  /** A proper path segment: non-empty and free of '/'. */
  predicate IsSegment(seg: string) {
    seg != "" && '/' !in seg
  }

  lemma {:induction false} SplitSegmentPath(first: string, rest: seq<string>)
    requires '/' !in first
    requires forall k :: 0 <= k < |rest| ==> IsSegment(rest[k])
    ensures Split(first + SlashPath(rest), "/") == [first] + rest
    decreases |rest|
  {
    if |rest| == 0 {
      assert first + SlashPath(rest) == first;
      NotIncludedWithoutFirstChar(first, "/");
      SplitWithoutSeparator(first, "/");
    } else {
      var tail := rest[0] + SlashPath(rest[1..]);
      assert first + SlashPath(rest) == first + ['/'] + tail;
      SplitAtChar(first, '/', tail);
      SplitSegmentPath(rest[0], rest[1..]);
      assert [rest[0]] + rest[1..] == rest;
    }
  }

  /** `split("/").filter(Boolean)` recovers the segments a path was built from. */
  lemma PathSegmentsOfSlashPath(segs: seq<string>)
    requires forall k :: 0 <= k < |segs| ==> IsSegment(segs[k])
    ensures PathSegments(SlashPath(segs)) == segs
  {
    assert "" + SlashPath(segs) == SlashPath(segs);
    SplitSegmentPath("", segs);
    CompactKeepsNonEmpty(segs);
    assert Compact([""] + segs) == Compact(segs) by {
      assert ([""] + segs)[1..] == segs;
    }
  }

  /** Characters YouTube uses in video ids. */
  predicate IsIdChar(c: char) {
    ('a' <= c <= 'z') || ('A' <= c <= 'Z') || ('0' <= c <= '9') || c == '-' || c == '_'
  }

  /** A YouTube-style video id: non-empty, letters, digits, '-' and '_' only. */
  predicate IsVideoIdText(id: string) {
    |id| > 0 && forall i :: 0 <= i < |id| ==> IsIdChar(id[i])
  }

  /** An id is left alone by `split("?")[0]`. */
  lemma BeforeQueryOfId(id: string)
    requires IsVideoIdText(id)
    ensures BeforeQuery(id) == id
  {
    NotIncludedWithoutFirstChar(id, "?");
    SplitWithoutSeparator(id, "?");
  }
}
