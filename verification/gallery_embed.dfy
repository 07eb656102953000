/**
  The gallery's embed resolver (`getEmbedUrl` in components/videos-list.tsx):
  from a stored link it decides between playing the file directly, an iframe
  on the canonical YouTube or Vimeo player URL, or an inline error message.
  The checks run in a fixed order: parse, file extension, YouTube, Vimeo.
 */
module GalleryEmbed {
  import opened JsValue
  import opened JsString
  import opened Url
  import opened VideoHosts

  const InvalidUrlMessage: string := "Invalid video URL"
  const UnsupportedMessage: string :=
    "This video platform is not supported. Please use YouTube, Vimeo, or a direct video file link."
  const VideoExtensions: seq<string> := [".mp4", ".webm", ".ogg", ".mov", ".avi"]

  /** The `{ embedUrl, isDirectVideo, error? }` record a gallery card renders from. */
  datatype VideoInfo = VideoInfo(embedUrl: Option<string>, isDirectVideo: bool, error: Option<string>)

  function Direct(url: string): VideoInfo {
    VideoInfo(Some(url), true, None)
  }

  function Embedded(src: string): VideoInfo {
    VideoInfo(Some(src), false, None)
  }

  function Failed(message: string): VideoInfo {
    VideoInfo(None, false, Some(message))
  }

  /** The lowercased pathname ends in one of the known video file extensions. */
  predicate HasVideoExtension(pathname: string) {
    exists ext :: ext in VideoExtensions && EndsWith(ToLower(pathname), ext)
  }

  /** `pathname.split(marker)[1]?.split("?")[0]`. */
  function AfterMarker(pathname: string, marker: string): Option<string>
    requires |marker| > 0
  {
    var parts := Split(pathname, marker);
    if |parts| >= 2 then Some(BeforeQuery(parts[1])) else None
  }

  /** The YouTube video id, from the first applicable source: short link, `/shorts/`, `/embed/`, `v=`. */
  function YouTubeId(u: UrlParts): Option<string> {
    if IsShortLinkHost(u.hostname) then Some(BeforeQuery(Slice1(u.pathname)))
    else if Includes(u.pathname, "/shorts/") then AfterMarker(u.pathname, "/shorts/")
    else if Includes(u.pathname, "/embed/") then AfterMarker(u.pathname, "/embed/")
    else SearchParam(u.query, "v")
  }

  /** `pathParts[pathParts.length - 1]`: the last non-empty path segment. */
  function VimeoId(pathname: string): Option<string> {
    var segs := PathSegments(pathname);
    if |segs| == 0 then None else Some(segs[|segs| - 1])
  }

  /** The resolver once `new URL(url)` has succeeded with parts `u`. */
  function Resolve(url: string, u: UrlParts): VideoInfo {
    if HasVideoExtension(u.pathname) then Direct(url)
    else if IsYouTubeHost(u.hostname) && Truthy(YouTubeId(u)) then
      Embedded(YouTubeEmbed(YouTubeId(u).value))
    else if IsVimeoHost(u.hostname) && Truthy(VimeoId(u.pathname))
            && IsAsciiDigits(VimeoId(u.pathname).value) then
      Embedded(VimeoPlayer(VimeoId(u.pathname).value))
    else Failed(UnsupportedMessage)
  }

  /** `getEmbedUrl(url)`; `parse` stands for `new URL`. */
  function GetEmbedUrl(parse: Parser, url: string): (r: VideoInfo)
    ensures parse(url).None? ==> r == Failed(InvalidUrlMessage)
    ensures r.embedUrl.Some? <==> r.error.None?
    ensures r.error.Some? ==> r.error == Some(InvalidUrlMessage) || r.error == Some(UnsupportedMessage)
    ensures r.isDirectVideo ==>
              r == Direct(url) && parse(url).Some? && HasVideoExtension(parse(url).value.pathname)
    ensures parse(url).Some? && HasVideoExtension(parse(url).value.pathname) ==> r == Direct(url)
    ensures r.embedUrl.Some? && !r.isDirectVideo ==>
              exists id :: id != "" && (r.embedUrl.value == YouTubeEmbed(id)
                                        || (r.embedUrl.value == VimeoPlayer(id) && IsAsciiDigits(id)))
  {
    match parse(url)
    case None => Failed(InvalidUrlMessage)
    case Some(u) => Resolve(url, u)
  }

  /** A path with no '.' cannot end in a video file extension. */
  lemma NoDotNoExtension(pathname: string)
    requires '.' !in pathname
    ensures !HasVideoExtension(pathname)
  {
    var p := ToLower(pathname);
    forall ext | ext in VideoExtensions ensures !EndsWith(p, ext) {
      if |ext| <= |p| {
        var at := |p| - |ext|;
        assert p[at..][0] == p[at];
        assert p[at] == LowerChar(pathname[at]) != '.';
      }
    }
  }

  /** The extension test ignores case: ".MP4" counts as ".mp4". */
  lemma UpperCaseExtensionIsDirect(url: string, u: UrlParts, stem: string)
    requires u.pathname == stem + ".MP4"
    ensures Resolve(url, u) == Direct(url)
  {
    var p := ToLower(u.pathname);
    assert p[|p| - 4..] == ".mp4";
    assert EndsWith(p, ".mp4");
  }

  /** A `/embed/` path with a plain id does not also contain `/shorts/`. */
  lemma EmbedPathHasNoShortsMarker(id: string)
    requires '/' !in id
    ensures !Includes("/embed/" + id, "/shorts/")
  {
    var p := "/embed/" + id;
    forall j ensures !OccursAt(p, "/shorts/", j) {
      if 0 <= j && j + 8 <= |p| {
        if j < 7 {
          assert p[j + 7] == id[j];
          assert p[j..j + 8][7] == p[j + 7];
        } else {
          assert p[j] == id[j - 7];
          assert p[j..j + 8][0] == p[j];
        }
      }
    }
  }

  /** The text after a leading marker, when the rest cannot contain the marker. */
  lemma AfterLeadingMarker(marker: string, id: string)
    requires |marker| > 0 && marker[0] == '/' && IsVideoIdText(id)
    ensures Includes(marker + id, marker)
    ensures AfterMarker(marker + id, marker) == Some(id)
  {
    var p := marker + id;
    assert p[..|marker|] == marker;
    assert OccursAt(p, marker, 0);
    SplitLeadingSeparator(p, marker);
    assert p[|marker|..] == id;
    NotIncludedWithoutFirstChar(id, marker);
    SplitWithoutSeparator(id, marker);
    BeforeQueryOfId(id);
  }

  /** A short link `youtu.be/<id>` embeds the id. */
  lemma ShortLinkShape(url: string, shortHost: string, id: string, q: seq<(string, string)>)
    requires IsVideoIdText(id) && IsShortLinkHost(shortHost)
    ensures Resolve(url, UrlParts(shortHost, "/" + id, q)) == Embedded(YouTubeEmbed(id))
  {
    NoDotNoExtension("/" + id);
    assert Slice1("/" + id) == id;
    BeforeQueryOfId(id);
  }

  /** A `/shorts/<id>` path on a YouTube host embeds the id. */
  lemma ShortsShape(url: string, host: string, id: string, q: seq<(string, string)>)
    requires IsVideoIdText(id)
    requires Includes(host, "youtube.com") && !IsShortLinkHost(host)
    ensures Resolve(url, UrlParts(host, "/shorts/" + id, q)) == Embedded(YouTubeEmbed(id))
  {
    NoDotNoExtension("/shorts/" + id);
    AfterLeadingMarker("/shorts/", id);
  }

  /** An `/embed/<id>` path on a YouTube host embeds the id. */
  lemma EmbedShape(url: string, host: string, id: string, q: seq<(string, string)>)
    requires IsVideoIdText(id)
    requires Includes(host, "youtube.com") && !IsShortLinkHost(host)
    ensures Resolve(url, UrlParts(host, "/embed/" + id, q)) == Embedded(YouTubeEmbed(id))
  {
    NoDotNoExtension("/embed/" + id);
    AfterLeadingMarker("/embed/", id);
    EmbedPathHasNoShortsMarker(id);
  }

  /** A `/watch?v=<id>` URL on a YouTube host embeds the id. */
  lemma WatchShape(url: string, host: string, id: string, watchQuery: seq<(string, string)>)
    requires id != ""
    requires Includes(host, "youtube.com") && !IsShortLinkHost(host)
    requires SearchParam(watchQuery, "v") == Some(id)
    ensures Resolve(url, UrlParts(host, "/watch", watchQuery)) == Embedded(YouTubeEmbed(id))
  {
    NoDotNoExtension("/watch");
    assert !Includes("/watch", "/shorts/") && !Includes("/watch", "/embed/");
  }

  /** Watch, short-link, `/shorts/` and `/embed/` URLs carrying the same id all give the same embed URL. */
  lemma YouTubeUrlShapesAgree(url: string, shortHost: string, host: string, id: string,
                              q: seq<(string, string)>, watchQuery: seq<(string, string)>)
    requires IsVideoIdText(id)
    requires IsShortLinkHost(shortHost)
    requires Includes(host, "youtube.com") && !IsShortLinkHost(host)
    requires SearchParam(watchQuery, "v") == Some(id)
    ensures Resolve(url, UrlParts(shortHost, "/" + id, q)) == Embedded(YouTubeEmbed(id))
    ensures Resolve(url, UrlParts(host, "/shorts/" + id, q)) == Embedded(YouTubeEmbed(id))
    ensures Resolve(url, UrlParts(host, "/embed/" + id, q)) == Embedded(YouTubeEmbed(id))
    ensures Resolve(url, UrlParts(host, "/watch", watchQuery)) == Embedded(YouTubeEmbed(id))
  {
    ShortLinkShape(url, shortHost, id, q);
    ShortsShape(url, host, id, q);
    EmbedShape(url, host, id, q);
    WatchShape(url, host, id, watchQuery);
  }

  /** A YouTube link from which no id can be read never becomes a YouTube embed. */
  lemma YouTubeWithoutIdIsNotEmbedded(url: string, u: UrlParts)
    requires !HasVideoExtension(u.pathname) && IsYouTubeHost(u.hostname) && !Truthy(YouTubeId(u))
    ensures !IsVimeoHost(u.hostname) ==> Resolve(url, u) == Failed(UnsupportedMessage)
    ensures Resolve(url, u) == Failed(UnsupportedMessage)
            || (VimeoId(u.pathname).Some? && IsAsciiDigits(VimeoId(u.pathname).value)
                && Resolve(url, u) == Embedded(VimeoPlayer(VimeoId(u.pathname).value)))
  {
  }

  /** On a Vimeo host, an embed is produced exactly when the last path segment is all digits. */
  lemma VimeoNeedsNumericLastSegment(url: string, u: UrlParts)
    requires !HasVideoExtension(u.pathname) && IsVimeoHost(u.hostname) && !IsYouTubeHost(u.hostname)
    ensures var segs := PathSegments(u.pathname);
            |segs| > 0 && IsAsciiDigits(segs[|segs| - 1]) ==>
              Resolve(url, u) == Embedded(VimeoPlayer(segs[|segs| - 1]))
    ensures var segs := PathSegments(u.pathname);
            !(|segs| > 0 && IsAsciiDigits(segs[|segs| - 1])) ==>
              Resolve(url, u) == Failed(UnsupportedMessage)
  {
  }

  /** A Vimeo path `/seg/.../digits` embeds the trailing number, whatever comes before it. */
  lemma VimeoTrailingNumberIsTheId(url: string, u: UrlParts, segs: seq<string>)
    requires IsVimeoHost(u.hostname) && !IsYouTubeHost(u.hostname)
    requires u.pathname == SlashPath(segs) && '.' !in u.pathname
    requires forall k :: 0 <= k < |segs| ==> IsSegment(segs[k])
    requires |segs| > 0 && IsAsciiDigits(segs[|segs| - 1])
    ensures Resolve(url, u) == Embedded(VimeoPlayer(segs[|segs| - 1]))
  {
    NoDotNoExtension(u.pathname);
    PathSegmentsOfSlashPath(segs);
  }
}
