/**
  The homepage's embed resolver (`getEmbedUrl` in components/featured-videos.tsx)
  and the per-card choice between an iframe and a `<video>` tag. This
  resolver has no file-extension branch, reads only the short-link path or
  the `v` parameter for YouTube, takes the FIRST Vimeo path segment without
  checking it is numeric, and answers null instead of an error message.
 */
module FeaturedEmbed {
  import opened JsValue
  import opened JsString
  import opened Url
  import opened VideoHosts
  import opened Records

  /** The resolver once `new URL(url)` has succeeded with parts `u`. */
  function Resolve(u: UrlParts): Option<string> {
    if IsYouTubeHost(u.hostname) then
      var id := if IsShortLinkHost(u.hostname) then Some(Slice1(u.pathname)) else SearchParam(u.query, "v");
      if Truthy(id) then Some(YouTubeEmbed(id.value)) else None
    else if IsVimeoHost(u.hostname) then
      var segs := PathSegments(u.pathname);
      if |segs| > 0 then Some(VimeoPlayer(segs[0])) else None
    else None
  }

  /** `getEmbedUrl(url)`; `parse` stands for `new URL`. */
  function GetEmbedUrl(parse: Parser, url: string): (r: Option<string>)
    ensures parse(url).None? ==> r.None?
    ensures r.Some? ==> parse(url).Some?
    ensures r.Some? ==> var u := parse(url).value;
              (IsYouTubeHost(u.hostname) && exists id :: id != "" && r.value == YouTubeEmbed(id))
              || (!IsYouTubeHost(u.hostname) && IsVimeoHost(u.hostname)
                  && exists seg :: IsSegment(seg) && r.value == VimeoPlayer(seg))
    ensures parse(url).Some? && IsShortLinkHost(parse(url).value.hostname) ==>
              var id := Slice1(parse(url).value.pathname);
              (id != "" ==> r == Some(YouTubeEmbed(id))) && (id == "" ==> r.None?)
    ensures parse(url).Some? && IsYouTubeHost(parse(url).value.hostname)
            && !IsShortLinkHost(parse(url).value.hostname) ==>
              var v := SearchParam(parse(url).value.query, "v");
              (Truthy(v) ==> r == Some(YouTubeEmbed(v.value))) && (!Truthy(v) ==> r.None?)
    ensures parse(url).Some? && !IsYouTubeHost(parse(url).value.hostname) && IsVimeoHost(parse(url).value.hostname) ==>
              var segs := PathSegments(parse(url).value.pathname);
              (|segs| > 0 ==> r == Some(VimeoPlayer(segs[0]))) && (|segs| == 0 ==> r.None?)
    ensures parse(url).Some? && !IsYouTubeHost(parse(url).value.hostname) && !IsVimeoHost(parse(url).value.hostname) ==>
              r.None?
  {
    match parse(url)
    case None => None
    case Some(u) => Resolve(u)
  }

  /** How a homepage card shows its video. */
  datatype Frame = Iframe(src: string) | VideoTag(src: string)

  /** `embedUrl ? <iframe src={embedUrl}> : <video src={video.video_url}>`, with no embed for non-link videos. */
  function FrameFor(parse: Parser, v: Video): (f: Frame)
    ensures v.videoSource != "link" ==> f == VideoTag(v.videoUrl)
    ensures f.VideoTag? ==> f.src == v.videoUrl
    ensures f.Iframe? ==> v.videoSource == "link" && GetEmbedUrl(parse, v.videoUrl) == Some(f.src)
    ensures v.videoSource == "link" && GetEmbedUrl(parse, v.videoUrl).Some? ==> f.Iframe?
  {
    var embed := if v.videoSource == "link" then GetEmbedUrl(parse, v.videoUrl) else None;
    if Truthy(embed) then Iframe(embed.value) else VideoTag(v.videoUrl)
  }
}
