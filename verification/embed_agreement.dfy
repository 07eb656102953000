/**
  Where the gallery's resolver (components/videos-list.tsx) and the
  homepage's resolver (components/featured-videos.tsx) agree, and the
  inputs on which they part ways.
 */
module EmbedAgreement {
  import opened JsValue
  import opened JsString
  import opened Url
  import opened VideoHosts
  import Gallery = GalleryEmbed
  import Featured = FeaturedEmbed

  /**
    For a YouTube link whose path has no video extension and no '?', and
    which is a short link or has neither `/shorts/` nor `/embed/` in its
    path, both resolvers produce the same embed URL; when the homepage
    gives none, the gallery gives none either (unless the host also looks
    like Vimeo, where the gallery falls through to its Vimeo check).
   */
  lemma YouTubeResolversAgree(parse: Parser, url: string)
    requires parse(url).Some?
    requires var u := parse(url).value;
             IsYouTubeHost(u.hostname) && '?' !in u.pathname && !Gallery.HasVideoExtension(u.pathname)
             && (IsShortLinkHost(u.hostname)
                 || (!Includes(u.pathname, "/shorts/") && !Includes(u.pathname, "/embed/")))
    ensures Featured.GetEmbedUrl(parse, url).Some? ==>
              Gallery.GetEmbedUrl(parse, url) == Gallery.Embedded(Featured.GetEmbedUrl(parse, url).value)
    ensures !IsVimeoHost(parse(url).value.hostname) ==>
              Gallery.GetEmbedUrl(parse, url).embedUrl == Featured.GetEmbedUrl(parse, url)
  {
    var u := parse(url).value;
    if IsShortLinkHost(u.hostname) {
      var rest := Slice1(u.pathname);
      assert '?' !in rest by {
        if |u.pathname| > 0 {
          assert u.pathname == [u.pathname[0]] + rest;
        }
      }
      NotIncludedWithoutFirstChar(rest, "?");
      SplitWithoutSeparator(rest, "?");
      assert Gallery.YouTubeId(u) == Some(rest);
    }
  }

  /** A short link whose path ends in a video extension plays directly in the gallery but is embedded on the homepage. */
  lemma ExtensionOnlyCountsInGallery(parse: Parser, url: string)
    requires parse(url).Some?
    requires var u := parse(url).value;
             Gallery.HasVideoExtension(u.pathname) && IsShortLinkHost(u.hostname) && Slice1(u.pathname) != ""
    ensures Gallery.GetEmbedUrl(parse, url) == Gallery.Direct(url)
    ensures Featured.GetEmbedUrl(parse, url) == Some(YouTubeEmbed(Slice1(parse(url).value.pathname)))
  {
  }

  /** A `/shorts/` link without a `v` parameter is embedded by the gallery only. */
  lemma ShortsOnlyResolvedInGallery(parse: Parser, url: string, host: string, id: string,
                                    q: seq<(string, string)>)
    requires parse(url) == Some(UrlParts(host, "/shorts/" + id, q))
    requires Includes(host, "youtube.com") && !IsShortLinkHost(host)
    requires IsVideoIdText(id) && SearchParam(q, "v").None?
    ensures Gallery.GetEmbedUrl(parse, url) == Gallery.Embedded(YouTubeEmbed(id))
    ensures Featured.GetEmbedUrl(parse, url).None?
  {
    Gallery.YouTubeUrlShapesAgree(url, "youtu.be", host, id, q, [("v", id)]) by {
      HostMatchIsBySubstring("", "");
      assert "" + "youtu.be" + "" == "youtu.be";
    }
  }

  /**
    On a Vimeo path the homepage embeds the FIRST segment, unchecked, while
    the gallery embeds the LAST segment and only when it is numeric; so a
    path such as /channels/staffpicks/123 (segments built by `SlashPath`, see
    `PathSegmentsOfSlashPath`) gives different players.
   */
  lemma VimeoSegmentChoiceDiffers(parse: Parser, url: string, u: UrlParts, segs: seq<string>)
    requires parse(url) == Some(u)
    requires IsVimeoHost(u.hostname) && !IsYouTubeHost(u.hostname)
    requires PathSegments(u.pathname) == segs && |segs| > 0
    requires !Gallery.HasVideoExtension(u.pathname)
    ensures Featured.GetEmbedUrl(parse, url) == Some(VimeoPlayer(segs[0]))
    ensures IsAsciiDigits(segs[|segs| - 1]) ==>
              Gallery.GetEmbedUrl(parse, url) == Gallery.Embedded(VimeoPlayer(segs[|segs| - 1]))
    ensures !IsAsciiDigits(segs[|segs| - 1]) ==>
              Gallery.GetEmbedUrl(parse, url) == Gallery.Failed(Gallery.UnsupportedMessage)
    ensures segs[0] != segs[|segs| - 1] ==>
              Gallery.GetEmbedUrl(parse, url).embedUrl != Featured.GetEmbedUrl(parse, url)
  {
    Gallery.VimeoNeedsNumericLastSegment(url, u);
    if segs[0] != segs[|segs| - 1] {
      assert VimeoPlayer(segs[0])[|VimeoPlayerBase|..] == segs[0];
      assert VimeoPlayer(segs[|segs| - 1])[|VimeoPlayerBase|..] == segs[|segs| - 1];
    }
  }
}
