/**
  The gallery list (components/videos-list.tsx): the search box's filter
  over videos, and what each card derives from its video: how the media is
  shown, whether the delete button appears, the like count and whether the
  viewer has liked it.
 */
module Gallery {
  import opened JsValue
  import opened JsString
  import opened Url
  import opened Records
  import opened GalleryEmbed
  import opened VideoHosts
  import AdminAllowlist

  /** `new Map(profiles.map(p => [p.user_id, p])).get(userId)`: the LAST profile with that user id. */
  function ProfileFor(profiles: seq<Profile>, userId: string): (r: Option<Profile>)
    ensures r.None? <==> forall k :: 0 <= k < |profiles| ==> profiles[k].userId != userId
    ensures r.Some? ==> exists k :: 0 <= k < |profiles| && profiles[k] == r.value && r.value.userId == userId
                                    && forall j :: k < j < |profiles| ==> profiles[j].userId != userId
    decreases |profiles|
  {
    if |profiles| == 0 then None
    else
      var n := |profiles| - 1;
      if profiles[n].userId == userId then Some(profiles[n])
      else
        var r := ProfileFor(profiles[..n], userId);
        assert r.Some? ==> exists k :: 0 <= k < |profiles| && profiles[k] == r.value && r.value.userId == userId
                                       && forall j :: k < j < |profiles| ==> profiles[j].userId != userId by {
          if r.Some? {
            var k :| 0 <= k < n && profiles[..n][k] == r.value && r.value.userId == userId
                     && forall j :: k < j < n ==> profiles[..n][j].userId != userId;
            assert profiles[k] == r.value;
            forall j | k < j < |profiles| ensures profiles[j].userId != userId {
              if j < n {
                assert profiles[..n][j] == profiles[j];
              }
            }
          }
        }
        assert r.None? ==> forall k :: 0 <= k < |profiles| ==> profiles[k].userId != userId by {
          if r.None? {
            forall k | 0 <= k < |profiles| ensures profiles[k].userId != userId {
              if k < n {
                assert profiles[..n][k] == profiles[k];
              }
            }
          }
        }
        r
  }

  /** `text?.toLowerCase().includes(query)` for an optional field. */
  predicate FieldMatches(text: Option<string>, query: string) {
    text.Some? && Includes(ToLower(text.value), query)
  }

  /** Title, description, uploader name or uploader bio contains the lowercased query. */
  predicate MatchesQuery(v: Video, profile: Option<Profile>, loweredQuery: string) {
    Includes(ToLower(v.title), loweredQuery)
    || FieldMatches(v.description, loweredQuery)
    || (profile.Some? && (Includes(ToLower(profile.value.displayName), loweredQuery)
                          || FieldMatches(profile.value.bio, loweredQuery)))
  }

  /** The filter's predicate: a blank query keeps everything; otherwise the untrimmed, lowercased query must match. */
  predicate Keeps(profiles: seq<Profile>, query: string, v: Video) {
    IsBlank(query) || MatchesQuery(v, ProfileFor(profiles, v.userId), ToLower(query))
  }

  /** `xs` is `ys` with some elements left out, the rest in their original order. */
  ghost predicate IsSubsequence<T>(xs: seq<T>, ys: seq<T>)
    decreases |ys|
  {
    |xs| == 0
    || (|ys| > 0 && ((xs[0] == ys[0] && IsSubsequence(xs[1..], ys[1..])) || IsSubsequence(xs, ys[1..])))
  }

  /** The search keeps every one of `videos`. */
  predicate AllKept(profiles: seq<Profile>, query: string, videos: seq<Video>) {
    forall k :: 0 <= k < |videos| ==> Keeps(profiles, query, videos[k])
  }

  /** `videos.filter(...)` with the search query. */
  function FilterVideos(videos: seq<Video>, profiles: seq<Profile>, query: string): (r: seq<Video>)
    ensures IsSubsequence(r, videos)
    ensures forall v :: v in r ==> v in videos && Keeps(profiles, query, v)
    ensures forall v :: v in videos && Keeps(profiles, query, v) ==> v in r
    decreases |videos|
  {
    if |videos| == 0 then []
    else
      var rest := FilterVideos(videos[1..], profiles, query);
      assert forall v :: v in videos <==> v == videos[0] || v in videos[1..];
      if Keeps(profiles, query, videos[0]) then [videos[0]] + rest else rest
  }

  /** The filter returns the list itself, duplicates and order included, exactly when it keeps every video. */
  lemma {:induction false} FilterKeepsWholeList(videos: seq<Video>, profiles: seq<Profile>, query: string)
    ensures AllKept(profiles, query, videos) <==> FilterVideos(videos, profiles, query) == videos
    decreases |videos|
  {
    var r := FilterVideos(videos, profiles, query);
    if r == videos {
      forall k | 0 <= k < |videos| ensures Keeps(profiles, query, videos[k]) {
        assert videos[k] in r;
      }
    }
    if AllKept(profiles, query, videos) && |videos| > 0 {
      var tail := videos[1..];
      forall k | 0 <= k < |tail| ensures Keeps(profiles, query, tail[k]) {
        assert tail[k] == videos[k + 1];
      }
      FilterKeepsWholeList(tail, profiles, query);
      assert Keeps(profiles, query, videos[0]);
      assert videos == [videos[0]] + tail;
    }
  }

  /** A query that is blank after trimming keeps the whole list. */
  lemma BlankQueryKeepsAll(videos: seq<Video>, profiles: seq<Profile>, query: string)
    requires IsBlank(query)
    ensures FilterVideos(videos, profiles, query) == videos
  {
    FilterKeepsWholeList(videos, profiles, query);
  }

  /** A text lacking some character of the query does not include the query. */
  lemma MissingCharExcludes(text: string, query: string, j: nat)
    requires j < |query| && query[j] !in text
    ensures !Includes(text, query)
  {
    forall i ensures !OccursAt(text, query, i) {
      if 0 <= i && i + |query| <= |text| {
        assert text[i..i + |query|][j] == text[i + j];
      }
    }
  }

  /**
    The query is lowercased but not trimmed: a query containing a space (a
    trailing one, say) cannot match a video whose only text has no space.
   */
  lemma QueryIsNotTrimmed(v: Video, profiles: seq<Profile>, query: string)
    requires !IsBlank(query) && ' ' in query
    requires ' ' !in v.title && v.description.None?
    requires forall k :: 0 <= k < |profiles| ==> profiles[k].userId != v.userId
    ensures FilterVideos([v], profiles, query) == []
  {
    assert !Keeps(profiles, query, v) by {
      var q := ToLower(query);
      var j :| 0 <= j < |query| && query[j] == ' ';
      assert q[j] == ' ';
      assert ' ' !in ToLower(v.title) by {
        forall k | 0 <= k < |v.title| ensures ToLower(v.title)[k] != ' ' {
          assert v.title[k] != ' ';
        }
      }
      MissingCharExcludes(ToLower(v.title), q, j);
      assert ProfileFor(profiles, v.userId).None?;
    }
    assert [v][1..] == [];
  }

  /** What a card shows and allows for one video. */
  datatype CardView = CardView(info: VideoInfo, canDelete: bool, likeCount: int, isLiked: bool)

  /** `userId && video.user_id === userId`: an absent or empty viewer id owns nothing. */
  predicate IsOwner(viewerId: Option<string>, v: Video) {
    Truthy(viewerId) && v.userId == viewerId.value
  }

  /** The per-card values computed at components/videos-list.tsx:149-156. */
  function CardFor(parse: Parser, v: Video, likeCounts: map<string, int>, userLikes: set<string>,
                   userIsAdmin: bool, viewerId: Option<string>): (c: CardView)
    ensures c.canDelete <==> userIsAdmin || IsOwner(viewerId, v)
    ensures v.id !in likeCounts ==> c.likeCount == 0
    ensures v.id in likeCounts ==> c.likeCount == likeCounts[v.id]
    ensures c.isLiked <==> v.id in userLikes
    ensures v.videoSource != "link" ==> c.info == Direct(v.videoUrl)
    ensures v.videoSource == "link" ==> c.info == GetEmbedUrl(parse, v.videoUrl)
  {
    var info := if v.videoSource == "link" then GetEmbedUrl(parse, v.videoUrl) else Direct(v.videoUrl);
    // `likeCountMap.get(video.id) || 0`: a missing entry, or a stored 0, shows as 0.
    var count := if v.id in likeCounts && likeCounts[v.id] != 0 then likeCounts[v.id] else 0;
    CardView(info, userIsAdmin || IsOwner(viewerId, v), count, v.id in userLikes)
  }

  /** How the card body renders its `VideoInfo`. */
  datatype Media = ErrorAlert(message: string) | Iframe(src: string) | Player(src: string) | Unavailable

  /** The chain of conditionals at components/videos-list.tsx:196-217. */
  function MediaFor(info: VideoInfo): (m: Media)
    ensures m.ErrorAlert? ==> info.error == Some(m.message)
    ensures m.Iframe? ==> info.embedUrl == Some(m.src) && !info.isDirectVideo
    ensures m.Player? ==> info.embedUrl == Some(m.src) && info.isDirectVideo
    ensures Truthy(info.error) ==> m == ErrorAlert(info.error.value)
    ensures !Truthy(info.error) && Truthy(info.embedUrl) ==>
              m == (if info.isDirectVideo then Player(info.embedUrl.value) else Iframe(info.embedUrl.value))
    ensures m == Unavailable <==> !Truthy(info.error) && !Truthy(info.embedUrl)
  {
    if Truthy(info.error) then ErrorAlert(info.error.value)
    else if Truthy(info.embedUrl) && !info.isDirectVideo then Iframe(info.embedUrl.value)
    else if Truthy(info.embedUrl) then Player(info.embedUrl.value)
    else Unavailable
  }

  /** An uploaded (non-link) video always plays its stored URL in a `<video>` tag, when that URL is non-empty. */
  lemma UploadedVideoPlaysStoredUrl(parse: Parser, v: Video, likeCounts: map<string, int>,
                                    userLikes: set<string>, userIsAdmin: bool, viewerId: Option<string>)
    requires v.videoSource != "link" && v.videoUrl != ""
    ensures MediaFor(CardFor(parse, v, likeCounts, userLikes, userIsAdmin, viewerId).info) == Player(v.videoUrl)
  {
  }

  /** A link that does not parse shows the "Invalid video URL" alert. */
  lemma UnparsableLinkShowsAlert(parse: Parser, v: Video)
    requires v.videoSource == "link" && parse(v.videoUrl).None?
    ensures MediaFor(GetEmbedUrl(parse, v.videoUrl)) == ErrorAlert(InvalidUrlMessage)
  {
  }

  /**
    A non-empty stored link never leaves a card blank: the card shows an
    alert exactly when the resolver reported an error, plays the file
    exactly when the resolver called it a direct video, and otherwise
    frames the player URL.
   */
  lemma LinkMediaIsNeverBlank(parse: Parser, url: string)
    requires url != ""
    ensures var info := GetEmbedUrl(parse, url);
            var m := MediaFor(info);
            m != Unavailable
            && (m.ErrorAlert? <==> info.error.Some?)
            && (m.Player? <==> info.isDirectVideo)
            && (m.Iframe? <==> info.embedUrl.Some? && !info.isDirectVideo)
  {
    var info := GetEmbedUrl(parse, url);
    if info.error.Some? {
      assert info.error.value != "";
    } else if !info.isDirectVideo {
      var id :| id != "" && (info.embedUrl.value == YouTubeEmbed(id)
                             || (info.embedUrl.value == VimeoPlayer(id) && IsAsciiDigits(id)));
      assert info.embedUrl.value != "" by {
        if info.embedUrl.value == YouTubeEmbed(id) {
          assert |YouTubeEmbed(id)| > |id|;
        } else {
          assert |VimeoPlayer(id)| > |id|;
        }
      }
    }
  }

  /**
    Delete authorisation on the list: a viewer who is on the allowlist (in
    any letter case, with any surrounding spaces) may delete every video;
    one who is neither on it nor the owner may not.
   */
  lemma DeleteButtonFollowsAllowlistAndOwnership(parse: Parser, v: Video, likeCounts: map<string, int>,
                                                 userLikes: set<string>, viewer: AuthUser,
                                                 setting: Option<string>)
    ensures var isAdmin := AdminAllowlist.IsAdmin(Some(viewer), viewer.id, setting);
            var c := CardFor(parse, v, likeCounts, userLikes, isAdmin, OrNull(Some(viewer.id)));
            c.canDelete <==> isAdmin || (viewer.id != "" && viewer.id == v.userId)
    ensures var isAdmin := AdminAllowlist.IsAdmin(Some(viewer), viewer.id, setting);
            isAdmin <==> AdminAllowlist.ListedIgnoringCase(setting, AdminAllowlist.LoweredEmail(viewer.email))
  {
  }
}
