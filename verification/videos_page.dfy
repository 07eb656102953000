/**
  The videos page (app/videos/page.tsx), a server component: it reads the
  signed-in user, the videos, their uploaders' profiles and the like rows,
  and hands the gallery a like-count map, the set of videos the viewer has
  liked, the admin flag and the viewer's id. The backend's tables are
  passed in as sequences of rows; a query the page narrows with `.in(…)`
  or `.eq(…)` is modelled as the corresponding filter.
 */
module VideosPage {
  import opened JsValue
  import opened Records
  import AdminAllowlist
  import Gallery
  import Url

  /** A row of the `video_likes` table. */
  datatype Like = Like(videoId: string, userId: string)

  /** `videos?.map(v => v.id) || []`: no ids when the query returned no data. */
  function IdsOf(videos: Option<seq<Video>>): (ids: seq<string>)
    ensures videos.None? ==> ids == []
    ensures videos.Some? ==> |ids| == |videos.value|
    ensures videos.Some? ==> forall i :: 0 <= i < |ids| ==> ids[i] == videos.value[i].id
  {
    if videos.None? then []
    else seq(|videos.value|, i requires 0 <= i < |videos.value| => videos.value[i].id)
  }

  /** `videos?.map(v => v.user_id) || []`. */
  function UploadersOf(videos: Option<seq<Video>>): (ids: seq<string>)
    ensures videos.None? ==> ids == []
    ensures videos.Some? ==> |ids| == |videos.value|
    ensures videos.Some? ==> forall i :: 0 <= i < |ids| ==> ids[i] == videos.value[i].userId
  {
    if videos.None? then []
    else seq(|videos.value|, i requires 0 <= i < |videos.value| => videos.value[i].userId)
  }

  /** Reference count: how many like rows name the video. */
  function Tally(likes: seq<Like>, videoId: string): nat
    decreases |likes|
  {
    if |likes| == 0 then 0
    else
      var n := |likes| - 1;
      Tally(likes[..n], videoId) + (if likes[n].videoId == videoId then 1 else 0)
  }

  /** `from("video_likes").select("video_id").in("video_id", videoIds)`: the video ids of the like rows for listed videos. */
  function LikesOf(likes: seq<Like>, videoIds: seq<string>): (rows: seq<string>)
    ensures |rows| <= |likes|
    ensures forall k :: 0 <= k < |rows| ==> rows[k] in videoIds
    decreases |likes|
  {
    if |likes| == 0 then []
    else
      var n := |likes| - 1;
      LikesOf(likes[..n], videoIds) + (if likes[n].videoId in videoIds then [likes[n].videoId] else [])
  }

  /** For a listed video, the selected rows name it exactly as often as the table does. */
  lemma {:induction false} LikesOfKeepsCounts(likes: seq<Like>, videoIds: seq<string>, videoId: string)
    requires videoId in videoIds
    ensures multiset(LikesOf(likes, videoIds))[videoId] == Tally(likes, videoId)
    decreases |likes|
  {
    if |likes| > 0 {
      LikesOfKeepsCounts(likes[..|likes| - 1], videoIds, videoId);
    }
  }

  /**
    The `forEach` at app/videos/page.tsx:41-44, over the selected rows in
    order: `set(id, (get(id) || 0) + 1)`. Every id present maps to the
    number of rows naming it, and only ids of some row are present.
   */
  function CountLikes(rows: seq<string>): (m: map<string, int>)
    ensures forall id :: id in m <==> id in rows
    ensures forall id :: id in m ==> m[id] == multiset(rows)[id]
    decreases |rows|
  {
    if |rows| == 0 then map[]
    else
      var n := |rows| - 1;
      var before := CountLikes(rows[..n]);
      var id := rows[n];
      assert rows == rows[..n] + [id];
      before[id := (if id in before && before[id] != 0 then before[id] else 0) + 1]
  }

  /** No key is listed twice. */
  ghost predicate Distinct(keys: seq<string>) {
    forall i, j :: 0 <= i < j < |keys| ==> keys[i] != keys[j]
  }

  /** The sum of the map's counts over a list of keys, a missing key adding 0. */
  function CountsOver(m: map<string, int>, keys: seq<string>): int
    decreases |keys|
  {
    if |keys| == 0 then 0
    else (if keys[0] in m then m[keys[0]] else 0) + CountsOver(m, keys[1..])
  }

  /** The sum of a multiset's multiplicities over a list of keys. */
  ghost function MultiplicityOver(ms: multiset<string>, keys: seq<string>): int
    decreases |keys|
  {
    if |keys| == 0 then 0 else ms[keys[0]] + MultiplicityOver(ms, keys[1..])
  }

  /** How often `id` appears in `keys`. */
  ghost function Hits(id: string, keys: seq<string>): nat
    decreases |keys|
  {
    if |keys| == 0 then 0 else (if keys[0] == id then 1 else 0) + Hits(id, keys[1..])
  }

  lemma {:induction false} CountsAreMultiplicities(rows: seq<string>, keys: seq<string>)
    ensures CountsOver(CountLikes(rows), keys) == MultiplicityOver(multiset(rows), keys)
    decreases |keys|
  {
    if |keys| > 0 {
      CountsAreMultiplicities(rows, keys[1..]);
    }
  }

  lemma {:induction false} MultiplicityOverAdd(ms: multiset<string>, id: string, keys: seq<string>)
    ensures MultiplicityOver(ms + multiset{id}, keys) == MultiplicityOver(ms, keys) + Hits(id, keys)
    decreases |keys|
  {
    if |keys| > 0 {
      MultiplicityOverAdd(ms, id, keys[1..]);
    }
  }

  lemma {:induction false} DistinctHits(id: string, keys: seq<string>)
    requires Distinct(keys)
    ensures Hits(id, keys) == (if id in keys then 1 else 0)
    decreases |keys|
  {
    if |keys| > 0 {
      DistinctHits(id, keys[1..]);
      assert id in keys <==> keys[0] == id || id in keys[1..];
      if keys[0] == id {
        forall k | 0 <= k < |keys[1..]| ensures keys[1..][k] != id {
          assert keys[1..][k] == keys[k + 1];
        }
      }
    }
  }

  lemma {:induction false} MultiplicitiesSumToLength(rows: seq<string>, keys: seq<string>)
    requires Distinct(keys)
    requires forall k :: 0 <= k < |rows| ==> rows[k] in keys
    ensures MultiplicityOver(multiset(rows), keys) == |rows|
    decreases |rows|
  {
    if |rows| == 0 {
      EmptyMultiplicity(keys);
    } else {
      var n := |rows| - 1;
      assert rows == rows[..n] + [rows[n]];
      MultiplicitiesSumToLength(rows[..n], keys);
      MultiplicityOverAdd(multiset(rows[..n]), rows[n], keys);
      DistinctHits(rows[n], keys);
    }
  }

  lemma {:induction false} EmptyMultiplicity(keys: seq<string>)
    ensures MultiplicityOver(multiset{}, keys) == 0
    decreases |keys|
  {
    if |keys| > 0 {
      EmptyMultiplicity(keys[1..]);
    }
  }

  /**
    Summing the like-count map over any duplicate-free enumeration of its
    ids gives the number of like rows fetched.
   */
  lemma SumOfCountsIsRowCount(rows: seq<string>, keys: seq<string>)
    requires Distinct(keys)
    requires forall id :: id in CountLikes(rows) <==> id in keys
    ensures CountsOver(CountLikes(rows), keys) == |rows|
  {
    CountsAreMultiplicities(rows, keys);
    MultiplicitiesSumToLength(rows, keys);
  }

  /** `from("video_likes").select("video_id").eq("user_id", userId).in("video_id", videoIds)`. */
  function LikesBy(likes: seq<Like>, userId: string, videoIds: seq<string>): (rows: seq<string>)
    ensures forall id :: id in rows <==>
              id in videoIds && exists k :: 0 <= k < |likes| && likes[k] == Like(id, userId)
    decreases |likes|
  {
    if |likes| == 0 then []
    else
      var n := |likes| - 1;
      var before := LikesBy(likes[..n], userId, videoIds);
      var own := likes[n].userId == userId && likes[n].videoId in videoIds;
      var rows := before + (if own then [likes[n].videoId] else []);
      assert forall id :: id in rows <==>
               id in videoIds && exists k :: 0 <= k < |likes| && likes[k] == Like(id, userId) by {
        forall id
          ensures id in rows <==>
                    id in videoIds && exists k :: 0 <= k < |likes| && likes[k] == Like(id, userId)
        {
          if id in before {
            var k :| 0 <= k < n && likes[..n][k] == Like(id, userId);
            assert likes[k] == Like(id, userId);
          }
          if id in videoIds && (exists k :: 0 <= k < |likes| && likes[k] == Like(id, userId)) {
            var k :| 0 <= k < |likes| && likes[k] == Like(id, userId);
            if k < n {
              assert likes[..n][k] == Like(id, userId);
            }
          }
        }
      }
      rows
  }

  /** `from("profiles").select("*").in("user_id", userIds)`: the profiles of the listed uploaders, in table order. */
  function ProfilesOf(profiles: seq<Profile>, userIds: seq<string>): (r: seq<Profile>)
    ensures |r| <= |profiles|
    ensures forall k :: 0 <= k < |r| ==> r[k].userId in userIds
    decreases |profiles|
  {
    if |profiles| == 0 then []
    else
      var n := |profiles| - 1;
      ProfilesOf(profiles[..n], userIds) + (if profiles[n].userId in userIds then [profiles[n]] else [])
  }

  /**
    Narrowing the profiles to the uploaders loses nothing the gallery looks
    up: for every uploader, the card finds the same profile as it would in
    the whole table.
   */
  lemma {:induction false} UploaderProfileUnchanged(profiles: seq<Profile>, userIds: seq<string>, userId: string)
    requires userId in userIds
    ensures Gallery.ProfileFor(ProfilesOf(profiles, userIds), userId) == Gallery.ProfileFor(profiles, userId)
    decreases |profiles|
  {
    if |profiles| > 0 {
      var n := |profiles| - 1;
      var last := profiles[n];
      var before := ProfilesOf(profiles[..n], userIds);
      var whole := Gallery.ProfileFor(profiles, userId);
      assert whole == if last.userId == userId then Some(last) else Gallery.ProfileFor(profiles[..n], userId);
      assert Gallery.ProfileFor(before, userId) == Gallery.ProfileFor(profiles[..n], userId) by {
        UploaderProfileUnchanged(profiles[..n], userIds, userId);
      }
      if last.userId in userIds {
        assert ProfilesOf(profiles, userIds) == before + [last];
        assert Gallery.ProfileFor(before + [last], userId)
               == if last.userId == userId then Some(last) else Gallery.ProfileFor(before, userId) by {
          ProfileForAppend(before, last, userId);
        }
      } else {
        assert ProfilesOf(profiles, userIds) == before;
        assert last.userId != userId;
      }
    }
  }

  /** Looking up in a table with one more row at the end: that row wins when it matches. */
  lemma ProfileForAppend(rows: seq<Profile>, last: Profile, userId: string)
    ensures Gallery.ProfileFor(rows + [last], userId)
            == if last.userId == userId then Some(last) else Gallery.ProfileFor(rows, userId)
  {
    var all := rows + [last];
    assert all[|all| - 1] == last;
    assert all[..|all| - 1] == rows;
  }

  /** What the page passes to the gallery besides the videos and profiles. */
  datatype PageData = PageData(
    likeCountMap: map<string, int>,
    userLikesSet: set<string>,
    userIsAdmin: bool,
    viewerId: Option<string>,
    isAuthenticated: bool)

  /**
    The data computed at app/videos/page.tsx:18 and 26-46: the admin flag
    only for a signed-in user, the like counts over the listed videos, the
    viewer's own likes only when signed in, and `user?.id || null`.
   */
  function LoadPage(user: Option<AuthUser>, videos: Option<seq<Video>>, likes: seq<Like>,
                    setting: Option<string>): (p: PageData)
    ensures p.userIsAdmin <==>
              user.Some? && AdminAllowlist.ListedIgnoringCase(setting, AdminAllowlist.LoweredEmail(user.value.email))
    ensures forall id :: id in p.likeCountMap ==> id in IdsOf(videos) && p.likeCountMap[id] >= 1
    ensures user.None? ==> p.userLikesSet == {} && p.viewerId.None? && !p.isAuthenticated
    ensures user.Some? ==> p.isAuthenticated && p.viewerId == OrNull(Some(user.value.id))
    ensures forall id :: id in p.userLikesSet ==> id in IdsOf(videos)
  {
    var ids := IdsOf(videos);
    var isAdmin := if user.Some? then AdminAllowlist.IsAdmin(user, user.value.id, setting) else false;
    var counts := CountLikes(LikesOf(likes, ids));
    var own := if user.Some? then LikesBy(likes, user.value.id, ids) else [];
    var likedSet := set id | id in own;
    var viewerId := if user.Some? then OrNull(Some(user.value.id)) else None;
    PageData(counts, likedSet, isAdmin, viewerId, user.Some?)
  }

  /** The count map's entry for a listed video is its number of like rows, and absent exactly when there are none. */
  lemma StoredCountIsTally(likes: seq<Like>, ids: seq<string>, vid: string)
    requires vid in ids
    ensures var m := CountLikes(LikesOf(likes, ids));
            (vid in m ==> m[vid] == Tally(likes, vid) && m[vid] != 0) && (vid !in m ==> Tally(likes, vid) == 0)
  {
    var rows := LikesOf(likes, ids);
    LikesOfKeepsCounts(likes, ids, vid);
    assert vid in CountLikes(rows) <==> vid in multiset(rows);
  }

  /** Each card of the listing shows the number of like rows for its video. */
  lemma CardShowsStoredCount(parse: Url.Parser, user: Option<AuthUser>, videos: seq<Video>, likes: seq<Like>,
                             setting: Option<string>, i: nat)
    requires i < |videos|
    ensures var p := LoadPage(user, Some(videos), likes, setting);
            Gallery.CardFor(parse, videos[i], p.likeCountMap, p.userLikesSet, p.userIsAdmin, p.viewerId).likeCount
            == Tally(likes, videos[i].id)
  {
    var ids := IdsOf(Some(videos));
    var vid := videos[i].id;
    assert vid in ids by { assert ids[i] == vid; }
    assert LoadPage(user, Some(videos), likes, setting).likeCountMap == CountLikes(LikesOf(likes, ids));
    StoredCountIsTally(likes, ids, vid);
  }

  /** Each card is marked liked exactly when the signed-in viewer has a like row for its video. */
  lemma CardShowsOwnLike(parse: Url.Parser, user: Option<AuthUser>, videos: seq<Video>, likes: seq<Like>,
                         setting: Option<string>, i: nat)
    requires i < |videos|
    ensures var p := LoadPage(user, Some(videos), likes, setting);
            Gallery.CardFor(parse, videos[i], p.likeCountMap, p.userLikesSet, p.userIsAdmin, p.viewerId).isLiked
            <==> user.Some? && exists k :: 0 <= k < |likes| && likes[k] == Like(videos[i].id, user.value.id)
  {
    var ids := IdsOf(Some(videos));
    assert videos[i].id in ids by { assert ids[i] == videos[i].id; }
    var p := LoadPage(user, Some(videos), likes, setting);
    assert user.Some? ==> (videos[i].id in p.userLikesSet <==> videos[i].id in LikesBy(likes, user.value.id, ids));
  }

  /**
    Each card offers delete exactly to a signed-in viewer who is on the
    allowlist, in any letter case, or who uploaded the video under a
    non-empty user id.
   */
  lemma CardDeleteFollowsViewer(parse: Url.Parser, user: Option<AuthUser>, videos: seq<Video>, likes: seq<Like>,
                                setting: Option<string>, i: nat)
    requires i < |videos|
    ensures var p := LoadPage(user, Some(videos), likes, setting);
            Gallery.CardFor(parse, videos[i], p.likeCountMap, p.userLikesSet, p.userIsAdmin, p.viewerId).canDelete
            <==> user.Some?
                 && (AdminAllowlist.ListedIgnoringCase(setting, AdminAllowlist.LoweredEmail(user.value.email))
                     || (user.value.id != "" && videos[i].userId == user.value.id))
  {
    var p := LoadPage(user, Some(videos), likes, setting);
    assert Gallery.IsOwner(p.viewerId, videos[i]) <==> user.Some? && user.value.id != "" && videos[i].userId == user.value.id;
  }
}
