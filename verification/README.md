# Purelypos decision logic in Dafny

Purelypos is a Next.js site where people share short, positive videos.
Each video is either uploaded to blob storage or given as a YouTube or Vimeo link.
Visitors browse a gallery, search it, like videos, and sign up with a profile.
Admins, listed by e-mail in the `ADMIN_EMAILS` setting, may delete any video.

This project models the pure decisions inside those pages and route handlers.
Every backend call is an input: the signed-in user, the database's answer or error, the blob store's URL, and the outcome of a `fetch`.
The model covers:

- the two embed resolvers:
  - the gallery's `getEmbedUrl`, which chooses direct play, a canonical YouTube or Vimeo iframe, or an error message;
  - the homepage's simpler variant;
  - where the two agree and where they differ.
- the gallery's search filter and, per card, the like count, the liked flag, the delete permission and the media shown;
- the admin allowlist, in two versions:
  - `isAdmin`, which is trimmed and case-insensitive;
  - the admin-setup page, which is trimmed and case-sensitive.
- the videos page: the like-count map, the viewer's liked set, and the profiles handed to the gallery;
- the like button, as a state machine over `(likeCount, isLiked, isLoading)`;
- the upload form and the upload route, and how the form's checks relate to the route's;
- the sign-up form and the profile route (`POST` creates a profile, `PUT` updates it).

JavaScript's own operations are modelled over `seq<char>` in `JsString`:

- `trim` with the ECMAScript whitespace set;
- `toLowerCase`;
- `includes` and `indexOf`;
- `split` with a non-empty separator, and `filter(Boolean)`.

`JsValue` models truthiness, `x || fallback` and `x || null`.
`new URL(...)` (the WHATWG URL Standard, section 4.4 "URL parsing") is a parameter of type `Url.Parser`.
That parameter returns the hostname, the pathname and the ordered query pairs, or None when the constructor throws.

Module layout, one file each:

| module | file |
|---|---|
| `JsValue` | js_value.dfy |
| `JsString` | js_string.dfy |
| `Url` | url.dfy |
| `Records` | records.dfy |
| `VideoHosts` | video_hosts.dfy |
| `GalleryEmbed` | gallery_embed.dfy |
| `FeaturedEmbed` | featured_embed.dfy |
| `EmbedAgreement` | embed_agreement.dfy |
| `Gallery` | gallery.dfy |
| `AdminAllowlist` | admin_allowlist.dfy |
| `VideosPage` | videos_page.dfy |
| `ThumbsUp` | thumbs_up.dfy |
| `UploadPage` | upload_page.dfy |
| `UploadRoute` | upload_route.dfy |
| `SignUp` | sign_up.dfy |
| `ProfileRoute` | profile_route.dfy |

## Model

| member | source | states |
|---|---|---|
| `GalleryEmbed.GetEmbedUrl` | components/videos-list.tsx:42-94 | A link that does not parse gives exactly the "Invalid video URL" error. A result has an embed URL exactly when it has no error, and any error is one of the two fixed messages. A parsed link plays directly exactly when its path ends in a video extension, in any letter case, whatever its host; it then returns the original URL unchanged. Any iframe URL is the YouTube embed of a non-empty id, or the Vimeo player of an all-digit id. |
| `GalleryEmbed.NoDotNoExtension` | components/videos-list.tsx:47-49 | A pathname without a '.' never counts as a video file. |
| `GalleryEmbed.UpperCaseExtensionIsDirect` | components/videos-list.tsx:47-51 | The extension test lowercases the path. A path ending in ".MP4" plays directly with the original URL, whatever the host. |
| `GalleryEmbed.EmbedPathHasNoShortsMarker` | components/videos-list.tsx:59-62 | An `/embed/<id>` path is not caught by the earlier `/shorts/` branch. |
| `GalleryEmbed.AfterLeadingMarker` | components/videos-list.tsx:60-62 | For a path that is the marker followed by an id, `split(marker)[1]?.split("?")[0]` gives back the id. |
| `GalleryEmbed.ShortLinkShape` | components/videos-list.tsx:57-68 | A `youtu.be/<id>` link embeds `https://www.youtube.com/embed/<id>`. |
| `GalleryEmbed.ShortsShape` | components/videos-list.tsx:59-68 | A `/shorts/<id>` path on a YouTube host embeds the id. |
| `GalleryEmbed.EmbedShape` | components/videos-list.tsx:61-68 | An `/embed/<id>` path on a YouTube host embeds the id. |
| `GalleryEmbed.WatchShape` | components/videos-list.tsx:63-68 | A `/watch` URL whose `v` parameter is a non-empty id embeds that id. |
| `GalleryEmbed.YouTubeUrlShapesAgree` | components/videos-list.tsx:54-69 | The four YouTube URL shapes carrying the same id all give the same embed URL. |
| `GalleryEmbed.YouTubeWithoutIdIsNotEmbedded` | components/videos-list.tsx:54-86 | A YouTube-host link with an empty or missing id never becomes a YouTube embed. It falls through to the Vimeo check, and otherwise to the "not supported" error. |
| `GalleryEmbed.VimeoNeedsNumericLastSegment` | components/videos-list.tsx:73-86 | On a Vimeo host, an embed is produced exactly when the last non-empty path segment is all ASCII digits. The player URL then uses that segment, and otherwise the result is the "not supported" error. |
| `GalleryEmbed.VimeoTrailingNumberIsTheId` | components/videos-list.tsx:73-79 | For a Vimeo path `/a/b/.../123`, the player uses the trailing number, whatever comes before it. |
| `FeaturedEmbed.GetEmbedUrl` | components/featured-videos.tsx:8-28 | A link that does not parse gives null. On a short-link host the id is the path without its leading character; on another YouTube host it is the first `v` parameter. A non-empty id gives that id's YouTube embed, and a missing or empty one gives null without trying Vimeo. A Vimeo host that is not a YouTube host gives the player of the first non-empty path segment, or null when the path has none. Any other host gives null. |
| `FeaturedEmbed.FrameFor` | components/featured-videos.tsx:57-96 | A non-link video is always a `<video>` tag on its stored URL. An iframe appears exactly for a link video whose resolver gives a URL, and uses that URL. |
| `EmbedAgreement.YouTubeResolversAgree` | components/featured-videos.tsx:13-16 | Two kinds of YouTube link get the same embed URL from both resolvers, provided the path has no video extension and no '?': a short link, or a link whose path has neither `/shorts/` nor `/embed/`. When the homepage gives none, the gallery gives none either, unless the host also contains "vimeo.com". |
| `EmbedAgreement.ExtensionOnlyCountsInGallery` | components/videos-list.tsx:47-51 | A short link whose path ends in a video extension plays directly in the gallery, but the homepage embeds it as a YouTube id. |
| `EmbedAgreement.ShortsOnlyResolvedInGallery` | components/featured-videos.tsx:13-15 | A `/shorts/<id>` link without a `v` parameter is embedded by the gallery and gets null on the homepage. |
| `EmbedAgreement.VimeoSegmentChoiceDiffers` | components/featured-videos.tsx:19-22 | The homepage embeds the first Vimeo path segment, unchecked. The gallery embeds the last one, and only when it is numeric. When the two segments differ, so do the players. |
| `VideoHosts.PathSegments` | components/videos-list.tsx:74 | `pathname.split("/").filter(Boolean)` yields only non-empty pieces with no '/'. |
| `VideoHosts.PathSegmentsOfSlashPath` | components/videos-list.tsx:74 | Splitting a path built as `/s1/s2/...` recovers exactly its segments: `split` inverts the path construction. |
| `VideoHosts.BeforeQueryIsLongestPlainPrefix` | components/videos-list.tsx:58 | `split("?")[0]` is a prefix with no '?', followed by a '?' or by the end of the string. |
| `VideoHosts.HostMatchIsBySubstring` | components/videos-list.tsx:54-73 | Any hostname that contains "youtube.com", "youtu.be" or "vimeo.com" anywhere takes that host's branch. |
| `Url.SearchParam` | components/videos-list.tsx:64 | `searchParams.get(name)` is absent exactly when no pair has that name. Otherwise it is the value of the first such pair. |
| `JsString.BlankIffAllWhitespace` | components/videos-list.tsx:112 | `!s.trim()` holds exactly when every character of `s` is whitespace. |
| `JsString.TrimPadded` | lib/supabase/is-admin.ts:13 | `trim` removes exactly the whitespace padding around a core that has no whitespace at either end. |
| `JsString.SplitJoin` | lib/supabase/is-admin.ts:13 | Joining the pieces of `split(sep)` with `sep` gives back the string. |
| `Gallery.ProfileFor` | components/videos-list.tsx:108-115 | The `Map` built from the profiles returns the last profile with that user id, or nothing when no profile has it. |
| `Gallery.FilterVideos` | components/videos-list.tsx:111-124 | The filtered list is a subsequence of the videos, in the same order. It contains exactly the videos the predicate keeps: a blank query, or the lowercased, untrimmed query found in the lowercased title, description, uploader name or uploader bio. |
| `Gallery.FilterKeepsWholeList` | components/videos-list.tsx:111-124 | The filtered list equals the original list, with its duplicates and order, exactly when the predicate keeps every video. |
| `Gallery.BlankQueryKeepsAll` | components/videos-list.tsx:112 | A query that is blank after trimming keeps the whole list unchanged. |
| `Gallery.QueryIsNotTrimmed` | components/videos-list.tsx:112-119 | The query is only lowercased, not trimmed, so a query with a space cannot match a video whose only text has no space. |
| `Gallery.CardFor` | components/videos-list.tsx:149-156 | Delete is allowed exactly for admins and the owner, where an absent or empty viewer id owns nothing. A missing (or zero) like-count entry shows as 0. The liked flag is membership in the viewer's set. Non-link videos play their stored URL directly. |
| `Gallery.MediaFor` | components/videos-list.tsx:196-217 | A truthy error always shows an alert with that error, before anything else is looked at. Without one, a truthy embed URL shows an iframe when it is not a direct video and the `<video>` player when it is. The "unavailable" message appears exactly when neither the error nor the embed URL is truthy. An iframe or player shows the resolver's URL, and an alert its error. |
| `Gallery.LinkMediaIsNeverBlank` | components/videos-list.tsx:196-217 | For a non-empty stored link, the card never shows "unavailable". It shows an alert exactly when the resolver reports an error, the `<video>` player exactly when the resolver calls it a direct video, and an iframe exactly when the resolver gives a non-direct embed URL. |
| `Gallery.UploadedVideoPlaysStoredUrl` | components/videos-list.tsx:149-152 | An uploaded video with a non-empty stored URL always renders as a `<video>` player on that URL. |
| `Gallery.UnparsableLinkShowsAlert` | components/videos-list.tsx:196-200 | A link that does not parse renders the "Invalid video URL" alert. |
| `Gallery.DeleteButtonFollowsAllowlistAndOwnership` | components/videos-list.tsx:153-154 | For a signed-in viewer, delete is shown exactly when the viewer is on the allowlist (any case, any padding) or owns the video. |
| `AdminAllowlist.RawEntries` | lib/supabase/is-admin.ts:13 | An absent setting has no entries. A present one has at least one entry, no entry contains a comma, and the entries joined with "," give back the setting. |
| `AdminAllowlist.NormalisedEntries` | lib/supabase/is-admin.ts:13 | Each entry is the matching raw entry, trimmed and then lowercased. |
| `AdminAllowlist.TrimmedEntries` | app/admin-setup/page.tsx:17 | Each entry is the matching raw entry, trimmed only. |
| `AdminAllowlist.IsAdmin` | lib/supabase/is-admin.ts:10-14 | The answer is false without a user, or when the user is someone else. Otherwise it holds exactly when some entry, trimmed and lowercased, equals the user's lowercased e-mail, or "" when the user has none. |
| `AdminAllowlist.SetupStatus` | app/admin-setup/page.tsx:13-18 | There is no status without a user. Otherwise the user is an admin exactly when some trimmed entry equals `user.email` (or "") exactly. |
| `AdminAllowlist.AbsentSettingAdmitsNoOne` | lib/supabase/is-admin.ts:13-14 | Without `ADMIN_EMAILS` nobody is an admin, by either check. |
| `AdminAllowlist.LoweredEmailOfDefault` | lib/supabase/is-admin.ts:14 | The lowercased optional e-mail, defaulting to "", is the lowercase of the e-mail defaulting to "". |
| `AdminAllowlist.SetupAdminIsAdmin` | app/admin-setup/page.tsx:17-18 | Whoever the admin-setup page calls an admin, `isAdmin` also does. |
| `AdminAllowlist.SingleEntry` | lib/supabase/is-admin.ts:13 | A setting with no comma is a single entry. |
| `AdminAllowlist.SingleEntryChecks` | lib/supabase/is-admin.ts:13-14 | With a single entry, `isAdmin` compares lowercased text, while the setup page compares the trimmed entry exactly. |
| `AdminAllowlist.CaseOnlyMatchIsNotASetupAdmin` | app/admin-setup/page.tsx:17-18 | An entry that differs from the e-mail only in letter case is admitted by `isAdmin` but not by the setup page. So the converse of `SetupAdminIsAdmin` fails. |
| `AdminAllowlist.SubstringOfEntryIsNotListed` | lib/supabase/is-admin.ts:14 | Membership is exact equality: an e-mail that is a strict part of an entry is not admitted. |
| `AdminAllowlist.PaddedEntryMatchesAnyCase` | lib/supabase/is-admin.ts:13-14 | Whitespace around an entry and letter case on either side make no difference to `isAdmin`. |
| `AdminAllowlist.TrailingSeparatorLeavesEmptyPiece` | lib/supabase/is-admin.ts:13 | Splitting a string that ends in the separator leaves an empty last piece. |
| `AdminAllowlist.EmptyEntryAdmitsUsersWithoutEmail` | lib/supabase/is-admin.ts:13-14 | An empty entry makes every user without an e-mail an admin under both checks. |
| `AdminAllowlist.TrailingCommaGivesEmptyEntry` | lib/supabase/is-admin.ts:13 | A setting ending in "," has an empty (blank) last entry. |
| `VideosPage.IdsOf` | app/videos/page.tsx:26 | There are no ids when the query returned no data. Otherwise the ids are the videos' ids, position by position. |
| `VideosPage.UploadersOf` | app/videos/page.tsx:27 | There are no uploader ids when the query returned no data. Otherwise they are the videos' `user_id`s, position by position. |
| `VideosPage.LikesOf` | app/videos/page.tsx:33 | The like rows selected are no more than the table's rows, and each names a listed video. |
| `VideosPage.LikesOfKeepsCounts` | app/videos/page.tsx:33 | For a listed video, the selected rows name it exactly as often as the table does, per the reference count `Tally`. |
| `VideosPage.CountLikes` | app/videos/page.tsx:41-44 | The map has an entry exactly for the ids among the rows, and each entry is the number of rows naming that id. |
| `VideosPage.SumOfCountsIsRowCount` | app/videos/page.tsx:41-44 | Summing the map over any duplicate-free list of its ids gives the number of rows fetched. |
| `VideosPage.LikesBy` | app/videos/page.tsx:36-38 | An id is among the viewer's rows exactly when it is listed and the table has a like row for it by that viewer. |
| `VideosPage.ProfilesOf` | app/videos/page.tsx:30 | The profiles selected are no more than the table's rows, and each belongs to a listed uploader. |
| `VideosPage.UploaderProfileUnchanged` | app/videos/page.tsx:30 | For every uploader, the profile the gallery finds among the selected profiles is the one it would find in the whole table. |
| `VideosPage.ProfileForAppend` | components/videos-list.tsx:108 | Adding a profile row at the end of the table makes it the one found for its user and changes nothing for other users. |
| `VideosPage.LoadPage` | app/videos/page.tsx:18-46 | The admin flag holds exactly for a signed-in user who is on the allowlist. Every count is at least 1 and belongs to a listed video. Without a user, the liked set is empty, there is no viewer id, and the page is not authenticated. A signed-in user is authenticated, and the viewer id is the user's id, or none when that id is empty. Liked ids are listed videos. |
| `VideosPage.StoredCountIsTally` | app/videos/page.tsx:41-44 | For a listed video, the map entry equals its number of like rows and is never 0. The entry is absent exactly when there are none. |
| `VideosPage.CardShowsStoredCount` | app/videos/page.tsx:41-44 | End to end, each card shows the number of like rows stored for its video. |
| `VideosPage.CardShowsOwnLike` | app/videos/page.tsx:36-46 | End to end, a card is marked liked exactly when the signed-in viewer has a like row for its video. |
| `VideosPage.CardDeleteFollowsViewer` | app/videos/page.tsx:18-95 | End to end, a card offers delete exactly to a signed-in viewer who is on the allowlist in any letter case, or who uploaded the video under a non-empty user id. |
| `ThumbsUp.Initial` | components/thumbs-up-button.tsx:16-18 | A freshly mounted button shows the like count and liked state it was given as props, and is not loading. |
| `ThumbsUp.Press` | components/thumbs-up-button.tsx:21-32 | A press while disabled does nothing. A signed-out press redirects to login and leaves the state untouched. Otherwise the like request is sent and only the loading flag changes. |
| `ThumbsUp.Settle` | components/thumbs-up-button.tsx:34-50 | On success the server's `liked` is shown and the count moves by exactly one in that direction. On any failure the initial props come back. Either way loading ends. |
| `ThumbsUp.Click` | components/thumbs-up-button.tsx:21-51 | A complete press never leaves an idle button loading, and a signed-out press changes nothing. |
| `ThumbsUp.Run` | components/thumbs-up-button.tsx:48-50 | Every completed attempt leaves the button enabled. |
| `ThumbsUp.SignedOutRunChangesNothing` | components/thumbs-up-button.tsx:22-25 | Any number of signed-out presses leave count, liked flag and loading flag as they were. |
| `ThumbsUp.RunAppend` | components/thumbs-up-button.tsx:21-51 | Two batches of presses run one after the other. |
| `ThumbsUp.RunAfterFailure` | components/thumbs-up-button.tsx:44-47 | A failed press forgets everything before it: the presses after it behave as after mounting, not as after the previous press. |
| `ThumbsUp.SuccessfulRunCount` | components/thumbs-up-button.tsx:38-41 | With only successful outcomes, the count moves by +1 per `liked` and -1 per un-like, and the last reported `liked` is shown. |
| `ThumbsUp.ToggleTwiceRestores` | components/thumbs-up-button.tsx:40-41 | A like followed by an un-like, as the server reports them, restores count and liked flag. |
| `UploadPage.ChooseFile` | app/upload/page.tsx:30-52 | Only the file, error and preview can change. With no selection nothing changes. A `video/*` file of at most 100 MiB is kept, clears the error and sets the preview. A rejected file leaves the previous file and says why, checking the type before the size. |
| `UploadPage.SizeLimitIsInclusive` | app/upload/page.tsx:40-43 | A video file of exactly 104857600 bytes is accepted, and one byte more is not. |
| `UploadPage.Validate` | app/upload/page.tsx:62-75 | There is no error exactly when the form is ready to send. Each message appears exactly when its check is the first to fail: no file in file mode, then a blank link in link mode, then a blank title. |
| `UploadPage.Payload` | app/upload/page.tsx:83-91 | The payload always has mode, title and description, sent as typed. It has a file only in file mode and a link only in link mode, and the link is exactly what was typed. |
| `UploadPage.Submit` | app/upload/page.tsx:59-118 | A form that fails a check shows that check's message and sends nothing. Otherwise the payload is sent and the page is never left uploading. Success empties the fields, keeps the mode and goes to the gallery. A rejection shows the route's error or "Upload failed", and a thrown error shows its message, both with the fields untouched. |
| `UploadPage.SwitchToFile` | app/upload/page.tsx:156-160 | "Upload File" selects file mode and clears the link and the error, and nothing else. |
| `UploadPage.SwitchToLink` | app/upload/page.tsx:169-174 | "Add Link" selects link mode and clears the file, the preview and the error, and nothing else. |
| `UploadPage.SuccessCannotBeResent` | app/upload/page.tsx:104-109 | After a successful upload, the emptied form fails its first check in either mode. |
| `UploadPage.ModeRoundTripForgetsSources` | app/upload/page.tsx:156-174 | Switching to link mode and back drops both the chosen file and the typed link. |
| `UploadRoute.SourceFor` | app/api/upload/route.ts:31-64 | Only the modes "file" and "link" are accepted; any other mode gives 400 "Invalid upload mode". In file mode, no file gives 400 "No file provided" and a failed blob store gives 500 "Upload failed". In link mode, a missing or empty URL gives 400 "No video URL provided" and one that does not parse gives 400 "Invalid URL format". An accepted upload records the blob URL as "upload" with the file's size. An accepted link records the URL unchanged as "link" with no size. |
| `UploadRoute.Post` | app/api/upload/route.ts:5-88 | No user gives 401 before anything else. A missing or empty title, untrimmed, gives 400 next. A failed mode check answers with that check's own rejection. A database error answers 500 "Failed to save video metadata". The answer is 200 exactly when there is a user and a title, the mode's checks pass and the insert succeeds. A 200 carries the video: owned by the caller, with the form's title and description, the insert's id and time, and the URL, source and size the mode check produced. Any other status carries an error and no video. |
| `UploadRoute.Handle` | app/api/upload/route.ts:5-92 | The caller is checked before the body is read: no user gives 401. A body that cannot be read as form data gives 500 "Upload failed". A readable body is answered as `Post` answers it, and only then can the answer be 200. |
| `UploadRoute.StoredVideoMatchesMode` | app/api/upload/route.ts:31-61 | A stored link keeps the submitted URL and has no size. A stored upload points at the blob and records the file's size. |
| `UploadRoute.CheckedPayloadSource` | app/api/upload/route.ts:31-64 | For a form the page has checked, the route's mode branch fails only when the blob store fails or the link does not parse. |
| `UploadRoute.ClientCheckedFormPassesRouteChecks` | app/api/upload/route.ts:23-64 | A form the page sends never meets the route's 400s for title, file, link or mode. It gets 200 exactly when the insert succeeds, the blob is stored (file mode) and the link parses (link mode). |
| `ProfileRoute.Precheck` | app/api/profile/route.ts:14-25 | No user gives 401. With a user, a missing or empty (untrimmed) display name gives 400 "Display name is required". Nothing is returned exactly when both checks pass. |
| `ProfileRoute.Post` | app/api/profile/route.ts:5-58 | Failed checks answer as `Precheck` does. The answer is 200 exactly when the checks pass, any photo with content was stored and the database reports no error. A photo that could not be stored answers 500 "Failed to create profile". Otherwise a database error answers 500 with its own message. The created row is the caller's, stores an empty bio as null, and has a photo URL exactly when a photo with content was stored. |
| `ProfileRoute.ApplyUpdate` | app/api/profile/route.ts:105 | The update keeps the table's length and leaves every other user's row as it was. The caller's rows get the new name, bio and timestamp, and a new photo URL only when one is sent. |
| `ProfileRoute.UpdateIsIdempotent` | app/api/profile/route.ts:94-105 | Applying the same update twice leaves the table as applying it once. |
| `ProfileRoute.RowOf` | app/api/profile/route.ts:105 | The returned row is in the table and belongs to the caller. Nothing is returned only when the caller has no row. |
| `ProfileRoute.Put` | app/api/profile/route.ts:61-116 | Failed checks answer as `Precheck` does. The answer is 200 exactly when the checks pass, any photo was stored and the database reports no error. Every failure leaves the table unchanged and carries an error. A photo that could not be stored answers 500 "Failed to update profile". Otherwise a database error answers 500 with its message. Success applies the update to the caller's rows and returns the caller's row. |
| `ProfileRoute.HandlePost` | app/api/profile/route.ts:5-58 | No user gives 401 before the body is read. A body that cannot be read as form data gives 500 "Failed to create profile". A readable body is answered as `Post` answers it. A 200 always carries the created profile. |
| `ProfileRoute.HandlePut` | app/api/profile/route.ts:61-116 | No user gives 401 before the body is read. A body that cannot be read as form data gives 500 "Failed to update profile". A readable body is answered as `Put` answers it. Every answer other than 200 leaves the table unchanged. |
| `ProfileRoute.UpdateFor` | app/api/profile/route.ts:94-103 | The update always sets the name, the bio (null when empty) and the timestamp. It carries a photo URL exactly when a photo with content was stored under a non-empty URL. |
| `ProfileRoute.PutKeepsPhotoAndOthers` | app/api/profile/route.ts:100-105 | A `PUT` never touches other users' rows, and without a new photo it keeps every photo URL. |
| `ProfileRoute.PostAndPutCheckAlike` | app/api/profile/route.ts:70-81 | Both handlers answer 401 and 400 on the same requests, with the same replies, and succeed on the same requests. |
| `ProfileRoute.EmptyBioIsNull` | app/api/profile/route.ts:96 | An empty bio is stored as null, both by `POST` and by `PUT`. |
| `SignUp.Precheck` | app/auth/sign-up/page.tsx:47-57 | The check passes exactly when the passwords agree and the display name is not blank after trimming. A mismatch reports "Passwords do not match". Matching passwords with a blank name report "Display name is required". |
| `SignUp.ProfileFormOf` | app/auth/sign-up/page.tsx:71-76 | The profile request carries the name and bio as typed, and the photo when one was chosen. |
| `SignUp.Submit` | app/auth/sign-up/page.tsx:41-95 | Every exit leaves the page not loading. It shows an error exactly when it does not move on, and it moves on only to the success page. A failed check calls nothing. The profile is sent exactly when an account came back. An account error shows its message. A profile rejection shows the route's error or "Failed to create profile". A profile request that threw shows the thrown message, or "An error occurred" when there is none. |
| `SignUp.MismatchTakesPrecedence` | app/auth/sign-up/page.tsx:47-57 | A password mismatch is reported even when the display name is blank too, and no account is requested. |
| `SignUp.SentProfilePassesRouteCheck` | app/auth/sign-up/page.tsx:53-85 | The route takes its caller from the request's session, which is a separate input here. Without a session, the profile request the page sends gets 401 "Unauthorized". With a session, the request passes the route's checks, because the page's trimmed check is stricter than the route's untrimmed one. Given that any photo was stored, the route then answers 200 exactly when the database reports no error. |
| `SignUp.SessionlessProfileShowsUnauthorized` | app/auth/sign-up/page.tsx:70-91 | Suppose `signUp` returns an account but no session, as when the account awaits e-mail confirmation. The profile request then gets 401. The page shows "Unauthorized" and does not move on, although the account was created. |

## Left out

- Backend services (Supabase auth and database, Vercel Blob `put`, `fetch`, the Next.js router) are not modelled. Their results are inputs to the functions above, as an optional user, an optional blob URL, a database error or an outcome datatype.
- `new URL` and `URLSearchParams` internals are not modelled. The parser is an arbitrary function, and query pairs are taken as already decoded.
- JsString.ToLower: lowercases only ASCII `A`-`Z`, because Unicode case mapping (for example of accented letters or `İ`) is not modelled. E-mail and search matching are exact for ASCII text.
- `Gallery.FilterVideos` and the per-card values assume `display_name` is always a string, as the profile type says, although the database column could hold null.
- ProfileRoute.Put: `.single()` fails when the caller has no row or several rows. That failure is folded into the `dbError` input and is not derived from the table. The model also treats every failure as leaving the table unchanged, though the database may already have applied an update whose `.single()` then failed.
- ProfileRoute.Post: the inserted row's id and timestamps come from the database and are not modelled; `updatedAt` is None for a new row.
- A form field of the wrong kind (text where a file is expected) is not modelled: files are `FileInfo` records. In the profile route such a photo counts as no photo. In the upload route it reaches the blob store without a name, which is the `blobUrl` None case.
- A throw from creating the database client or reading the session is not modelled separately. It would end in the same catch-all 500 as an unreadable body.
- The like button on failure goes back to the component's initial props, as the code does, not to the values just before the click.
- The like button does not model React's asynchronous state updates or clicks during an in-flight request. Each press is one atomic `Press` step followed by `Settle`.
- `router.refresh()` after a like is not modelled.
- Anonymous likes, the like route (`app/api/videos/[id]/like/route.ts`) and the delete route (`app/api/videos/[id]/route.ts`) are not part of this model. The button redirects signed-out viewers, and the routes only change tables.
- The profile page, the creator and user pages, the share button and the purely presentational components are not part of this model. They only render data or call browser APIs.
- Error logging (`console.error`) is not modelled.
- The sign-up page's `emailRedirectTo` setting and its photo preview (`FileReader`) are not modelled.
- UploadPage.Submit: a thrown value that is not an `Error` (shown as "Upload failed") is not modelled, because `fetch` and `response.json()` throw `Error`s.
- The upload page's object URL for the preview is an input, and `URL.revokeObjectURL` is never called by the code.
- `profiles || []` on the videos page: a failed profile query is modelled as an empty table.
- The admin-setup page's redirect for a signed-out visitor is modelled as `SetupStatus` returning None.
- The page's markup, and the order of its queries, are not modelled.
