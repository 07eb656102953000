/**
  The profile route (app/api/profile/route.ts): `POST` creates the
  caller's profile, `PUT` updates it. The caller, the blob store's answer
  for the photo, the clock and the database's error are inputs; the
  `profiles` table is a sequence of rows so that the update's reach can be
  stated.
 */
module ProfileRoute {
  import opened JsValue
  import opened Records

  /** A JSON response: its status, its `error` field, and the profile on success. */
  datatype Reply = Reply(status: int, error: Option<string>, profile: Option<Profile>)

  function Fail(status: int, message: string): (r: Reply)
    ensures r.status == status && r.error == Some(message) && r.profile.None?
  {
    Reply(status, Some(message), None)
  }

  const Unauthorized := "Unauthorized"
  const DisplayNameRequired := "Display name is required"
  const CreateFailed := "Failed to create profile"
  const UpdateFailed := "Failed to update profile"

  /** `photo && photo.size > 0`: a photo is uploaded only when one with content was sent. */
  predicate HasPhoto(form: ProfileForm) {
    form.photo.Some? && form.photo.value.size > 0
  }

  /** The checks both handlers make first: a caller, then a non-empty (untrimmed) display name. */
  function Precheck(user: Option<AuthUser>, form: ProfileForm): (r: Option<Reply>)
    ensures r.None? <==> user.Some? && Truthy(form.displayName)
    ensures user.None? ==> r == Some(Fail(401, Unauthorized))
    ensures user.Some? && !Truthy(form.displayName) ==> r == Some(Fail(400, DisplayNameRequired))
  {
    if user.None? then Some(Fail(401, Unauthorized))
    else if !Truthy(form.displayName) then Some(Fail(400, DisplayNameRequired))
    else None
  }

  /**
    `POST /api/profile`. After the checks, a photo with content is stored
    first (`blobUrl` None: the store threw, and the catch answers 500);
    then the row is inserted with `bio || null` and the photo's URL or
    null. A database error is answered with its own message.
   */
  function Post(user: Option<AuthUser>, form: ProfileForm, blobUrl: Option<string>,
                dbError: Option<string>): (r: Reply)
    ensures Precheck(user, form).Some? ==> r == Precheck(user, form).value
    ensures r.status == 200 <==>
              Precheck(user, form).None? && (HasPhoto(form) ==> blobUrl.Some?) && dbError.None?
    ensures r.status != 200 ==> r.profile.None? && r.error.Some?
    ensures Precheck(user, form).None? && HasPhoto(form) && blobUrl.None? ==> r == Fail(500, CreateFailed)
    ensures Precheck(user, form).None? && dbError.Some? && (HasPhoto(form) ==> blobUrl.Some?) ==>
              r == Fail(500, dbError.value)
    ensures r.profile.Some? ==>
              var p := r.profile.value;
              p.userId == user.value.id && Some(p.displayName) == form.displayName
              && p.bio == OrNull(form.bio) && p.updatedAt.None?
              && (p.photoUrl.Some? <==> HasPhoto(form))
              && (HasPhoto(form) ==> p.photoUrl == blobUrl)
  {
    var check := Precheck(user, form);
    if check.Some? then check.value
    else if HasPhoto(form) && blobUrl.None? then Fail(500, CreateFailed)
    else
      var photoUrl := if HasPhoto(form) then blobUrl else None;
      var row := Profile(user.value.id, form.displayName.value, OrNull(form.bio), photoUrl, None);
      if dbError.Some? then Fail(500, dbError.value)
      else Reply(200, None, Some(row))
  }

  /** The fields a `PUT` writes; `photoUrl` None means the column is left out of the update. */
  datatype Update = Update(displayName: string, bio: Option<string>, updatedAt: string, photoUrl: Option<string>)

  /**
    `update(updateData).eq("user_id", callerId)`: every row of the caller
    gets the new name, bio and timestamp, and the new photo URL only when
    there is one; every other row is left exactly as it was.
   */
  function ApplyUpdate(table: seq<Profile>, callerId: string, u: Update): (r: seq<Profile>)
    ensures |r| == |table|
    ensures forall i :: 0 <= i < |table| && table[i].userId != callerId ==> r[i] == table[i]
    ensures forall i :: 0 <= i < |table| && table[i].userId == callerId ==>
              r[i].userId == callerId && r[i].displayName == u.displayName && r[i].bio == u.bio
              && r[i].updatedAt == Some(u.updatedAt)
              && r[i].photoUrl == (if u.photoUrl.Some? then u.photoUrl else table[i].photoUrl)
  {
    seq(|table|, i requires 0 <= i < |table| =>
      if table[i].userId != callerId then table[i]
      else table[i].(displayName := u.displayName, bio := u.bio, updatedAt := Some(u.updatedAt),
                     photoUrl := if u.photoUrl.Some? then u.photoUrl else table[i].photoUrl))
  }

  /** Sending the same update twice leaves the table as sending it once. */
  lemma UpdateIsIdempotent(table: seq<Profile>, callerId: string, u: Update)
    ensures ApplyUpdate(ApplyUpdate(table, callerId, u), callerId, u) == ApplyUpdate(table, callerId, u)
  {
    var once := ApplyUpdate(table, callerId, u);
    var twice := ApplyUpdate(once, callerId, u);
    forall i | 0 <= i < |table| ensures twice[i] == once[i] {
      if table[i].userId == callerId {
        assert once[i].userId == callerId;
      }
    }
  }

  /** The caller's first row, as `.single()` returns it. */
  function RowOf(table: seq<Profile>, callerId: string): (r: Option<Profile>)
    ensures r.Some? ==> r.value in table && r.value.userId == callerId
    ensures r.None? ==> forall i :: 0 <= i < |table| ==> table[i].userId != callerId
    decreases |table|
  {
    if |table| == 0 then None
    else if table[0].userId == callerId then Some(table[0])
    else RowOf(table[1..], callerId)
  }

  /** The outcome of a `PUT`: the reply and the table afterwards. */
  datatype PutResult = PutResult(reply: Reply, table: seq<Profile>)

  /**
    `PUT /api/profile`. The same checks as `POST`, then the photo, then the
    update built at app/api/profile/route.ts:94-103 with `now` as the
    timestamp. On any failure the table is unchanged.
   */
  function Put(user: Option<AuthUser>, form: ProfileForm, blobUrl: Option<string>, now: string,
               table: seq<Profile>, dbError: Option<string>): (r: PutResult)
    ensures Precheck(user, form).Some? ==> r.reply == Precheck(user, form).value
    ensures r.reply.status == 200 <==>
              Precheck(user, form).None? && (HasPhoto(form) ==> blobUrl.Some?) && dbError.None?
    ensures r.reply.status != 200 ==> r.table == table && r.reply.error.Some? && r.reply.profile.None?
    ensures Precheck(user, form).None? && HasPhoto(form) && blobUrl.None? ==> r.reply == Fail(500, UpdateFailed)
    ensures Precheck(user, form).None? && dbError.Some? && (HasPhoto(form) ==> blobUrl.Some?) ==>
              r.reply == Fail(500, dbError.value)
    ensures r.reply.status == 200 ==>
              r.table == ApplyUpdate(table, user.value.id, UpdateFor(form, blobUrl, now))
              && r.reply.profile == RowOf(r.table, user.value.id)
  {
    var check := Precheck(user, form);
    if check.Some? then PutResult(check.value, table)
    else if HasPhoto(form) && blobUrl.None? then PutResult(Fail(500, UpdateFailed), table)
    else if dbError.Some? then PutResult(Fail(500, dbError.value), table)
    else
      var updated := ApplyUpdate(table, user.value.id, UpdateFor(form, blobUrl, now));
      PutResult(Reply(200, None, RowOf(updated, user.value.id)), updated)
  }

  /**
    The update's fields: name, `bio || null` and the timestamp always; the
    photo URL only when a photo with content was stored under a non-empty
    URL.
   */
  function UpdateFor(form: ProfileForm, blobUrl: Option<string>, now: string): (u: Update)
    requires Truthy(form.displayName)
    ensures Some(u.displayName) == form.displayName && u.bio == OrNull(form.bio) && u.updatedAt == now
    ensures u.photoUrl.Some? <==> HasPhoto(form) && Truthy(blobUrl)
    ensures u.photoUrl.Some? ==> u.photoUrl == blobUrl
  {
    var stored := if HasPhoto(form) then blobUrl else None;
    Update(form.displayName.value, OrNull(form.bio), now, OrNull(stored))
  }

  /**
    A `PUT` without a new photo keeps every photo URL in the table, and
    leaves other users' rows untouched whatever it sends.
   */
  lemma PutKeepsPhotoAndOthers(user: AuthUser, form: ProfileForm, blobUrl: Option<string>, now: string,
                               table: seq<Profile>, dbError: Option<string>)
    ensures var r := Put(Some(user), form, blobUrl, now, table, dbError);
            |r.table| == |table|
            && (forall i :: 0 <= i < |table| && table[i].userId != user.id ==> r.table[i] == table[i])
            && (!HasPhoto(form) ==> forall i :: 0 <= i < |table| ==> r.table[i].photoUrl == table[i].photoUrl)
  {
  }

  /** Both handlers reject the same requests with the same replies before touching anything. */
  lemma PostAndPutCheckAlike(user: Option<AuthUser>, form: ProfileForm, blobUrl: Option<string>, now: string,
                             table: seq<Profile>, dbError: Option<string>)
    ensures var post := Post(user, form, blobUrl, dbError);
            var put := Put(user, form, blobUrl, now, table, dbError);
            (post.status == 401 <==> put.reply.status == 401)
            && (post.status == 400 <==> put.reply.status == 400)
            && (post.status == 400 ==> post == put.reply)
            && (post.status == 200 <==> put.reply.status == 200)
  {
  }

  /** An empty bio is stored as null by both handlers. */
  lemma EmptyBioIsNull(user: AuthUser, form: ProfileForm, blobUrl: Option<string>, now: string,
                       table: seq<Profile>, i: nat)
    requires form.bio == Some("") && Truthy(form.displayName)
    requires (HasPhoto(form) ==> blobUrl.Some?)
    requires i < |table| && table[i].userId == user.id
    ensures Post(Some(user), form, blobUrl, None).profile.value.bio.None?
    ensures Put(Some(user), form, blobUrl, now, table, None).table[i].bio.None?
  {
  }

  /**
    The whole `POST` handler from the raw request: the caller is checked
    before the body is read, and a body `request.formData()` cannot parse
    (`body` None) throws into the catch, which answers 500 "Failed to
    create profile".
   */
  function HandlePost(user: Option<AuthUser>, body: Option<ProfileForm>, blobUrl: Option<string>,
                      dbError: Option<string>): (r: Reply)
    ensures user.None? ==> r == Fail(401, Unauthorized)
    ensures user.Some? && body.None? ==> r == Fail(500, CreateFailed)
    ensures body.Some? ==> r == Post(user, body.value, blobUrl, dbError)
    ensures r.status == 200 ==> user.Some? && body.Some? && r.profile.Some?
  {
    if user.None? then Fail(401, Unauthorized)
    else if body.None? then Fail(500, CreateFailed)
    else Post(user, body.value, blobUrl, dbError)
  }

  /**
    The whole `PUT` handler from the raw request: as `HandlePost`, with
    "Failed to update profile" for an unreadable body, and the table left
    as it was on every failure.
   */
  function HandlePut(user: Option<AuthUser>, body: Option<ProfileForm>, blobUrl: Option<string>, now: string,
                     table: seq<Profile>, dbError: Option<string>): (r: PutResult)
    ensures user.None? ==> r == PutResult(Fail(401, Unauthorized), table)
    ensures user.Some? && body.None? ==> r == PutResult(Fail(500, UpdateFailed), table)
    ensures body.Some? ==> r == Put(user, body.value, blobUrl, now, table, dbError)
    ensures r.reply.status != 200 ==> r.table == table
  {
    if user.None? then PutResult(Fail(401, Unauthorized), table)
    else if body.None? then PutResult(Fail(500, UpdateFailed), table)
    else Put(user, body.value, blobUrl, now, table, dbError)
  }
}
