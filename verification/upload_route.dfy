/**
  The upload route (app/api/upload/route.ts, `POST`): from the caller, the
  posted form and what the storage and the database report, to a status,
  an error text and the stored video. The blob store's `put` and the
  database insert are inputs; the URL parser is a parameter.
 */
module UploadRoute {
  import opened JsValue
  import opened JsString
  import opened Url
  import opened Records
  import UploadPage

  /** What the database insert reports: the new row's generated id and timestamp, or an error. */
  datatype Insert = Stored(id: string, createdAt: string) | DbError

  /** A JSON response: its status, its `error` field, and the video on success. */
  datatype Response = Response(status: int, error: Option<string>, video: Option<Video>)

  function Fail(status: int, message: string): (r: Response)
    ensures r.status == status && r.error == Some(message) && r.video.None?
  {
    Response(status, Some(message), None)
  }

  const Unauthorized := "Unauthorized"
  const TitleRequired := "Title is required"
  const NoFileProvided := "No file provided"
  const NoUrlProvided := "No video URL provided"
  const InvalidUrlFormat := "Invalid URL format"
  const InvalidMode := "Invalid upload mode"
  const SaveFailed := "Failed to save video metadata"
  const UploadFailed := "Upload failed"

  /** The video's source as the two accepted modes decide it, before anything is stored. */
  datatype Source = Source(videoUrl: string, videoSource: string, fileSize: Option<int>)

  /** A stored source, or the response that ends the request. */
  datatype Result = Ok(source: Source) | Err(response: Response)

  /**
    The branch at app/api/upload/route.ts:31-64 for a caller with a title:
    either the source to store or the rejection. `blobUrl` is what `put`
    returned for the file, None when it threw.
   */
  function SourceFor(parse: Parser, form: UploadForm, blobUrl: Option<string>): (r: Result)
    ensures r.Ok? ==> form.mode == Some("file") || form.mode == Some("link")
    ensures r.Ok? && form.mode == Some("file") ==>
              form.file.Some? && blobUrl.Some?
              && r.source == Source(blobUrl.value, "upload", Some(form.file.value.size))
    ensures r.Ok? && form.mode == Some("link") ==>
              Truthy(form.videoUrl) && parse(form.videoUrl.value).Some?
              && r.source == Source(form.videoUrl.value, "link", None)
    ensures form.mode != Some("file") && form.mode != Some("link") ==> r == Err(Fail(400, InvalidMode))
    ensures form.mode == Some("file") && form.file.None? ==> r == Err(Fail(400, NoFileProvided))
    ensures form.mode == Some("file") && form.file.Some? && blobUrl.None? ==> r == Err(Fail(500, UploadFailed))
    ensures form.mode == Some("link") && !Truthy(form.videoUrl) ==> r == Err(Fail(400, NoUrlProvided))
    ensures form.mode == Some("link") && Truthy(form.videoUrl) && parse(form.videoUrl.value).None? ==>
              r == Err(Fail(400, InvalidUrlFormat))
  {
    if form.mode == Some("file") then
      if form.file.None? then Err(Fail(400, NoFileProvided))
      else if blobUrl.None? then Err(Fail(500, UploadFailed))
      else Ok(Source(blobUrl.value, "upload", Some(form.file.value.size)))
    else if form.mode == Some("link") then
      if !Truthy(form.videoUrl) then Err(Fail(400, NoUrlProvided))
      else if parse(form.videoUrl.value).None? then Err(Fail(400, InvalidUrlFormat))
      else Ok(Source(form.videoUrl.value, "link", None))
    else Err(Fail(400, InvalidMode))
  }

  /**
    `POST /api/upload`. No caller: 401 before anything else. An empty or
    missing title (not trimmed): 400. Then the mode's own checks. A
    database error: 500. Otherwise the inserted row, owned by the caller.
   */
  function Post(parse: Parser, user: Option<AuthUser>, form: UploadForm, blobUrl: Option<string>,
                insert: Insert): (r: Response)
    ensures user.None? ==> r == Fail(401, Unauthorized)
    ensures user.Some? && !Truthy(form.title) ==> r == Fail(400, TitleRequired)
    ensures r.status == 200 <==>
              user.Some? && Truthy(form.title) && SourceFor(parse, form, blobUrl).Ok? && insert.Stored?
    ensures r.status == 200 ==> r.error.None? && r.video.Some?
    ensures r.status != 200 ==> r.error.Some? && r.video.None?
    ensures user.Some? && Truthy(form.title) && SourceFor(parse, form, blobUrl).Err? ==>
              r == SourceFor(parse, form, blobUrl).response
    ensures user.Some? && Truthy(form.title) && SourceFor(parse, form, blobUrl).Ok? && insert.DbError? ==>
              r == Fail(500, SaveFailed)
    ensures r.video.Some? ==>
              var v := r.video.value;
              var source := SourceFor(parse, form, blobUrl).source;
              v.userId == user.value.id && v.title == form.title.value && v.description == form.description
              && v.id == insert.id && v.createdAt == insert.createdAt
              && v.videoUrl == source.videoUrl && v.videoSource == source.videoSource && v.fileSize == source.fileSize
  {
    if user.None? then Fail(401, Unauthorized)
    else if !Truthy(form.title) then Fail(400, TitleRequired)
    else
      match SourceFor(parse, form, blobUrl)
      case Err(response) => response
      case Ok(source) =>
        match insert
        case DbError => Fail(500, SaveFailed)
        case Stored(id, createdAt) =>
          var v := Video(id, form.title.value, form.description, source.videoUrl, source.videoSource,
                         source.fileSize, user.value.id, createdAt);
          Response(200, None, Some(v))
  }

  /**
    A stored link keeps the submitted text unchanged and has no size; a
    stored upload points at the blob and records the file's size.
   */
  lemma StoredVideoMatchesMode(parse: Parser, user: Option<AuthUser>, form: UploadForm, blobUrl: Option<string>,
                               insert: Insert)
    requires Post(parse, user, form, blobUrl, insert).status == 200
    ensures var v := Post(parse, user, form, blobUrl, insert).video.value;
            (form.mode == Some("link") ==>
               v.videoSource == "link" && Some(v.videoUrl) == form.videoUrl && v.fileSize.None?)
            && (form.mode == Some("file") ==>
               v.videoSource == "upload" && Some(v.videoUrl) == blobUrl && v.fileSize == Some(form.file.value.size))
  {
  }

  /** What the route's mode branch makes of a form the page has checked. */
  lemma CheckedPayloadSource(parse: Parser, s: UploadPage.FormState, blobUrl: Option<string>)
    requires UploadPage.ReadyToSend(s)
    ensures s.mode == UploadPage.FileMode ==>
              SourceFor(parse, UploadPage.Payload(s), blobUrl)
              == if blobUrl.None? then Err(Fail(500, UploadFailed))
                 else Ok(Source(blobUrl.value, "upload", Some(s.file.value.size)))
    ensures s.mode == UploadPage.LinkMode ==>
              SourceFor(parse, UploadPage.Payload(s), blobUrl)
              == if parse(s.videoUrl).None? then Err(Fail(400, InvalidUrlFormat))
                 else Ok(Source(s.videoUrl, "link", None))
  {
    var form := UploadPage.Payload(s);
    if s.mode == UploadPage.FileMode {
      assert form.mode == Some("file") && form.file == s.file;
    } else {
      assert form.mode == Some("link") && form.videoUrl == Some(s.videoUrl);
      assert Truthy(form.videoUrl) by { NonBlankIsTruthy(s.videoUrl); }
    }
  }

  /**
    The page's checks are stricter than the route's: a form the page sends
    after its own checks passed never meets the route's 400s for the
    title, a missing file or link, or the mode. What remains is a link the
    URL parser refuses, and the storage and database failures.
   */
  lemma ClientCheckedFormPassesRouteChecks(parse: Parser, s: UploadPage.FormState, user: AuthUser,
                                           blobUrl: Option<string>, insert: Insert)
    requires UploadPage.ReadyToSend(s)
    ensures var r := Post(parse, Some(user), UploadPage.Payload(s), blobUrl, insert);
            r.error != Some(TitleRequired) && r.error != Some(NoFileProvided)
            && r.error != Some(NoUrlProvided) && r.error != Some(InvalidMode)
    ensures var r := Post(parse, Some(user), UploadPage.Payload(s), blobUrl, insert);
            r.status == 200 <==>
              insert.Stored? && (s.mode == UploadPage.FileMode ==> blobUrl.Some?)
              && (s.mode == UploadPage.LinkMode ==> parse(s.videoUrl).Some?)
  {
    var form := UploadPage.Payload(s);
    assert Truthy(form.title) by {
      assert form.title == Some(s.title);
      NonBlankIsTruthy(s.title);
    }
    CheckedPayloadSource(parse, s, blobUrl);
  }

  /**
    The whole `POST` handler from the raw request. The caller is checked
    before the body is read; a body `request.formData()` cannot parse
    (`body` None) throws into the handler's catch, which answers 500
    "Upload failed".
   */
  function Handle(parse: Parser, user: Option<AuthUser>, body: Option<UploadForm>, blobUrl: Option<string>,
                  insert: Insert): (r: Response)
    ensures user.None? ==> r == Fail(401, Unauthorized)
    ensures user.Some? && body.None? ==> r == Fail(500, UploadFailed)
    ensures body.Some? ==> r == Post(parse, user, body.value, blobUrl, insert)
    ensures r.status == 200 ==> user.Some? && body.Some?
  {
    if user.None? then Fail(401, Unauthorized)
    else if body.None? then Fail(500, UploadFailed)
    else Post(parse, user, body.value, blobUrl, insert)
  }
}
