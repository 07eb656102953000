/**
  The upload form (app/upload/page.tsx): choosing a file, switching between
  uploading a file and sharing a link, checking the form before it is sent,
  the form data it sends, and what the page shows once the upload route
  has answered. The browser's object-URL for the preview and the route's
  answer are inputs.
 */
module UploadPage {
  import opened JsValue
  import opened JsString
  import opened Records

  /** `type UploadMode = "file" | "link"`. */
  datatype Mode = FileMode | LinkMode

  /** The string the page sends as the `mode` field. */
  function ModeName(m: Mode): string {
    match m
    case FileMode => "file"
    case LinkMode => "link"
  }

  /** The component's state. */
  datatype FormState = FormState(
    mode: Mode,
    title: string,
    description: string,
    file: Option<FileInfo>,
    videoUrl: string,
    isUploading: bool,
    error: Option<string>,
    previewUrl: Option<string>)

  /** The state on mounting: file mode, everything empty. */
  function Blank(): FormState {
    FormState(FileMode, "", "", None, "", false, None, None)
  }

  const MaxFileSize: int := 100 * 1024 * 1024
  const InvalidTypeMessage := "Please select a valid video file"
  const TooLargeMessage := "File size must be less than 100MB"
  const NoFileMessage := "Please select a video file"
  const NoUrlMessage := "Please enter a video URL"
  const NoTitleMessage := "Please enter a title"
  const UploadFailedMessage := "Upload failed"

  /** A file the page keeps: a `video/…` MIME type and at most 100 MiB. */
  predicate AcceptableFile(f: FileInfo) {
    StartsWith(f.mimeType, "video/") && f.size <= MaxFileSize
  }

  /**
    `handleFileChange` (app/upload/page.tsx:30-52) with the first selected
    file, if any. Only an acceptable file is kept (and clears the error and
    sets the preview); a rejected one leaves the previous file in place and
    says why, the type being checked before the size. Nothing else changes.
   */
  function ChooseFile(s: FormState, selected: Option<FileInfo>, objectUrl: string): (r: FormState)
    ensures r.(file := s.file, error := s.error, previewUrl := s.previewUrl) == s
    ensures selected.None? ==> r == s
    ensures selected.Some? && AcceptableFile(selected.value) ==>
              r.file == selected && r.error.None? && r.previewUrl == Some(objectUrl)
    ensures selected.Some? && !AcceptableFile(selected.value) ==>
              r.file == s.file && r.previewUrl == s.previewUrl
              && r.error == Some(if StartsWith(selected.value.mimeType, "video/") then TooLargeMessage
                                 else InvalidTypeMessage)
  {
    if selected.None? then s
    else if !StartsWith(selected.value.mimeType, "video/") then s.(error := Some(InvalidTypeMessage))
    else if selected.value.size > MaxFileSize then s.(error := Some(TooLargeMessage))
    else s.(file := selected, error := None, previewUrl := Some(objectUrl))
  }

  /** The 100 MiB bound is inclusive: a video file of exactly 104857600 bytes is kept, one byte more is not. */
  lemma SizeLimitIsInclusive(s: FormState, f: FileInfo, objectUrl: string)
    requires StartsWith(f.mimeType, "video/")
    ensures ChooseFile(s, Some(f), objectUrl).error.None? <==> f.size <= 104857600
  {
  }

  /** The form is ready to send: the current mode's source is given and the title is not blank. */
  predicate ReadyToSend(s: FormState) {
    (s.mode == FileMode ==> s.file.Some?)
    && (s.mode == LinkMode ==> !IsBlank(s.videoUrl))
    && !IsBlank(s.title)
  }

  /**
    The checks at app/upload/page.tsx:62-75, in order: a missing file in
    file mode, then a blank link in link mode, then a blank title. The
    result is the first failing check's message, and there is none exactly
    when the form is ready to send.
   */
  function Validate(s: FormState): (r: Option<string>)
    ensures r.None? <==> ReadyToSend(s)
    ensures r == Some(NoFileMessage) <==> s.mode == FileMode && s.file.None?
    ensures r == Some(NoUrlMessage) <==> s.mode == LinkMode && IsBlank(s.videoUrl)
    ensures r == Some(NoTitleMessage) <==>
              (s.mode == FileMode ==> s.file.Some?) && (s.mode == LinkMode ==> !IsBlank(s.videoUrl))
              && IsBlank(s.title)
  {
    if s.mode == FileMode && s.file.None? then Some(NoFileMessage)
    else if s.mode == LinkMode && IsBlank(s.videoUrl) then Some(NoUrlMessage)
    else if IsBlank(s.title) then Some(NoTitleMessage)
    else None
  }

  /**
    The form data of app/upload/page.tsx:83-91: mode, title and
    description always, untrimmed; the file only in file mode, the link
    only in link mode.
   */
  function Payload(s: FormState): (form: UploadForm)
    ensures form.mode == Some(ModeName(s.mode))
    ensures form.title == Some(s.title) && form.description == Some(s.description)
    ensures form.file.Some? ==> s.mode == FileMode && form.file == s.file
    ensures form.videoUrl.Some? <==> s.mode == LinkMode
    ensures form.videoUrl.Some? ==> form.videoUrl.value == s.videoUrl
  {
    var file := if s.mode == FileMode then s.file else None;
    var url := if s.mode == LinkMode then Some(s.videoUrl) else None;
    UploadForm(Some(ModeName(s.mode)), Some(s.title), Some(s.description), file, url)
  }

  /** How the upload request ended, as the page sees it. */
  datatype Outcome =
    | Accepted                          // a 2xx response
    | Rejected(errorText: Option<string>) // a non-2xx response with its JSON `error` field
    | Threw(message: string)            // the request or the JSON decoding threw an Error

  /** The page after a submit: its state, the form it sent (if any) and whether it moved to the gallery. */
  datatype Submission = Submission(state: FormState, sent: Option<UploadForm>, toGallery: bool)

  /**
    `handleSubmit` (app/upload/page.tsx:59-118) as one step. A form that
    fails a check shows that check's message and sends nothing. Otherwise
    the payload is sent; success empties the form's fields and goes to the
    gallery; a rejection shows the route's error text or "Upload failed";
    a thrown error shows its message. The page is never left uploading.
   */
  function Submit(s: FormState, outcome: Outcome): (r: Submission)
    ensures !ReadyToSend(s) ==> r == Submission(s.(error := Validate(s)), None, false)
    ensures ReadyToSend(s) ==> r.sent == Some(Payload(s)) && !r.state.isUploading
    ensures ReadyToSend(s) ==> r.state.mode == s.mode
    ensures ReadyToSend(s) && outcome.Accepted? ==>
              r.toGallery && r.state == Blank().(mode := s.mode)
    ensures ReadyToSend(s) && outcome.Rejected? ==>
              !r.toGallery && r.state.error == Some(OrElse(outcome.errorText, UploadFailedMessage))
              && r.state.(error := s.error, isUploading := s.isUploading) == s
    ensures ReadyToSend(s) && outcome.Threw? ==>
              !r.toGallery && r.state.error == Some(outcome.message)
              && r.state.(error := s.error, isUploading := s.isUploading) == s
  {
    var check := Validate(s);
    if check.Some? then Submission(s.(error := check), None, false)
    else
      var sending := s.(isUploading := true, error := None);
      var payload := Payload(s);
      match outcome
      case Accepted =>
        var reset := sending.(title := "", description := "", file := None, videoUrl := "", previewUrl := None);
        Submission(reset.(isUploading := false), Some(payload), true)
      case Rejected(errorText) =>
        Submission(sending.(error := Some(OrElse(errorText, UploadFailedMessage)), isUploading := false),
                   Some(payload), false)
      case Threw(message) =>
        Submission(sending.(error := Some(message), isUploading := false), Some(payload), false)
  }

  /** "Upload File" (app/upload/page.tsx:156-160): file mode, the link and the error cleared. */
  function SwitchToFile(s: FormState): (r: FormState)
    ensures r.mode == FileMode && r.videoUrl == "" && r.error.None?
    ensures r.(mode := s.mode, videoUrl := s.videoUrl, error := s.error) == s
  {
    s.(mode := FileMode, videoUrl := "", error := None)
  }

  /** "Add Link" (app/upload/page.tsx:169-174): link mode, the file, its preview and the error cleared. */
  function SwitchToLink(s: FormState): (r: FormState)
    ensures r.mode == LinkMode && r.file.None? && r.previewUrl.None? && r.error.None?
    ensures r.(mode := s.mode, file := s.file, previewUrl := s.previewUrl, error := s.error) == s
  {
    s.(mode := LinkMode, file := None, previewUrl := None, error := None)
  }

  /**
    After a successful upload the same form cannot be sent again: the
    emptied form fails its first check, whichever mode it is in.
   */
  lemma SuccessCannotBeResent(s: FormState)
    requires ReadyToSend(s)
    ensures var after := Submit(s, Accepted).state;
            Validate(after) == Some(if s.mode == FileMode then NoFileMessage else NoUrlMessage)
  {
    var after := Submit(s, Accepted).state;
    assert after.videoUrl == "" && after.file.None?;
    assert Trim("") == "";
  }

  /** Going to link mode and back drops both the chosen file and the typed link. */
  lemma ModeRoundTripForgetsSources(s: FormState)
    ensures var r := SwitchToFile(SwitchToLink(s));
            r.mode == FileMode && r.file.None? && r.videoUrl == "" && r.previewUrl.None?
            && Validate(r) == Some(NoFileMessage)
  {
  }
}
