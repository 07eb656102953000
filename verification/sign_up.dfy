/**
  The sign-up form (app/auth/sign-up/page.tsx, `handleSignUp`): the checks
  made before anything is sent, the account creation, the profile request
  that follows it, and what the page shows afterwards. The authentication
  service's answer and the profile route's answer are inputs.
 */
module SignUp {
  import opened JsValue
  import opened JsString
  import opened Records
  import ProfileRoute

  /** The form's fields. */
  datatype Form = Form(
    email: string,
    password: string,
    repeatPassword: string,
    displayName: string,
    bio: string,
    photo: Option<FileInfo>)

  const PasswordsDiffer := "Passwords do not match"
  const DisplayNameRequired := "Display name is required"
  const ProfileFailed := "Failed to create profile"
  const GenericError := "An error occurred"
  const SuccessPath := "/auth/sign-up-success"

  /** What the account creation reported. */
  datatype AuthResult =
    | AuthError(message: string)          // `signUp` returned an error, which is thrown
    | SignedUp(user: Option<AuthUser>)    // `authData.user`, absent when no account was returned

  /** What became of the profile request. */
  datatype ProfileReply =
    | ProfileOk                                  // a 2xx response
    | ProfileRejected(errorText: Option<string>) // a non-2xx response with its JSON `error` field
    | ProfileThrew(message: Option<string>)      // the request threw; None when what it threw is not an Error

  /** What one attempt leaves behind. */
  datatype Attempt = Attempt(
    error: Option<string>,
    isLoading: bool,
    signUpCalled: bool,
    profileSent: Option<ProfileForm>,
    navigateTo: Option<string>)

  /** The checks at app/auth/sign-up/page.tsx:47-57, the password check first. */
  function Precheck(form: Form): (r: Option<string>)
    ensures r.None? <==> form.password == form.repeatPassword && !IsBlank(form.displayName)
    ensures form.password != form.repeatPassword ==> r == Some(PasswordsDiffer)
    ensures form.password == form.repeatPassword && IsBlank(form.displayName) ==> r == Some(DisplayNameRequired)
  {
    if form.password != form.repeatPassword then Some(PasswordsDiffer)
    else if IsBlank(form.displayName) then Some(DisplayNameRequired)
    else None
  }

  /** The profile form of app/auth/sign-up/page.tsx:71-76: name and bio as typed, the photo when one was chosen. */
  function ProfileFormOf(form: Form): (p: ProfileForm)
    ensures p.displayName == Some(form.displayName) && p.bio == Some(form.bio) && p.photo == form.photo
  {
    ProfileForm(Some(form.displayName), Some(form.bio), form.photo)
  }

  /**
    One `handleSignUp`. A failed check shows its message and calls
    nothing. Otherwise the account is created; an error there is shown;
    when an account came back its profile is posted, and a rejection shows
    the route's error text or "Failed to create profile". Without an error
    the page moves on to the success page. Every exit leaves the page not
    loading, and whatever error an earlier attempt showed is gone.
   */
  function Submit(form: Form, auth: AuthResult, reply: ProfileReply): (r: Attempt)
    ensures !r.isLoading
    ensures r.error.Some? <==> r.navigateTo.None?
    ensures r.navigateTo.Some? ==> r.navigateTo.value == SuccessPath
    ensures Precheck(form).Some? ==> r == Attempt(Precheck(form), false, false, None, None)
    ensures r.signUpCalled <==> Precheck(form).None?
    ensures r.profileSent.Some? <==> Precheck(form).None? && auth.SignedUp? && auth.user.Some?
    ensures r.profileSent.Some? ==> r.profileSent.value == ProfileFormOf(form)
    ensures r.navigateTo.Some? <==>
              Precheck(form).None? && auth.SignedUp? && (auth.user.Some? ==> reply.ProfileOk?)
    ensures Precheck(form).None? && auth.AuthError? ==> r.error == Some(auth.message)
    ensures r.profileSent.Some? && reply.ProfileRejected? ==>
              r.error == Some(OrElse(reply.errorText, ProfileFailed))
    ensures r.profileSent.Some? && reply.ProfileThrew? ==>
              r.error == Some(if reply.message.Some? then reply.message.value else GenericError)
  {
    var check := Precheck(form);
    if check.Some? then Attempt(check, false, false, None, None)
    else
      match auth
      case AuthError(message) => Attempt(Some(message), false, true, None, None)
      case SignedUp(user) =>
        if user.None? then Attempt(None, false, true, None, Some(SuccessPath))
        else
          var sent := Some(ProfileFormOf(form));
          match reply
          case ProfileOk => Attempt(None, false, true, sent, Some(SuccessPath))
          case ProfileRejected(errorText) =>
            Attempt(Some(OrElse(errorText, ProfileFailed)), false, true, sent, None)
          case ProfileThrew(message) =>
            Attempt(Some(if message.Some? then message.value else GenericError), false, true, sent, None)
  }

  /**
    A password mismatch is reported even when the display name is blank
    too: the page never asks for a display name while the passwords differ.
   */
  lemma MismatchTakesPrecedence(form: Form, auth: AuthResult, reply: ProfileReply)
    requires form.password != form.repeatPassword && IsBlank(form.displayName)
    ensures Submit(form, auth, reply).error == Some(PasswordsDiffer)
    ensures !Submit(form, auth, reply).signUpCalled
  {
  }

  /**
    A profile request the page sends never meets the profile route's
    "Display name is required": the page's trimmed check is stricter than
    the route's untrimmed one. The route reads its caller from the request's
    session cookies, not from the account `signUp` returned, so `session` is
    a separate input: without one the route answers 401; with one whose
    photo (if any) was stored, it answers 200 unless the database fails.
   */
  lemma SentProfilePassesRouteCheck(form: Form, auth: AuthResult, reply: ProfileReply, session: Option<AuthUser>,
                                    blobUrl: Option<string>, dbError: Option<string>)
    requires Submit(form, auth, reply).profileSent.Some?
    requires ProfileRoute.HasPhoto(ProfileFormOf(form)) ==> blobUrl.Some?
    ensures var sent := Submit(form, auth, reply).profileSent.value;
            var answer := ProfileRoute.Post(session, sent, blobUrl, dbError);
            session.None? ==> answer == ProfileRoute.Fail(401, ProfileRoute.Unauthorized)
    ensures var sent := Submit(form, auth, reply).profileSent.value;
            var answer := ProfileRoute.Post(session, sent, blobUrl, dbError);
            session.Some? ==>
              ProfileRoute.Precheck(session, sent).None?
              && answer.status != 400 && (answer.status == 200 <==> dbError.None?)
  {
    var attempt := Submit(form, auth, reply);
    assert Precheck(form).None?;
    assert attempt.profileSent.value == ProfileFormOf(form);
    NonBlankIsTruthy(form.displayName);
  }

  /**
    When `signUp` returns an account but no session has been set (the
    account still awaits e-mail confirmation), the profile route's 401 is
    passed through: the page shows "Unauthorized" and stays put, although
    the account itself was created.
   */
  lemma SessionlessProfileShowsUnauthorized(form: Form, user: AuthUser, blobUrl: Option<string>,
                                            dbError: Option<string>)
    requires Precheck(form).None?
    ensures var answer := ProfileRoute.Post(None, ProfileFormOf(form), blobUrl, dbError);
            var attempt := Submit(form, SignedUp(Some(user)), ProfileRejected(answer.error));
            answer.status == 401
            && attempt.signUpCalled && attempt.profileSent.Some?
            && attempt.error == Some(ProfileRoute.Unauthorized) && attempt.navigateTo.None?
  {
    var sent := ProfileFormOf(form);
    assert ProfileRoute.Precheck(None, sent) == Some(ProfileRoute.Fail(401, ProfileRoute.Unauthorized));
    var answer := ProfileRoute.Post(None, sent, blobUrl, dbError);
    assert answer == ProfileRoute.Fail(401, ProfileRoute.Unauthorized);
    assert OrElse(answer.error, ProfileFailed) == ProfileRoute.Unauthorized;
  }
}
