/**
  The like button (components/thumbs-up-button.tsx) as a state machine over
  (likeCount, isLiked, isLoading). One press of the button is two steps:
  `Press` (the part of `handleLike` before the request) and `Settle` (what
  happens once the request has an outcome). The request itself and the
  router are outside the model: the outcome is an input.
 */
module ThumbsUp {

  /** The component's props. */
  datatype Props = Props(videoId: string, initialLikeCount: int, initialIsLiked: bool, isAuthenticated: bool)

  /** The component's state. */
  datatype LikeState = LikeState(likeCount: int, isLiked: bool, isLoading: bool)

  /** What became of the toggle request. */
  datatype Outcome =
    | NotOk           // the response arrived with a non-2xx status
    | Threw           // the request or the JSON decoding threw
    | Ok(liked: bool) // a 2xx response carrying `data.liked`

  /** What a press asks of the outside world. */
  datatype Effect = Redirect(path: string) | Request(path: string) | Nothing

  /** A state together with the effect of the step that produced it. */
  datatype Step = Step(state: LikeState, effect: Effect)

  const LoginPath := "/auth/login"

  /** The state right after mounting: the props' values, not loading. */
  function Initial(props: Props): (s: LikeState)
    ensures !s.isLoading
    ensures s.likeCount == props.initialLikeCount && s.isLiked == props.initialIsLiked
  {
    LikeState(props.initialLikeCount, props.initialIsLiked, false)
  }

  /** `disabled={isLoading}`. */
  predicate Disabled(s: LikeState) {
    s.isLoading
  }

  /** `/api/videos/${videoId}/like`. */
  function LikePath(videoId: string): string {
    "/api/videos/" + videoId + "/like"
  }

  /**
    Pressing the button: nothing happens while it is disabled; a signed-out
    viewer is sent to the login page with the state untouched; otherwise
    the request is sent and the button shows it is loading.
   */
  function Press(props: Props, s: LikeState): (r: Step)
    ensures Disabled(s) ==> r == Step(s, Nothing)
    ensures !Disabled(s) && !props.isAuthenticated ==> r == Step(s, Redirect(LoginPath))
    ensures !Disabled(s) && props.isAuthenticated ==>
              r.effect == Request(LikePath(props.videoId)) && r.state.isLoading
              && r.state.likeCount == s.likeCount && r.state.isLiked == s.isLiked
  {
    if Disabled(s) then Step(s, Nothing)
    else if !props.isAuthenticated then Step(s, Redirect(LoginPath))
    else Step(s.(isLoading := true), Request(LikePath(props.videoId)))
  }

  /**
    The request's outcome applied to the loading state: on success the
    server's `liked` is shown and the count moves by one in that direction;
    on any failure the props' initial values come back. Either way the
    button is enabled again.
   */
  function Settle(props: Props, s: LikeState, outcome: Outcome): (r: LikeState)
    ensures !r.isLoading
    ensures outcome.Ok? ==> r.isLiked == outcome.liked
    ensures outcome.Ok? && outcome.liked ==> r.likeCount == s.likeCount + 1
    ensures outcome.Ok? && !outcome.liked ==> r.likeCount == s.likeCount - 1
    ensures !outcome.Ok? ==> r == Initial(props)
  {
    match outcome
    case Ok(liked) => LikeState(if liked then s.likeCount + 1 else s.likeCount - 1, liked, false)
    case _ => LikeState(props.initialLikeCount, props.initialIsLiked, false)
  }

  /** One complete press: `Press`, then, when a request went out, `Settle` with its outcome. */
  function Click(props: Props, s: LikeState, outcome: Outcome): (r: LikeState)
    ensures !s.isLoading ==> !r.isLoading
    ensures !props.isAuthenticated ==> r == s
  {
    var step := Press(props, s);
    if step.effect.Request? then Settle(props, step.state, outcome) else step.state
  }

  /** A sequence of complete presses, each with its own outcome. */
  function Run(props: Props, s: LikeState, outcomes: seq<Outcome>): (r: LikeState)
    ensures !s.isLoading ==> !r.isLoading
    decreases |outcomes|
  {
    if |outcomes| == 0 then s else Run(props, Click(props, s, outcomes[0]), outcomes[1..])
  }

  /** Net effect of successful outcomes on the count: +1 per `liked`, -1 per un-like. */
  function NetLikes(outcomes: seq<Outcome>): int
    decreases |outcomes|
  {
    if |outcomes| == 0 then 0
    else (if outcomes[0].Ok? && outcomes[0].liked then 1 else -1) + NetLikes(outcomes[1..])
  }

  /** A signed-out viewer's presses never change the button. */
  lemma {:induction false} SignedOutRunChangesNothing(props: Props, s: LikeState, outcomes: seq<Outcome>)
    requires !props.isAuthenticated
    ensures Run(props, s, outcomes) == s
    decreases |outcomes|
  {
    if |outcomes| > 0 {
      SignedOutRunChangesNothing(props, s, outcomes[1..]);
    }
  }

  /** Running two batches of presses is running them one after the other. */
  lemma {:induction false} RunAppend(props: Props, s: LikeState, a: seq<Outcome>, b: seq<Outcome>)
    ensures Run(props, s, a + b) == Run(props, Run(props, s, a), b)
    decreases |a|
  {
    if |a| > 0 {
      assert (a + b)[1..] == a[1..] + b;
      RunAppend(props, Click(props, s, a[0]), a[1..], b);
    } else {
      assert a + b == b;
    }
  }

  /**
    A failed press forgets everything before it: whatever happened earlier,
    the presses after a failure behave as if the button had just mounted.
   */
  lemma RunAfterFailure(props: Props, s: LikeState, before: seq<Outcome>, failure: Outcome, after: seq<Outcome>)
    requires props.isAuthenticated && !s.isLoading && !failure.Ok?
    ensures Run(props, s, before + [failure] + after) == Run(props, Initial(props), after)
  {
    RunAppend(props, s, before + [failure], after);
    RunAppend(props, s, before, [failure]);
  }

  /**
    With only successful outcomes, the count moves by exactly one per press
    in the direction the server reports, and the last report is what shows.
   */
  lemma {:induction false} SuccessfulRunCount(props: Props, s: LikeState, outcomes: seq<Outcome>)
    requires props.isAuthenticated && !s.isLoading
    requires forall k :: 0 <= k < |outcomes| ==> outcomes[k].Ok?
    ensures Run(props, s, outcomes).likeCount == s.likeCount + NetLikes(outcomes)
    ensures |outcomes| > 0 ==> Run(props, s, outcomes).isLiked == outcomes[|outcomes| - 1].liked
    decreases |outcomes|
  {
    if |outcomes| > 0 {
      var next := Click(props, s, outcomes[0]);
      assert outcomes[1..] == [] || outcomes[|outcomes| - 1] == outcomes[1..][|outcomes[1..]| - 1];
      SuccessfulRunCount(props, next, outcomes[1..]);
    }
  }

  /** Liking and then un-liking (the server flipping `liked` each time) returns the button to where it was. */
  lemma ToggleTwiceRestores(props: Props, s: LikeState)
    requires props.isAuthenticated && !s.isLoading
    ensures Run(props, s, [Ok(!s.isLiked), Ok(s.isLiked)]) == s
  {
    var once := Click(props, s, Ok(!s.isLiked));
    assert [Ok(!s.isLiked), Ok(s.isLiked)][1..] == [Ok(s.isLiked)];
    assert Run(props, once, [Ok(s.isLiked)]) == Click(props, once, Ok(s.isLiked));
  }
}
