/** The top-level app component: the two-phase request lifecycle behind
    `generateCourse`, the Enter-key handler, and the events each view
    offers. Each handler is one atomic step; a request is two (accept, then
    settle). */
module App {
  import opened Common
  import opened Json
  import opened CourseGeneration
  import opened Navigation
  import opened Renderer

  /** The app's state. `inFlight` is the request of the outstanding
      generation call: the input text the handler captured before clearing
      the box. */
  datatype AppState = AppState(
    configured: bool,
    input: string,
    isLoading: bool,
    inFlight: Option<string>,
    course: CourseState)

  /** The state at mount, once the key probe has run. */
  function Boot(configured: bool): (s: AppState)
    ensures s.configured == configured
    ensures s.input == "" && !s.isLoading && s.inFlight.None?
    ensures s.course.content.None? && s.course.cursor == HomeCursor
    ensures SelectView(s.configured, s.course) == (if configured then InputView else ConfigurationErrorView)
  {
    AppState(configured, "", false, None, Initial)
  }

  /** The first phase of `generateCourse`: a blank input, a pending request
      or a missing key leave everything as it is; otherwise the box is
      cleared, loading starts and the untrimmed input is sent. */
  function Accept(s: AppState): (r: AppState)
    ensures r == s <==> IsBlank(s.input) || s.isLoading || !s.configured
    ensures r != s ==>
      && r.input == "" && r.isLoading && r.inFlight == Some(s.input)
      && r.course == s.course && r.configured == s.configured
  {
    if IsBlank(s.input) || s.isLoading || !s.configured then s
    else s.(input := "", isLoading := true, inFlight := Some(s.input))
  }

  /** How the awaited call settled. */
  datatype Settlement = Resolved(response: GenerationResponse) | Rejected

  /** The response carries a course to store. */
  predicate Delivers(o: Settlement) {
    o.Resolved? && o.response.success && o.response.courseContent.Some?
  }

  /** The second phase: a successful response stores the course and moves
      to the intro (the quiz fields are left as they were); a failure or an
      exception changes nothing. Loading ends either way. */
  function Complete(s: AppState, o: Settlement): (r: AppState)
    ensures !r.isLoading && r.inFlight.None?
    ensures r.input == s.input && r.configured == s.configured
    ensures Delivers(o) ==>
      && r.course.content == o.response.courseContent
      && r.course.cursor == s.course.cursor.(stepIndex := -1)
    ensures !Delivers(o) ==> r.course == s.course
  {
    var done := s.(isLoading := false, inFlight := None);
    if Delivers(o) then
      done.(course := CourseState(o.response.courseContent, s.course.cursor.(stepIndex := -1)))
    else
      done
  }

  /** `handleKeyPress`: Enter without Shift submits; any other key does
      nothing. */
  function HandleKeyPress(s: AppState, key: string, shiftKey: bool): (r: AppState)
    ensures IsSubmitKey(key, shiftKey) ==> r == Accept(s)
    ensures key != "Enter" || shiftKey ==> r == s
  {
    if IsSubmitKey(key, shiftKey) then Accept(s) else s
  }

  /** A rejected call and a failed result are handled alike. */
  lemma ExceptionLikeFailure(s: AppState, error: string)
    ensures Complete(s, Rejected) == Complete(s, Resolved(Failed(error)))
  {
  }

  // ---------------------------------------------------------------------
  // Runs of user events

  /** A user event, or the settling of the outstanding call (with the model
      and `JSON.parse` as oracles). */
  datatype AppEvent =
    | Type(text: string)
    | Submit
    | Key(key: string, shiftKey: bool)
    | Settle(call: string -> CallOutcome, parse: string -> Option<Json>)
    | Navigate(e: Event)

  /** The buttons a course screen has: the intro's start and home; a step's
      previous (disabled on the first step), next and home; a question's
      previous (disabled on the first), next or complete, and home; the
      success page's home. */
  predicate ScreenOffers(sc: Screen, e: Event) {
    match sc
    case IntroScreen => e.Begin? || e.Reset?
    case StepScreen(_, _, isFirst, _) => (e.PreviousStep? && !isFirst) || e.NextStep? || e.Reset?
    case QuizScreen(_, isFirst, isLast) =>
      (e.PreviousQuestion? && !isFirst) || (e.NextQuestion? && !isLast) || (e.CompleteQuiz? && isLast) || e.Reset?
    case SuccessScreen => e.Reset?
  }

  /** Whether the current view lets the event happen. The input box and its
      keys are disabled while loading; the send button also while blank. */
  predicate Offered(s: AppState, ev: AppEvent)
    ensures Offered(s, ev) && (ev.Type? || ev.Key? || ev.Submit?) ==>
      SelectView(s.configured, s.course).InputView? && !s.isLoading
    ensures Offered(s, ev) && ev.Submit? ==> !IsBlank(s.input)
    ensures Offered(s, ev) && ev.Settle? ==> s.inFlight.Some?
    ensures Offered(s, ev) && ev.Navigate? ==>
      SelectView(s.configured, s.course).CourseView? && !ev.e.Start?
    ensures Offered(s, ev) && ev.Navigate? && ev.e.PreviousStep? ==>
      SelectView(s.configured, s.course).screen.StepScreen? && s.course.cursor.stepIndex != 0
    ensures Offered(s, ev) && ev.Navigate? && ev.e.CompleteQuiz? ==>
      SelectView(s.configured, s.course).screen.QuizScreen? &&
      SelectView(s.configured, s.course).screen.isLastQuestion
    ensures Offered(s, ev) && ev.Navigate? && (ev.e.NextQuestion? || ev.e.PreviousQuestion?) ==>
      SelectView(s.configured, s.course).screen.QuizScreen?
    ensures Offered(s, ev) && ev.Navigate? && ev.e.Begin? ==>
      SelectView(s.configured, s.course).screen.IntroScreen?
    ensures ev.Navigate? && ev.e.Reset? ==>
      (Offered(s, ev) <==> SelectView(s.configured, s.course).CourseView?)
  {
    var v := SelectView(s.configured, s.course);
    match ev
    case Type(_) => v.InputView? && !s.isLoading
    case Key(_, _) => v.InputView? && !s.isLoading
    case Submit => v.InputView? && !s.isLoading && !IsBlank(s.input)
    case Settle(_, _) => s.inFlight.Some?
    case Navigate(e) => v.CourseView? && ScreenOffers(v.screen, e) && Enabled(s.course, e)
  }

  function Step(s: AppState, ev: AppEvent): AppState
    requires Offered(s, ev)
  {
    match ev
    case Type(t) => s.(input := t)
    case Submit => Accept(s)
    case Key(k, shift) => HandleKeyPress(s, k, shift)
    case Settle(call, parse) => Complete(s, Resolved(Generate(s.inFlight.value, call, parse)))
    case Navigate(e) => s.(course := Apply(s.course, e))
  }

  /** Applies the events in order; None once one is not offered. */
  function RunApp(s: AppState, evs: seq<AppEvent>): Option<AppState>
    decreases |evs|
  {
    if |evs| == 0 then Some(s)
    else if !Offered(s, evs[0]) then None
    else RunApp(Step(s, evs[0]), evs[1..])
  }

  /** What holds in every state the app reaches: loading exactly while a call
      is out, and then no course is held; without a course the cursor is at
      home; a held course passed the schema, has no quiz and its cursor is
      bounded and never past the last step. */
  predicate AppInv(s: AppState) {
    && (s.isLoading <==> s.inFlight.Some?)
    && (s.inFlight.Some? ==> s.course.content.None?)
    && (s.course.content.None? ==> s.course.cursor == HomeCursor)
    && (s.course.content.Some? ==>
          && ValidCourse(s.course.content.value)
          && s.course.content.value.quiz.None?
          && Inv(s.course)
          && s.course.cursor.stepIndex <= StepCount(s.course.content.value) - 1)
  }

  lemma BootInv(configured: bool)
    ensures AppInv(Boot(configured))
  {
  }

  lemma StepKeepsInv(s: AppState, ev: AppEvent)
    requires AppInv(s) && Offered(s, ev)
    ensures AppInv(Step(s, ev))
  {
    match ev
    case Settle(call, parse) =>
      var r := Generate(s.inFlight.value, call, parse);
      assert r.success ==> ValidCourse(r.courseContent.value) && r.courseContent.value.quiz.None?;
    case Navigate(e) =>
      var c := s.course.content.value;
      assert |c.content| >= MinSteps;
    case _ =>
  }

  /** Every run of offered events from boot stays within `AppInv`. */
  lemma {:induction false} RunKeepsInv(s: AppState, evs: seq<AppEvent>)
    requires AppInv(s)
    requires RunApp(s, evs).Some?
    ensures AppInv(RunApp(s, evs).value)
    decreases |evs|
  {
    if |evs| > 0 {
      StepKeepsInv(s, evs[0]);
      RunKeepsInv(Step(s, evs[0]), evs[1..]);
    }
  }

  /** In every reachable state a step screen reads an existing step. */
  lemma StepScreenInBounds(s: AppState)
    requires AppInv(s)
    ensures SelectView(s.configured, s.course).CourseView? &&
            SelectView(s.configured, s.course).screen.StepScreen? ==>
      SelectView(s.configured, s.course).screen.currentStep
        == Some(s.course.content.value.content[s.course.cursor.stepIndex])
  {
    if s.course.content.Some? {
      SelectInBounds(s.course);
    }
  }

  /** The configuration error screen, whatever else holds. */
  lemma UnconfiguredShowsError(s: AppState)
    requires !s.configured
    ensures SelectView(s.configured, s.course) == ConfigurationErrorView
    ensures Accept(s) == s
  {
  }

  /** A request accepted from the input screen and settled by the service:
      on success the validated course is shown from its intro, exactly as
      `startCourse` would set it; on failure nothing but loading changes. */
  lemma GenerateLifecycle(s: AppState, call: string -> CallOutcome, parse: string -> Option<Json>)
    requires AppInv(s) && SelectView(s.configured, s.course).InputView? && Accept(s) != s
    ensures var a := Accept(s);
      var r := Generate(s.input, call, parse);
      var t := Complete(a, Resolved(r));
      && !t.isLoading && t.input == ""
      && (r.success ==>
            && t.course == StartCourse(r.courseContent.value)
            && SelectView(t.configured, t.course) == CourseView(IntroScreen))
      && (!r.success ==> t.course == s.course && t.course.content.None?)
  {
    assert s.configured && !s.isLoading && s.inFlight.None?;
    var r := Generate(s.input, call, parse);
    if r.success {
      assert |r.courseContent.value.content| >= MinSteps;
    }
  }
}
