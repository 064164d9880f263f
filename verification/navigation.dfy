/** The course cursor and its transitions (the `useCourse` hook; the app
    component repeats the same handlers word for word, so one definition
    serves both). `stepIndex = -1` is the intro and `stepIndex = N` the
    success page, for a course of N steps. */
module Navigation {
  import opened Common
  import opened CourseGeneration

  datatype Cursor = Cursor(stepIndex: int, quizIndex: int, isInQuiz: bool)

  /** The course held by the app (null when none) and the cursor into it. */
  datatype CourseState = CourseState(content: Option<CourseContent>, cursor: Cursor)

  /** The cursor the state starts with and that `resetCourse` restores. */
  const HomeCursor: Cursor := Cursor(0, 0, false)
  /** The cursor `startCourse` sets: the intro page. */
  const IntroCursor: Cursor := Cursor(-1, 0, false)
  const Initial: CourseState := CourseState(None, HomeCursor)

  function StepCount(c: CourseContent): nat {
    |c.content|
  }

  /** Number of quiz questions; a course without a quiz has none. */
  function QuizCount(c: CourseContent): nat {
    if c.quiz.Some? then |c.quiz.value| else 0
  }

  function Max(a: int, b: int): int {
    if a < b then b else a
  }

  // ---------------------------------------------------------------------
  // Transitions

  /** `startCourse`: holds the new course and shows its intro. */
  function StartCourse(c: CourseContent): (r: CourseState)
    ensures r.content == Some(c)
    ensures r.cursor.stepIndex == -1 && r.cursor.quizIndex == 0 && !r.cursor.isInQuiz
  {
    CourseState(Some(c), IntroCursor)
  }

  /** The intro's start button: moves to the first step. */
  function BeginCourse(s: CourseState): (r: CourseState)
    ensures r.content == s.content
    ensures r.cursor.stepIndex == 0
    ensures r.cursor.quizIndex == s.cursor.quizIndex && r.cursor.isInQuiz == s.cursor.isInQuiz
  {
    s.(cursor := s.cursor.(stepIndex := 0))
  }

  /** `goToNextStep`: advances while a later step exists; from the last step
      it enters the quiz at its first question without moving the step;
      anywhere else, or without a course, it does nothing. */
  function GoToNextStep(s: CourseState): (r: CourseState)
    ensures r.content == s.content
    ensures r.cursor.stepIndex == s.cursor.stepIndex + 1 <==>
      s.content.Some? && s.cursor.stepIndex < StepCount(s.content.value) - 1
    ensures s.content.Some? && s.cursor.stepIndex == StepCount(s.content.value) - 1 ==>
      r.cursor == s.cursor.(isInQuiz := true, quizIndex := 0)
    ensures r.cursor.stepIndex != s.cursor.stepIndex ==> r.cursor.quizIndex == s.cursor.quizIndex
    ensures r.cursor.isInQuiz != s.cursor.isInQuiz || r.cursor.quizIndex != s.cursor.quizIndex ==>
      s.content.Some? && s.cursor.stepIndex == StepCount(s.content.value) - 1
    ensures s.content.None? || s.cursor.stepIndex > StepCount(s.content.value) - 1 ==> r == s
  {
    match s.content
    case None => s
    case Some(c) =>
      if s.cursor.stepIndex < |c.content| - 1 then
        s.(cursor := s.cursor.(stepIndex := s.cursor.stepIndex + 1))
      else if s.cursor.stepIndex == |c.content| - 1 then
        s.(cursor := s.cursor.(isInQuiz := true, quizIndex := 0))
      else
        s
  }

  /** `goToPreviousStep`: steps back unless already at the intro. It does not
      look at the course or the quiz flag. */
  function GoToPreviousStep(s: CourseState): (r: CourseState)
    ensures r.content == s.content
    ensures r.cursor.quizIndex == s.cursor.quizIndex && r.cursor.isInQuiz == s.cursor.isInQuiz
    ensures r.cursor.stepIndex == s.cursor.stepIndex - 1 <==> s.cursor.stepIndex > -1
    ensures s.cursor.stepIndex <= -1 ==> r == s
  {
    if s.cursor.stepIndex > -1 then s.(cursor := s.cursor.(stepIndex := s.cursor.stepIndex - 1)) else s
  }

  /** `goToNextQuestion` reads `quiz.length` unguarded once a course is
      present, so it needs the quiz then. It advances only while a later
      question exists. */
  function GoToNextQuestion(s: CourseState): (r: CourseState)
    requires s.content.None? || s.content.value.quiz.Some?
    ensures r.content == s.content
    ensures r.cursor.stepIndex == s.cursor.stepIndex && r.cursor.isInQuiz == s.cursor.isInQuiz
    ensures r.cursor.quizIndex == s.cursor.quizIndex + 1 <==>
      s.content.Some? && s.cursor.quizIndex < QuizCount(s.content.value) - 1
    ensures r.cursor.quizIndex != s.cursor.quizIndex + 1 ==> r == s
  {
    if s.content.Some? && s.cursor.quizIndex < |s.content.value.quiz.value| - 1 then
      s.(cursor := s.cursor.(quizIndex := s.cursor.quizIndex + 1))
    else
      s
  }

  /** `goToPreviousQuestion`: steps back a question; from the first one it
      leaves the quiz for the last step, which dereferences the course. */
  function GoToPreviousQuestion(s: CourseState): (r: CourseState)
    requires s.cursor.quizIndex > 0 || s.content.Some?
    ensures r.content == s.content
    ensures s.cursor.quizIndex > 0 ==>
      r.cursor == s.cursor.(quizIndex := s.cursor.quizIndex - 1)
    ensures s.cursor.quizIndex <= 0 ==>
      && !r.cursor.isInQuiz
      && r.cursor.stepIndex == StepCount(s.content.value) - 1
      && r.cursor.quizIndex == s.cursor.quizIndex
  {
    if s.cursor.quizIndex > 0 then
      s.(cursor := s.cursor.(quizIndex := s.cursor.quizIndex - 1))
    else
      s.(cursor := s.cursor.(isInQuiz := false, stepIndex := |s.content.value.content| - 1))
  }

  /** `handleQuizComplete`: leaves the quiz for the success page. */
  function HandleQuizComplete(s: CourseState): (r: CourseState)
    requires s.content.Some?
    ensures r.content == s.content
    ensures !r.cursor.isInQuiz && r.cursor.stepIndex == StepCount(s.content.value)
    ensures r.cursor.quizIndex == s.cursor.quizIndex
  {
    s.(cursor := s.cursor.(isInQuiz := false, stepIndex := |s.content.value.content|))
  }

  /** `resetCourse` (and the app's `goToHome`): drops the course. */
  function ResetCourse(s: CourseState): (r: CourseState)
    ensures r.content.None?
    ensures r.cursor.stepIndex == 0 && r.cursor.quizIndex == 0 && !r.cursor.isInQuiz
  {
    Initial
  }

  // ---------------------------------------------------------------------
  // Runs of transitions

  datatype Event =
    | Start(course: CourseContent)
    | Begin
    | NextStep
    | PreviousStep
    | NextQuestion
    | PreviousQuestion
    | CompleteQuiz
    | Reset

  /** The event does not dereference a missing course or quiz. */
  predicate Enabled(s: CourseState, e: Event) {
    match e
    case NextQuestion => s.content.None? || s.content.value.quiz.Some?
    case PreviousQuestion => s.cursor.quizIndex > 0 || s.content.Some?
    case CompleteQuiz => s.content.Some?
    case _ => true
  }

  function Apply(s: CourseState, e: Event): CourseState
    requires Enabled(s, e)
  {
    match e
    case Start(c) => StartCourse(c)
    case Begin => BeginCourse(s)
    case NextStep => GoToNextStep(s)
    case PreviousStep => GoToPreviousStep(s)
    case NextQuestion => GoToNextQuestion(s)
    case PreviousQuestion => GoToPreviousQuestion(s)
    case CompleteQuiz => HandleQuizComplete(s)
    case Reset => ResetCourse(s)
  }

  /** Applies the events in order; None if one of them would throw. */
  function Run(s: CourseState, es: seq<Event>): Option<CourseState>
    decreases |es|
  {
    if |es| == 0 then Some(s)
    else if !Enabled(s, es[0]) then None
    else Run(Apply(s, es[0]), es[1..])
  }

  /** The bounds the transitions keep: with a course of N steps and Q
      questions, `-1 <= stepIndex <= N` and `0 <= quizIndex <= max(Q-1, 0)`;
      without one the cursor is at home or one step before it. */
  predicate Inv(s: CourseState) {
    match s.content
    case None =>
      -1 <= s.cursor.stepIndex <= 0 && s.cursor.quizIndex == 0 && !s.cursor.isInQuiz
    case Some(c) =>
      && -1 <= s.cursor.stepIndex <= StepCount(c)
      && 0 <= s.cursor.quizIndex <= Max(QuizCount(c) - 1, 0)
  }

  lemma InitialInv()
    ensures Inv(Initial)
  {
  }

  lemma ApplyPreservesInv(s: CourseState, e: Event)
    requires Inv(s) && Enabled(s, e)
    ensures Inv(Apply(s, e))
  {
  }

  /** Bounds invariant: every run of transitions from a state within bounds,
      in particular from the initial state or a freshly started course,
      stays within bounds. */
  lemma {:induction false} RunPreservesInv(s: CourseState, es: seq<Event>)
    requires Inv(s)
    requires Run(s, es).Some?
    ensures Inv(Run(s, es).value)
    decreases |es|
  {
    if |es| > 0 {
      ApplyPreservesInv(s, es[0]);
      RunPreservesInv(Apply(s, es[0]), es[1..]);
    }
  }

  // ---------------------------------------------------------------------
  // Reversibility and reachability

  /** Next then previous is the identity before the last step. */
  lemma NextThenPrevious(s: CourseState)
    requires s.content.Some? && !s.cursor.isInQuiz
    requires -1 <= s.cursor.stepIndex < StepCount(s.content.value) - 1
    ensures GoToPreviousStep(GoToNextStep(s)) == s
  {
  }

  /** Previous then next is the identity on every step. */
  lemma PreviousThenNext(s: CourseState)
    requires s.content.Some? && !s.cursor.isInQuiz
    requires 0 <= s.cursor.stepIndex <= StepCount(s.content.value) - 1
    ensures GoToNextStep(GoToPreviousStep(s)) == s
  {
  }

  /** `GoToNextStep` applied k times. */
  function NextSteps(s: CourseState, k: nat): (r: CourseState)
    ensures r.content == s.content
    decreases k
  {
    if k == 0 then s else NextSteps(GoToNextStep(s), k - 1)
  }

  /** Each of k presses advances one step while later steps remain. */
  lemma {:induction false} AdvanceSteps(s: CourseState, k: nat)
    requires s.content.Some?
    requires -1 <= s.cursor.stepIndex && s.cursor.stepIndex + k <= StepCount(s.content.value) - 1
    ensures NextSteps(s, k) == s.(cursor := s.cursor.(stepIndex := s.cursor.stepIndex + k))
    decreases k
  {
    if k > 0 {
      AdvanceSteps(GoToNextStep(s), k - 1);
    }
  }

  /** From the first step of an N-step course, N-1 presses reach the last
      step and one more enters the quiz at question 0, still on that step. */
  lemma ReachQuiz(c: CourseContent, q: int)
    requires StepCount(c) >= 1
    ensures NextSteps(CourseState(Some(c), Cursor(0, q, false)), StepCount(c) - 1)
      == CourseState(Some(c), Cursor(StepCount(c) - 1, q, false))
    ensures NextSteps(CourseState(Some(c), Cursor(0, q, false)), StepCount(c))
      == CourseState(Some(c), Cursor(StepCount(c) - 1, 0, true))
  {
    var s := CourseState(Some(c), Cursor(0, q, false));
    var n := StepCount(c);
    AdvanceSteps(s, n - 1);
    NextStepsSplit(s, n - 1);
  }

  lemma {:induction false} NextStepsSplit(s: CourseState, k: nat)
    ensures NextSteps(s, k + 1) == GoToNextStep(NextSteps(s, k))
    decreases k
  {
    if k > 0 {
      NextStepsSplit(GoToNextStep(s), k - 1);
    }
  }

  /** Boundary behaviour: previous at the intro and next beyond the last
      step change nothing. */
  lemma Boundaries(s: CourseState)
    requires s.content.Some?
    ensures s.cursor.stepIndex == -1 ==> GoToPreviousStep(s) == s
    ensures s.cursor.stepIndex == StepCount(s.content.value) ==> GoToNextStep(s) == s
  {
  }
}
