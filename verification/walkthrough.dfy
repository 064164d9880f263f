/** Whole walks through a course: the quiz screen wired to the cursor, the
    full walk intro -> steps -> questions -> success, and what happens to a
    course that carries no quiz. */
module Walkthrough {
  import opened Common
  import opened CourseGeneration
  import opened Navigation
  import opened Renderer
  import opened QuizAnswer
  import opened App

  /** Runs the parent handler a quiz button fires. */
  function Dispatch(s: CourseState, cb: Callback): CourseState
    requires s.content.Some? && s.content.value.quiz.Some?
  {
    match cb
    case OnQuizComplete => HandleQuizComplete(s)
    case OnNextQuestion => GoToNextQuestion(s)
    case OnPreviousQuestion => GoToPreviousQuestion(s)
  }

  /** Next on a question screen: question j+1 with a fresh answer, or, on the
      last question, the success page. */
  lemma QuizNextWiring(s: CourseState, a: AnswerState)
    requires s.content.Some? && HasQuiz(s.content.value) && Inv(s)
    requires Select(s.content.value, s.cursor).QuizScreen?
    ensures var c := s.content.value;
      var sc := Select(c, s.cursor);
      var (cb, b) := HandleNext(a, sc.isLastQuestion);
      var t := Dispatch(s, cb);
      && (sc.isLastQuestion ==> Select(c, t.cursor) == SuccessScreen)
      && (!sc.isLastQuestion ==>
            && b == Fresh
            && Select(c, t.cursor).QuizScreen?
            && Select(c, t.cursor).questionIndex == sc.questionIndex + 1)
  {
    SelectInBounds(s);
  }

  /** Previous on question j > 0 shows question j-1; on question 0 it shows
      the last step again. The answer starts fresh either way. */
  lemma QuizPreviousWiring(s: CourseState, a: AnswerState)
    requires s.content.Some? && HasQuiz(s.content.value) && Inv(s)
    requires StepCount(s.content.value) >= 1
    requires Select(s.content.value, s.cursor).QuizScreen?
    ensures var c := s.content.value;
      var sc := Select(c, s.cursor);
      var (cb, b) := HandlePrevious(a);
      var t := Dispatch(s, cb);
      && b == Fresh
      && (sc.questionIndex > 0 ==>
            Select(c, t.cursor).QuizScreen? && Select(c, t.cursor).questionIndex == sc.questionIndex - 1)
      && (sc.questionIndex == 0 ==>
            Select(c, t.cursor).StepScreen? && Select(c, t.cursor).isLastStep
            && Select(c, t.cursor).currentStep == Some(c.content[StepCount(c) - 1]))
  {
  }

  /** `GoToNextQuestion` applied k times. */
  function NextQuestions(s: CourseState, k: nat): (r: CourseState)
    requires s.content.None? || s.content.value.quiz.Some?
    ensures r.content == s.content
    decreases k
  {
    if k == 0 then s else NextQuestions(GoToNextQuestion(s), k - 1)
  }

  lemma {:induction false} AdvanceQuestions(s: CourseState, k: nat)
    requires s.content.Some? && s.content.value.quiz.Some?
    requires 0 <= s.cursor.quizIndex && s.cursor.quizIndex + k <= QuizCount(s.content.value) - 1
    ensures NextQuestions(s, k) == s.(cursor := s.cursor.(quizIndex := s.cursor.quizIndex + k))
    decreases k
  {
    if k > 0 {
      AdvanceQuestions(GoToNextQuestion(s), k - 1);
    }
  }

  /** The full walk of a course with N >= 1 steps and a non-empty quiz of Q
      questions: start, begin, N presses of next land on question 0, Q-1
      more on the last question, and completing shows the success page. */
  lemma WalkWithQuiz(c: CourseContent)
    requires StepCount(c) >= 1 && HasQuiz(c)
    ensures var s1 := BeginCourse(StartCourse(c));
      var s2 := NextSteps(s1, StepCount(c));
      var s3 := NextQuestions(s2, QuizCount(c) - 1);
      && Select(c, StartCourse(c).cursor) == IntroScreen
      && Select(c, s1.cursor).StepScreen? && Select(c, s1.cursor).isFirstStep
      && Select(c, s2.cursor) == QuizScreen(0, true, QuizCount(c) == 1)
      && Select(c, s3.cursor) == QuizScreen(QuizCount(c) - 1, QuizCount(c) == 1, true)
      && Select(c, HandleQuizComplete(s3).cursor) == SuccessScreen
  {
    var s1 := BeginCourse(StartCourse(c));
    ReachQuiz(c, 0);
    var s2 := NextSteps(s1, StepCount(c));
    AdvanceQuestions(s2, QuizCount(c) - 1);
  }

  // ---------------------------------------------------------------------
  // A course without a quiz

  /** As written, the app never shows the success page (nor a question):
      the validated course has no quiz, so completing is never offered and
      the cursor never passes the last step. */
  lemma SuccessNeverShown(configured: bool, evs: seq<AppEvent>)
    requires RunApp(Boot(configured), evs).Some?
    ensures var t := RunApp(Boot(configured), evs).value;
      var v := SelectView(t.configured, t.course);
      v.CourseView? ==> !v.screen.SuccessScreen? && !v.screen.QuizScreen?
  {
    BootInv(configured);
    RunKeepsInv(Boot(configured), evs);
  }

  /** As written, the "Complete" button on the last step leaves the view as
      it was. */
  lemma CompleteOnLastStepIsStuck(s: AppState)
    requires AppInv(s)
    requires SelectView(s.configured, s.course).CourseView?
    requires SelectView(s.configured, s.course).screen.StepScreen?
    requires SelectView(s.configured, s.course).screen.isLastStep
    ensures Offered(s, Navigate(NextStep))
    ensures SelectView(s.configured, Step(s, Navigate(NextStep)).course) == SelectView(s.configured, s.course)
  {
  }

  /** The intended next-step transition: from the last step, enter the quiz
      when there is one, and otherwise go to the success page. */
  function GoToNextStepCorrected(s: CourseState): (r: CourseState)
    ensures r.content == s.content
    ensures s.content.Some? && !HasQuiz(s.content.value) && s.cursor.stepIndex == StepCount(s.content.value) - 1 ==>
      r.cursor == s.cursor.(stepIndex := StepCount(s.content.value))
  {
    match s.content
    case Some(c) =>
      if s.cursor.stepIndex == |c.content| - 1 && !HasQuiz(c) then
        s.(cursor := s.cursor.(stepIndex := |c.content|))
      else
        GoToNextStep(s)
    case None => s
  }

  /** The correction changes nothing for a course with a quiz, nor before
      the last step. */
  lemma CorrectedAgrees(s: CourseState)
    requires s.content.None? || HasQuiz(s.content.value) || s.cursor.stepIndex != StepCount(s.content.value) - 1
    ensures GoToNextStepCorrected(s) == GoToNextStep(s)
  {
  }

  function CorrectedNextSteps(s: CourseState, k: nat): CourseState
    decreases k
  {
    if k == 0 then s else CorrectedNextSteps(GoToNextStepCorrected(s), k - 1)
  }

  lemma {:induction false} CorrectedAdvance(s: CourseState, k: nat)
    requires s.content.Some?
    requires -1 <= s.cursor.stepIndex && s.cursor.stepIndex + k <= StepCount(s.content.value) - 1
    ensures CorrectedNextSteps(s, k) == NextSteps(s, k)
    decreases k
  {
    if k > 0 {
      CorrectedAgrees(s);
      CorrectedAdvance(GoToNextStep(s), k - 1);
    }
  }

  lemma {:induction false} CorrectedNextStepsSplit(s: CourseState, k: nat)
    ensures CorrectedNextSteps(s, k + 1) == GoToNextStepCorrected(CorrectedNextSteps(s, k))
    decreases k
  {
    if k > 0 {
      CorrectedNextStepsSplit(GoToNextStepCorrected(s), k - 1);
    }
  }

  /** With the correction, a course without a quiz (every course the
      service returns) reaches the success page after N presses of next. */
  lemma CorrectedReachesSuccess(c: CourseContent)
    requires StepCount(c) >= 1 && !HasQuiz(c)
    ensures Select(c, CorrectedNextSteps(BeginCourse(StartCourse(c)), StepCount(c)).cursor) == SuccessScreen
  {
    var s1 := BeginCourse(StartCourse(c));
    var n := StepCount(c);
    CorrectedAdvance(s1, n - 1);
    AdvanceSteps(s1, n - 1);
    CorrectedNextStepsSplit(s1, n - 1);
  }
}
