/** Screen selection: `CourseRenderer` picks one screen from the course and
    the cursor; the app repeats the same dispatch behind its configuration
    and course gates. */
module Renderer {
  import opened Common
  import opened CourseGeneration
  import opened Navigation

  /** The screen shown, with the values handed to it. A step screen carries
      the array read `content[stepIndex]`, which is missing when out of
      range. */
  datatype Screen =
    | IntroScreen
    | QuizScreen(questionIndex: int, isFirstQuestion: bool, isLastQuestion: bool)
    | SuccessScreen
    | StepScreen(stepIndex: int, currentStep: Option<CourseStep>, isFirstStep: bool, isLastStep: bool)

  /** A JavaScript array read: `undefined` outside the array. */
  function At<T>(xs: seq<T>, i: int): (r: Option<T>)
    ensures r.Some? <==> 0 <= i < |xs|
    ensures r.Some? ==> r.value == xs[i]
  {
    if 0 <= i < |xs| then Some(xs[i]) else None
  }

  /** `courseContent.quiz && courseContent.quiz.length > 0`. */
  predicate HasQuiz(c: CourseContent) {
    c.quiz.Some? && |c.quiz.value| > 0
  }

  /** `CourseRenderer`: the intro check comes first, then the quiz (only
      when a non-empty quiz exists), then the success page, then a step. */
  function Select(c: CourseContent, cur: Cursor): (r: Screen)
    ensures r.IntroScreen? <==> cur.stepIndex == -1
    ensures r.QuizScreen? <==> cur.stepIndex != -1 && cur.isInQuiz && HasQuiz(c)
    ensures r.SuccessScreen? <==>
      cur.stepIndex == StepCount(c) && cur.stepIndex != -1 && !(cur.isInQuiz && HasQuiz(c))
    ensures r.QuizScreen? ==>
      && r.questionIndex == cur.quizIndex
      && (r.isFirstQuestion <==> cur.quizIndex == 0)
      && (r.isLastQuestion <==> cur.quizIndex == QuizCount(c) - 1)
    ensures r.StepScreen? ==>
      && r.stepIndex == cur.stepIndex
      && r.currentStep == At(c.content, cur.stepIndex)
      && (r.isFirstStep <==> cur.stepIndex == 0)
      && (r.isLastStep <==> cur.stepIndex == StepCount(c) - 1)
  {
    if cur.stepIndex == -1 then
      IntroScreen
    else if cur.isInQuiz && HasQuiz(c) then
      QuizScreen(cur.quizIndex, cur.quizIndex == 0, cur.quizIndex == |c.quiz.value| - 1)
    else if cur.stepIndex == |c.content| then
      SuccessScreen
    else
      StepScreen(cur.stepIndex, At(c.content, cur.stepIndex), cur.stepIndex == 0, cur.stepIndex == |c.content| - 1)
  }

  /** Within the navigation bounds, a step screen reads an existing step and
      a quiz screen an existing question. */
  lemma SelectInBounds(s: CourseState)
    requires s.content.Some? && Inv(s)
    ensures Select(s.content.value, s.cursor).StepScreen? ==>
      && 0 <= s.cursor.stepIndex < StepCount(s.content.value)
      && Select(s.content.value, s.cursor).currentStep == Some(s.content.value.content[s.cursor.stepIndex])
    ensures Select(s.content.value, s.cursor).QuizScreen? ==>
      0 <= s.cursor.quizIndex < QuizCount(s.content.value)
  {
  }

  /** The intro check precedes the quiz check. */
  lemma IntroWinsOverQuiz(c: CourseContent, q: int)
    ensures Select(c, Cursor(-1, q, true)) == IntroScreen
  {
  }

  /** Without a non-empty quiz, the quiz flag is ignored. */
  lemma QuizFlagIgnoredWithoutQuiz(c: CourseContent, cur: Cursor)
    requires !HasQuiz(c)
    ensures Select(c, cur) == Select(c, cur.(isInQuiz := false))
  {
  }

  /** The app's top-level view. */
  datatype View = ConfigurationErrorView | InputView | CourseView(screen: Screen)

  /** The app: the configuration error screen without a key, the course
      screens only for a held course with at least one step, else the input
      screen. */
  function SelectView(configured: bool, s: CourseState): (v: View)
    ensures !configured ==> v == ConfigurationErrorView
    ensures v.CourseView? <==> configured && s.content.Some? && |s.content.value.content| > 0
    ensures v.InputView? <==> configured && (s.content.None? || |s.content.value.content| == 0)
    ensures v.CourseView? ==> v.screen == Select(s.content.value, s.cursor)
  {
    if !configured then ConfigurationErrorView
    else if s.content.Some? && |s.content.value.content| > 0 then CourseView(Select(s.content.value, s.cursor))
    else InputView
  }

  /** Going home always leads back to the input screen. */
  lemma HomeShowsInput(s: CourseState)
    ensures SelectView(true, ResetCourse(s)) == InputView
  {
  }
}
