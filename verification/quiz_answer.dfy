/** The answer state local to the quiz screen (`CourseQuiz`): which option is
    selected, whether the result is shown, whether the answer is locked. */
module QuizAnswer {
  import opened Common
  import opened CourseGeneration

  datatype AnswerState = AnswerState(selectedAnswer: Option<int>, showResult: bool, hasAnswered: bool)

  /** `(null, false, false)`: the state a question starts in. */
  const Fresh: AnswerState := AnswerState(None, false, false)

  /** `handleAnswerSelect`: takes the option unless the answer is locked. */
  function SelectAnswer(a: AnswerState, option: int): (r: AnswerState)
    ensures a.hasAnswered ==> r == a
    ensures !a.hasAnswered ==> r.selectedAnswer == Some(option)
    ensures r.showResult == a.showResult && r.hasAnswered == a.hasAnswered
  {
    if !a.hasAnswered then a.(selectedAnswer := Some(option)) else a
  }

  /** `handleCheckAnswer`: with an option selected, shows the result and
      locks the answer; with none it does nothing. */
  function CheckAnswer(a: AnswerState): (r: AnswerState)
    ensures a.selectedAnswer.None? ==> r == a
    ensures a.selectedAnswer.Some? ==> r.showResult && r.hasAnswered
    ensures r.selectedAnswer == a.selectedAnswer
  {
    if a.selectedAnswer.Some? then a.(showResult := true, hasAnswered := true) else a
  }

  /** The parent callback a button press invokes. */
  datatype Callback = OnQuizComplete | OnNextQuestion | OnPreviousQuestion

  /** `handleNext`: on the last question completes the quiz and keeps the
      state; otherwise moves on and starts the next question fresh. */
  function HandleNext(a: AnswerState, isLastQuestion: bool): (r: (Callback, AnswerState))
    ensures isLastQuestion ==> r.0 == OnQuizComplete && r.1 == a
    ensures !isLastQuestion ==> r.0 == OnNextQuestion && r.1 == Fresh
  {
    if isLastQuestion then (OnQuizComplete, a) else (OnNextQuestion, Fresh)
  }

  /** `handlePrevious`: always goes back and starts fresh. */
  function HandlePrevious(a: AnswerState): (r: (Callback, AnswerState))
    ensures r.0 == OnPreviousQuestion && r.1 == Fresh
  {
    (OnPreviousQuestion, Fresh)
  }

  /** `isCorrect`: the selection is the question's correct option. */
  predicate IsCorrect(a: AnswerState, q: QuizQuestion) {
    a.selectedAnswer == Some(q.correctAnswer)
  }

  // What the screen offers

  /** Option buttons are disabled once answered. */
  predicate OptionsEnabled(a: AnswerState) { !a.hasAnswered }
  /** The check button is shown until the result is, enabled with a selection. */
  predicate CheckEnabled(a: AnswerState) { !a.showResult && a.selectedAnswer.Some? }
  /** The navigation bar appears with the result. */
  predicate NextEnabled(a: AnswerState) { a.showResult }
  /** Previous is disabled on the first question. */
  predicate PreviousEnabled(a: AnswerState, isFirstQuestion: bool) { a.showResult && !isFirstQuestion }

  datatype Action = Choose(option: int) | Check | Next | Previous

  /** One press on the quiz screen: the callback it fires, if any, and the
      new local state. */
  function Press(a: AnswerState, act: Action, isLastQuestion: bool): (r: (Option<Callback>, AnswerState))
    ensures act.Choose? || act.Check? ==> r.0.None?
    ensures act.Next? || act.Previous? ==> r.0.Some?
  {
    match act
    case Choose(i) => (None, SelectAnswer(a, i))
    case Check => (None, CheckAnswer(a))
    case Next => var (cb, b) := HandleNext(a, isLastQuestion); (Some(cb), b)
    case Previous => var (cb, b) := HandlePrevious(a); (Some(cb), b)
  }

  /** The local state after a series of presses on one question. */
  function Presses(a: AnswerState, acts: seq<Action>, isLastQuestion: bool): AnswerState
    decreases |acts|
  {
    if |acts| == 0 then a else Presses(Press(a, acts[0], isLastQuestion).1, acts[1..], isLastQuestion)
  }

  /** What every reachable sub-state satisfies: the result is shown exactly
      when the answer is locked, and a locked answer has a selection. */
  predicate Consistent(a: AnswerState) {
    a.showResult == a.hasAnswered && (a.hasAnswered ==> a.selectedAnswer.Some?)
  }

  lemma PressKeepsConsistent(a: AnswerState, act: Action, isLastQuestion: bool)
    requires Consistent(a)
    ensures Consistent(Press(a, act, isLastQuestion).1)
  {
  }

  /** From a fresh question, any presses keep `showResult = hasAnswered`. */
  lemma {:induction false} PressesKeepConsistent(a: AnswerState, acts: seq<Action>, isLastQuestion: bool)
    requires Consistent(a)
    ensures Consistent(Presses(a, acts, isLastQuestion))
    decreases |acts|
  {
    if |acts| > 0 {
      PressKeepsConsistent(a, acts[0], isLastQuestion);
      PressesKeepConsistent(Press(a, acts[0], isLastQuestion).1, acts[1..], isLastQuestion);
    }
  }

  /** Once checked, choosing and checking never change the selection. */
  lemma {:induction false} AnswerLocked(a: AnswerState, acts: seq<Action>, isLastQuestion: bool)
    requires Consistent(a) && a.hasAnswered
    requires forall k :: 0 <= k < |acts| ==> acts[k].Choose? || acts[k].Check?
    ensures Presses(a, acts, isLastQuestion) == a
    decreases |acts|
  {
    if |acts| > 0 {
      assert Press(a, acts[0], isLastQuestion).1 == a;
      assert forall k :: 0 <= k < |acts[1..]| ==> acts[1..][k] == acts[k + 1];
      AnswerLocked(a, acts[1..], isLastQuestion);
    }
  }

  /** Choose then check locks in exactly the chosen option. */
  lemma ChooseThenCheck(option: int, q: QuizQuestion)
    ensures CheckAnswer(SelectAnswer(Fresh, option)) == AnswerState(Some(option), true, true)
    ensures IsCorrect(CheckAnswer(SelectAnswer(Fresh, option)), q) <==> option == q.correctAnswer
  {
  }

  /** Navigation is offered only after the result is shown, and in a
      consistent state that means the answer is locked with a selection. */
  lemma NavigationNeedsAnswer(a: AnswerState, isFirstQuestion: bool)
    requires Consistent(a)
    ensures NextEnabled(a) || PreviousEnabled(a, isFirstQuestion) ==>
      a.hasAnswered && a.selectedAnswer.Some? && !OptionsEnabled(a) && !CheckEnabled(a)
  {
  }
}
