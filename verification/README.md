# Course generator: verified model of the course core

This project models the sequential logic of a single-page app. The app sends a free-text request
("teach me to do X") to a language model and validates the structured course that comes back.
It then walks the user through the course: intro, steps, quiz questions, success page.
The model is written in Dafny and covers:

- **Course service** (`CourseGeneration`). It has the step and course schemas as predicates over
  parsed JSON, and schema parsing with its inverse (serialisation). It also has the prompt
  template and `generateStructuredCourseContent`. In that function, the model call and
  `JSON.parse` are oracles passed in as functions.
- **Navigation** (`Navigation`). This is the `useCourse` hook: a cursor
  `(stepIndex, quizIndex, isInQuiz)` and its transitions. The app component repeats these
  handlers word for word, so one definition serves both.
- **Screen selection** (`Renderer`). This is `CourseRenderer`'s dispatch and the app's
  configuration and course gates.
- **Answer sub-state** (`QuizAnswer`). These are the quiz screen's `(selectedAnswer, showResult,
  hasAnswered)` and its buttons.
- **Request lifecycle** (`App`, `HomePage`). There are two atomic phases: accept, then settle.
  The `Enter` key handler is included. `App` also defines runs of the events each screen offers,
  and an invariant over every state those runs reach.
- **Walkthroughs** (`Walkthrough`). These cover the quiz screen wired to the cursor and the full
  walk to the success page. They also cover the defect below.

The screens read `courseContent.quiz` (src/App.tsx:125, src/hooks/useCourse.ts:30). The course
schema (src/services/courseGeneration.ts:30-34) declares no quiz and drops undeclared keys, so a
validated course never carries one.

## Model

| member | source | states |
|---|---|---|
| `CourseGeneration.ParseStep` | src/services/courseGeneration.ts:24-28 | a step parses iff `step` is a positive integer and `title` and `content` are non-empty strings; the result carries exactly those values |
| `CourseGeneration.ParseSteps` | src/services/courseGeneration.ts:33 | an array of steps parses iff every element is a valid step; the result has the same length and element i is element i's parse |
| `CourseGeneration.ParseCourse` | src/services/courseGeneration.ts:30-34 | a course parses iff title and description are non-empty and `content` is an array of 5 to 10 valid steps; the result is schema-valid, keeps title and description, its steps are exactly the parsed elements of `content`, and it never carries a quiz |
| `CourseGeneration.CourseRoundTrip` | src/services/courseGeneration.ts:24-34 | a schema-valid course, serialised and parsed again, validates and is field-for-field the same course apart from the undeclared quiz |
| `CourseGeneration.ParseIdempotent` | src/services/courseGeneration.ts:74 | what the schema returns parses again to itself |
| `CourseGeneration.AnyStepNumbersValidate` | src/services/courseGeneration.ts:24-33 | step numbers are not tied to positions: any positive numbers, duplicated or out of order, still validate |
| `CourseGeneration.DuplicateStepNumbersValidate` | src/services/courseGeneration.ts:25 | a concrete course numbered 3, 3, 1, 9, 2 validates |
| `CourseGeneration.FourStepsRejected` | src/services/courseGeneration.ts:33 | a course of four steps does not validate |
| `CourseGeneration.CreateCoursePrompt` | src/services/courseGeneration.ts:39-45 | the prompt is the fixed prefix, then the request verbatim, then the fixed suffix, with its length the sum of the three |
| `CourseGeneration.RequestOf` | src/services/courseGeneration.ts:39-45 | any request recovered from a prompt rebuilds that exact prompt |
| `CourseGeneration.PromptRoundTrip` | src/services/courseGeneration.ts:39-45 | the request is recovered from its prompt |
| `CourseGeneration.PromptInjective` | src/services/courseGeneration.ts:39-45 | distinct requests give distinct prompts |
| `CourseGeneration.Generate` | src/services/courseGeneration.ts:50-100 | the function always returns a result. Success holds iff a course is present iff no error is present. Success means a schema-valid course without a quiz, parsed from the message. A thrown call gives the generic error. A missing or empty message gives "No content was generated.". A parse or validation failure gives the parse error |
| `Common.BlankIffTrimEmpty` | src/App.tsx:31 | the blank test is true exactly when trimming leaves the empty string |
| `Navigation.StartCourse` | src/hooks/useCourse.ts:57-62 | stores the course and puts the cursor on the intro `(-1, 0, false)` |
| `Navigation.BeginCourse` | src/App.tsx:118 | the intro's start button moves to step 0 and touches nothing else |
| `Navigation.GoToNextStep` | src/hooks/useCourse.ts:10-21 | the step advances by one iff a later step exists. From the last step it enters the quiz at question 0 without moving. Without a course, or past the last step, it changes nothing. The course is never changed |
| `Navigation.GoToPreviousStep` | src/hooks/useCourse.ts:23-27 | decrements the step iff it is above -1, else no change; the quiz fields are untouched |
| `Navigation.GoToNextQuestion` | src/hooks/useCourse.ts:29-33 | needs the quiz once a course is held; advances iff a later question exists, else no change |
| `Navigation.GoToPreviousQuestion` | src/hooks/useCourse.ts:35-43 | decrements the question when above 0; otherwise leaves the quiz for the last step (needs a course) |
| `Navigation.HandleQuizComplete` | src/hooks/useCourse.ts:45-48 | leaves the quiz and moves to the success page `stepIndex = N` (needs a course) |
| `Navigation.ResetCourse` | src/hooks/useCourse.ts:50-55 | drops the course and resets the cursor to `(0, 0, false)`; the app's `goToHome` (src/App.tsx:99-104) is the same |
| `Navigation.RunPreservesInv` | src/hooks/useCourse.ts:10-62 | every run of transitions from a bounded state keeps `-1 <= stepIndex <= N` and `0 <= quizIndex <= max(Q-1, 0)` |
| `Navigation.NextThenPrevious` | src/hooks/useCourse.ts:10-27 | outside the quiz and before the last step, previous undoes next |
| `Navigation.PreviousThenNext` | src/hooks/useCourse.ts:10-27 | outside the quiz on any step, next undoes previous |
| `Navigation.AdvanceSteps` | src/hooks/useCourse.ts:10-21 | k presses of next advance exactly k steps while later steps remain |
| `Navigation.ReachQuiz` | src/hooks/useCourse.ts:10-21 | from step 0, N-1 presses reach the last step and one more enters question 0 on that step |
| `Navigation.Boundaries` | src/hooks/useCourse.ts:10-27 | previous at the intro and next on the success page change nothing |
| `Renderer.Select` | src/components/CourseRenderer.tsx:31-84 | intro iff `stepIndex = -1`. Quiz iff not intro and in the quiz with a non-empty quiz; first/last iff question 0 / Q-1. Success iff neither of those and `stepIndex = N`. Otherwise the step screen reads `content[stepIndex]`; first/last iff step 0 / N-1 |
| `Renderer.SelectInBounds` | src/components/CourseRenderer.tsx:69 | within the navigation bounds a step screen reads an existing step and a quiz screen an existing question |
| `Renderer.IntroWinsOverQuiz` | src/components/CourseRenderer.tsx:32-43 | `stepIndex = -1` shows the intro even with the quiz flag set |
| `Renderer.QuizFlagIgnoredWithoutQuiz` | src/components/CourseRenderer.tsx:43-84 | without a non-empty quiz the quiz flag does not affect the screen |
| `Renderer.SelectView` | src/App.tsx:107-188 | no key shows the configuration error whatever else holds. Course screens are shown iff a course with at least one step is held, and then they are the renderer's choice. Otherwise the input screen is shown |
| `Renderer.HomeShowsInput` | src/App.tsx:99-112 | going home always leads to the input screen |
| `QuizAnswer.SelectAnswer` | src/components/CourseQuiz.tsx:37-41 | choosing sets the selection only while the answer is not locked; once locked, nothing changes |
| `QuizAnswer.CheckAnswer` | src/components/CourseQuiz.tsx:43-48 | with a selection, shows the result and locks the answer; without one, does nothing |
| `QuizAnswer.HandleNext` | src/components/CourseQuiz.tsx:50-60 | on the last question fires only the completion callback and keeps the state; otherwise fires next-question and resets to `(null, false, false)` |
| `QuizAnswer.HandlePrevious` | src/components/CourseQuiz.tsx:62-68 | always fires previous-question and resets to `(null, false, false)` |
| `QuizAnswer.PressesKeepConsistent` | src/components/CourseQuiz.tsx:29-68 | in every reachable sub-state `showResult = hasAnswered`, and a locked answer has a selection |
| `QuizAnswer.AnswerLocked` | src/components/CourseQuiz.tsx:37-48 | after checking, any choosing and checking leave the sub-state unchanged |
| `QuizAnswer.ChooseThenCheck` | src/components/CourseQuiz.tsx:70 | choosing then checking locks in exactly that option, and the answer is correct iff it is the question's correct option |
| `QuizAnswer.NavigationNeedsAnswer` | src/components/CourseQuiz.tsx:212-217 | next and previous are offered only once the result shows, and then the answer is locked with a selection |
| `App.Boot` | src/App.tsx:17-28 | after mount and the key probe: empty box, not loading, no call out, no course, home cursor; the input screen with a key, the configuration error without |
| `App.Offered` | src/components/CourseStep.tsx:66-88 | which events the current view lets happen. Typing, keys and send need the input screen and no pending request (CourseInput.tsx:59-67), and send needs a non-blank box. Settling needs a call out. Navigation needs a course screen and never restarts the course. Previous-step is offered only on a step screen other than step 0 (the disabled button at CourseStep.tsx:69-70). Complete-quiz only on the last question, next/previous-question only on a question screen. Begin only on the intro (CourseIntro.tsx:42). Home on every course screen (CourseProgress.tsx:19, CourseSuccess.tsx:38) |
| `App.Accept` | src/App.tsx:31-34 | a blank input, a pending request or a missing key leave the state as it is; otherwise the input is cleared, loading starts and the untrimmed input is sent |
| `App.Complete` | src/App.tsx:36-49 | loading always ends. On success the course is stored and the cursor goes to the intro, with the quiz fields kept. On failure or exception the course and cursor are unchanged |
| `App.HandleKeyPress` | src/App.tsx:52-57 | Enter without Shift submits; Shift+Enter and other keys do nothing |
| `App.ExceptionLikeFailure` | src/App.tsx:39-49 | a rejected call and a failed result leave the same state |
| `App.RunKeepsInv` | src/App.tsx:30-188 | every run of offered events from mount keeps: loading iff a call is out; no course while one is out; home cursor without a course; a held course is schema-valid, has no quiz, and has a bounded cursor never past the last step |
| `App.StepScreenInBounds` | src/App.tsx:151 | in every reachable state the step screen's `content[stepIndex]` exists |
| `App.UnconfiguredShowsError` | src/App.tsx:107-109 | without a key the configuration error is shown and no request is accepted |
| `App.GenerateLifecycle` | src/App.tsx:30-50 | a request accepted on the input screen and settled by the service either shows the validated course from its intro, exactly as `startCourse` sets it, or leaves the course unchanged; loading ends either way |
| `HomePage.Accept` | src/components/HomePage.tsx:14-17 | a blank input or a pending request leave the state as it is; otherwise the input is cleared, loading starts and the untrimmed input is sent |
| `HomePage.Complete` | src/components/HomePage.tsx:19-31 | loading ends; the parent's callback gets the course exactly once on success and is not called on failure or exception |
| `HomePage.HandleKeyPress` | src/components/HomePage.tsx:34-39 | Enter without Shift submits; Shift+Enter and other keys do nothing |
| `HomePage.GuardMatchesApp` | src/components/HomePage.tsx:14 | with a key the page and the app accept the same requests; without one the app refuses what the page still sends |
| `HomePage.GenerateLifecycle` | src/components/HomePage.tsx:13-32 | one accepted request delivers exactly one schema-valid course on success and none otherwise |
| `Walkthrough.QuizNextWiring` | src/components/CourseQuiz.tsx:50-60 | next on question j shows question j+1 with a fresh answer, or the success page from the last question |
| `Walkthrough.QuizPreviousWiring` | src/components/CourseQuiz.tsx:62-68 | previous on question j > 0 shows question j-1; on question 0 it shows the last step again |
| `Walkthrough.AdvanceQuestions` | src/hooks/useCourse.ts:29-33 | k presses of next-question advance exactly k questions while later ones remain |
| `Walkthrough.WalkWithQuiz` | src/hooks/useCourse.ts:10-62 | with N >= 1 steps and a quiz: intro, step 0, N presses to question 0, Q-1 more to the last question, then complete shows success |
| `Walkthrough.SuccessNeverShown` | src/App.tsx:59-70 | as written, no run of offered events ever shows the success page or a quiz question |
| `Walkthrough.CompleteOnLastStepIsStuck` | src/App.tsx:59-70 | as written, the last step's "Complete" button leaves the view unchanged |
| `Walkthrough.GoToNextStepCorrected` | src/hooks/useCourse.ts:10-21 | intended transition: from the last step of a course without a quiz, go to the success page |
| `Walkthrough.CorrectedAgrees` | src/hooks/useCourse.ts:10-21 | the correction equals the written transition for courses with a quiz and before the last step |
| `Walkthrough.CorrectedReachesSuccess` | src/hooks/useCourse.ts:10-21 | with the correction, N presses of next from step 0 of a quiz-less course show the success page |

## Left out

- The OpenAI/OpenRouter client (`src/lib/openrouter.ts`). It reads an environment variable and builds a foreign SDK client. "Configured" is an input boolean. A failed client construction is one of the ways the model call throws.
- The remote model call, its schema-constrained response format and `JSON.parse`. They are oracle parameters of `Generate`: one returns threw / completed with an optional message, the other an optional JSON value.
- Zod's internal behaviour beyond the declared checks. Unknown keys are dropped, so no claim says the returned course equals its JSON input.
- JSON numbers are exact reals. Double-precision rounding, `Infinity` from overlong literals, and `NaN` are not modelled.
- String length is counted in characters. JavaScript counts UTF-16 code units. The difference matters only for "non-empty", where the two agree.
- Progress percentages in the quiz and step screens. They are floating-point and cosmetic.
- Presentational components (`CourseStep`, `CourseIntro`, `CourseSuccess`, `CourseProgress`, `CourseInput`, `ConfigurationError`, `textarea`). Only which of their buttons are enabled enters `App.Offered`.
- Diagnostic logging.
- React scheduling and async interleaving. Each handler is one atomic step. A request is two steps: accept, then settle.
- The raw `setCurrentStepIndex` export of the hook. It bypasses every guard.

## Findings

| source | as written | input that shows it | evidently intended | confidence | as-written member | corrected member |
|---|---|---|---|---|---|---|
| src/hooks/useCourse.ts:10-21 with src/services/courseGeneration.ts:30-34 | The schema declares no quiz and drops undeclared keys, so every generated course lacks one. Pressing "Complete" on the last step only sets the quiz flag. The renderer ignores that flag without a quiz and shows the same step again. The success page is never reached | any successful generation; walk to the last step and press "Complete" | from the last step of a course without a quiz, go to the success page, as the button's label says | high, not executed | `Walkthrough.SuccessNeverShown` | `Walkthrough.CorrectedReachesSuccess` |

The app-level model (`App`, `Walkthrough.SuccessNeverShown`) keeps the transition as written, because that is what the code does. `Walkthrough.GoToNextStepCorrected` is the intended transition. It is proved equal to the written one wherever the two should agree (`Walkthrough.CorrectedAgrees`). For a quiz-less course it is proved to reach the success page.
