/** The course service: the schemas a generated course must satisfy, the
    prompt sent to the model, and the tagged result of one generation. */
module CourseGeneration {
  import opened Common
  import opened Json

  /** One step of a course, as the schema hands it back. */
  datatype CourseStep = CourseStep(step: int, title: string, content: string)

  /** A multiple-choice question. The schema does not declare it; the screens
      read it when a course carries one. */
  datatype QuizQuestion = QuizQuestion(
    question: string,
    options: seq<string>,
    correctAnswer: int,
    explanation: string)

  /** A course. `quiz` is absent unless a course was built with one. */
  datatype CourseContent = CourseContent(
    title: string,
    description: string,
    content: seq<CourseStep>,
    quiz: Option<seq<QuizQuestion>>)

  /** The service's tagged result `{success, courseContent?, error?}`. */
  datatype GenerationResponse = GenerationResponse(
    success: bool,
    courseContent: Option<CourseContent>,
    error: Option<string>)

  const MinSteps: nat := 5
  const MaxSteps: nat := 10

  const NoContentError: string := "No content was generated."
  const ParseError: string := "Failed to parse or validate the generated course content."
  const GenericError: string := "Sorry, there was an error generating structured course content."

  // ---------------------------------------------------------------------
  // Schemas, as predicates over parsed JSON

  /** `z.number().int().positive()` on a property. */
  predicate IsPositiveInt(v: Option<Json>) {
    v.Some? && v.value.JNumber? && IsInteger(v.value.n) && v.value.n > 0.0
  }

  /** `z.string().min(1)` on a property. */
  predicate IsNonEmptyString(v: Option<Json>) {
    v.Some? && v.value.JString? && |v.value.s| >= 1
  }

  /** The step schema: an object with a positive integer `step` and
      non-empty `title` and `content`. Other keys are ignored. */
  predicate StepSchema(j: Json) {
    && IsPositiveInt(Field(j, "step"))
    && IsNonEmptyString(Field(j, "title"))
    && IsNonEmptyString(Field(j, "content"))
  }

  /** The course schema: non-empty `title` and `description`, and `content`
      an array of 5 to 10 valid steps. Nothing ties a step's number to its
      position. */
  predicate CourseSchema(j: Json) {
    && IsNonEmptyString(Field(j, "title"))
    && IsNonEmptyString(Field(j, "description"))
    && Field(j, "content").Some?
    && Field(j, "content").value.JArray?
    && var items := Field(j, "content").value.items;
       && MinSteps <= |items| <= MaxSteps
       && forall i :: 0 <= i < |items| ==> StepSchema(items[i])
  }

  /** The same constraints, on typed values. */
  predicate ValidStep(s: CourseStep) {
    s.step > 0 && |s.title| > 0 && |s.content| > 0
  }

  predicate ValidCourse(c: CourseContent) {
    && |c.title| > 0
    && |c.description| > 0
    && MinSteps <= |c.content| <= MaxSteps
    && forall i :: 0 <= i < |c.content| ==> ValidStep(c.content[i])
  }

  // ---------------------------------------------------------------------
  // Schema parsing (`CourseContentSchema.parse`) and its inverse

  /** Validates one step and keeps only the declared keys. */
  function ParseStep(j: Json): (r: Option<CourseStep>)
    ensures r.Some? <==> StepSchema(j)
    ensures r.Some? ==> ValidStep(r.value)
    ensures r.Some? ==>
      && Field(j, "step") == Some(JNumber(r.value.step as real))
      && Field(j, "title") == Some(JString(r.value.title))
      && Field(j, "content") == Some(JString(r.value.content))
  {
    if StepSchema(j) then
      Some(CourseStep(
        Field(j, "step").value.n.Floor,
        Field(j, "title").value.s,
        Field(j, "content").value.s))
    else
      None
  }

  /** Validates every element of an array; one bad element fails the whole. */
  function ParseSteps(items: seq<Json>): (r: Option<seq<CourseStep>>)
    ensures r.Some? <==> forall i :: 0 <= i < |items| ==> StepSchema(items[i])
    ensures r.Some? ==> |r.value| == |items|
    ensures r.Some? ==> forall i :: 0 <= i < |items| ==> ParseStep(items[i]) == Some(r.value[i])
    decreases |items|
  {
    if |items| == 0 then
      Some([])
    else
      match (ParseStep(items[0]), ParseSteps(items[1..]))
      case (Some(s), Some(rest)) => Some([s] + rest)
      case _ => None
  }

  /** Validates a whole course. The result has only the declared keys, so
      it never carries a quiz, whatever the input held. */
  function ParseCourse(j: Json): (r: Option<CourseContent>)
    ensures r.Some? <==> CourseSchema(j)
    ensures r.Some? ==> ValidCourse(r.value) && r.value.quiz.None?
    ensures r.Some? ==>
      && Field(j, "title") == Some(JString(r.value.title))
      && Field(j, "description") == Some(JString(r.value.description))
      && Field(j, "content").value.JArray?
      && |Field(j, "content").value.items| == |r.value.content|
      && ParseSteps(Field(j, "content").value.items) == Some(r.value.content)
  {
    if CourseSchema(j) then
      var steps := ParseSteps(Field(j, "content").value.items).value;
      Some(CourseContent(Field(j, "title").value.s, Field(j, "description").value.s, steps, None))
    else
      None
  }

  function EncodeStep(s: CourseStep): Json {
    JObject(map["step" := JNumber(s.step as real), "title" := JString(s.title), "content" := JString(s.content)])
  }

  function EncodeSteps(ss: seq<CourseStep>): (r: seq<Json>)
    ensures |r| == |ss|
    decreases |ss|
  {
    if |ss| == 0 then [] else [EncodeStep(ss[0])] + EncodeSteps(ss[1..])
  }

  /** Serialises a course; the quiz, which the schema does not declare, is
      not written. */
  function EncodeCourse(c: CourseContent): Json {
    JObject(map[
      "title" := JString(c.title),
      "description" := JString(c.description),
      "content" := JArray(EncodeSteps(c.content))])
  }

  lemma StepRoundTrip(s: CourseStep)
    requires ValidStep(s)
    ensures ParseStep(EncodeStep(s)) == Some(s)
  {
    assert (s.step as real).Floor == s.step;
  }

  lemma {:induction false} StepsRoundTrip(ss: seq<CourseStep>)
    requires forall i :: 0 <= i < |ss| ==> ValidStep(ss[i])
    ensures ParseSteps(EncodeSteps(ss)) == Some(ss)
    decreases |ss|
  {
    if |ss| > 0 {
      StepRoundTrip(ss[0]);
      StepsRoundTrip(ss[1..]);
      assert EncodeSteps(ss)[1..] == EncodeSteps(ss[1..]);
      assert [ss[0]] + ss[1..] == ss;
    }
  }

  /** A schema-valid course, serialised and parsed again, is schema-valid and
      field-for-field the same, except that a quiz does not survive. */
  lemma CourseRoundTrip(c: CourseContent)
    requires ValidCourse(c)
    ensures CourseSchema(EncodeCourse(c))
    ensures ParseCourse(EncodeCourse(c)) == Some(c.(quiz := None))
  {
    StepsRoundTrip(c.content);
  }

  /** Parsing is idempotent: whatever the schema hands back parses again to
      itself. */
  lemma ParseIdempotent(j: Json)
    requires CourseSchema(j)
    ensures ParseCourse(EncodeCourse(ParseCourse(j).value)) == ParseCourse(j)
  {
    CourseRoundTrip(ParseCourse(j).value);
  }

  /** Gives every step the number `nums[i]`. */
  function Renumber(c: CourseContent, nums: seq<int>): (r: CourseContent)
    requires |nums| == |c.content|
    ensures |r.content| == |c.content|
  {
    c.(content := seq(|nums|, i requires 0 <= i < |nums| => c.content[i].(step := nums[i])))
  }

  /** Step numbers are not checked against positions: any positive numbers,
      duplicated or out of order, still validate. */
  lemma AnyStepNumbersValidate(c: CourseContent, nums: seq<int>)
    requires ValidCourse(c)
    requires |nums| == |c.content|
    requires forall i :: 0 <= i < |nums| ==> nums[i] > 0
    ensures CourseSchema(EncodeCourse(Renumber(c, nums)))
  {
    CourseRoundTrip(Renumber(c, nums));
  }

  /** A course whose five steps are numbered 3, 3, 1, 9, 2 is accepted. */
  lemma DuplicateStepNumbersValidate()
    ensures CourseSchema(EncodeCourse(CourseContent("t", "d", [
      CourseStep(3, "a", "x"), CourseStep(3, "b", "x"), CourseStep(1, "c", "x"),
      CourseStep(9, "d", "x"), CourseStep(2, "e", "x")], None)))
  {
    var c := CourseContent("t", "d", [
      CourseStep(3, "a", "x"), CourseStep(3, "b", "x"), CourseStep(1, "c", "x"),
      CourseStep(9, "d", "x"), CourseStep(2, "e", "x")], None);
    CourseRoundTrip(c);
  }

  /** Four steps are too few. */
  lemma FourStepsRejected(c: CourseContent)
    requires |c.content| == 4
    ensures ParseCourse(EncodeCourse(c)).None?
  {
  }

  // ---------------------------------------------------------------------
  // The prompt

  const PromptPrefix: string :=
    "Generate course content based on this request: I just joined this establishment as their new employee and I want to learn how to do my job. \n"
    + "Today I will be learning about the following task: "

  const PromptSuffix: string :=
    ".\nReturn the response as a valid JSON. The content of each step should contain the instruction for the person to learn how to fullfill the step.\n"
    + "I want only practical steps and not theoretical ones, give me at least 5 steps and max 10 steps.\n"
    + "If a step requires handling ingredients or amounts, I want precise quantities and measurements. Avoid numbered lists for the content of the steps"

  /** The fixed template with the request embedded verbatim. */
  function CreateCoursePrompt(userRequest: string): (p: string)
    ensures |p| == |PromptPrefix| + |userRequest| + |PromptSuffix|
    ensures p[..|PromptPrefix|] == PromptPrefix
    ensures p[|PromptPrefix|..|PromptPrefix| + |userRequest|] == userRequest
    ensures p[|PromptPrefix| + |userRequest|..] == PromptSuffix
  {
    PromptPrefix + userRequest + PromptSuffix
  }

  /** Recovers the request from a prompt, if the prompt has the template's
      shape. */
  function RequestOf(p: string): (r: Option<string>)
    ensures r.Some? ==> CreateCoursePrompt(r.value) == p
  {
    if |p| >= |PromptPrefix| + |PromptSuffix|
       && p[..|PromptPrefix|] == PromptPrefix
       && p[|p| - |PromptSuffix|..] == PromptSuffix
    then
      var r := p[|PromptPrefix|..|p| - |PromptSuffix|];
      SplitThree(p, |PromptPrefix|, |p| - |PromptSuffix|);
      Some(r)
    else
      None
  }

  lemma SplitThree(p: string, i: nat, j: nat)
    requires i <= j <= |p|
    ensures p == p[..i] + p[i..j] + p[j..]
  {
  }

  lemma PromptRoundTrip(userRequest: string)
    ensures RequestOf(CreateCoursePrompt(userRequest)) == Some(userRequest)
  {
    var p := CreateCoursePrompt(userRequest);
    assert p[|p| - |PromptSuffix|..] == PromptSuffix;
  }

  /** Distinct requests give distinct prompts. */
  lemma PromptInjective(a: string, b: string)
    requires CreateCoursePrompt(a) == CreateCoursePrompt(b)
    ensures a == b
  {
    PromptRoundTrip(a);
    PromptRoundTrip(b);
  }

  // ---------------------------------------------------------------------
  // One generation

  /** What the model call did: client creation or the request threw, or it
      completed with the first choice's message content, possibly missing. */
  datatype CallOutcome = Threw | Completed(messageContent: Option<string>)

  function Failed(error: string): GenerationResponse {
    GenerationResponse(false, None, Some(error))
  }

  /** `generateStructuredCourseContent`: one model call on the prompt, then
      parse and validate. `call` stands for the model and `parse` for
      `JSON.parse` (None when it throws). Every path returns a result. */
  function Generate(request: string, call: string -> CallOutcome, parse: string -> Option<Json>)
    : (r: GenerationResponse)
    ensures r.success <==> r.courseContent.Some?
    ensures r.success <==> r.error.None?
    ensures r.success ==> ValidCourse(r.courseContent.value) && r.courseContent.value.quiz.None?
    ensures call(CreateCoursePrompt(request)).Threw? ==> r == Failed(GenericError)
    ensures call(CreateCoursePrompt(request)) in {Completed(None), Completed(Some(""))} ==>
      r == Failed(NoContentError)
    ensures r.success <==>
      && call(CreateCoursePrompt(request)).Completed?
      && call(CreateCoursePrompt(request)).messageContent.Some?
      && call(CreateCoursePrompt(request)).messageContent.value != ""
      && parse(call(CreateCoursePrompt(request)).messageContent.value).Some?
      && CourseSchema(parse(call(CreateCoursePrompt(request)).messageContent.value).value)
    ensures r.success ==>
      r.courseContent == ParseCourse(parse(call(CreateCoursePrompt(request)).messageContent.value).value)
    ensures
      && call(CreateCoursePrompt(request)).Completed?
      && call(CreateCoursePrompt(request)).messageContent.Some?
      && call(CreateCoursePrompt(request)).messageContent.value != ""
      && !r.success
      ==> r == Failed(ParseError)
  {
    match call(CreateCoursePrompt(request))
    case Threw => Failed(GenericError)
    case Completed(message) =>
      if message.None? || message.value == "" then
        Failed(NoContentError)
      else
        match parse(message.value)
        case None => Failed(ParseError)
        case Some(j) =>
          match ParseCourse(j)
          case None => Failed(ParseError)
          case Some(c) => GenerationResponse(true, Some(c), None)
  }
}
