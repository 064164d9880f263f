/** The standalone home page: the same request lifecycle as the app, without
    the configuration check, handing the course to its parent through
    `onCourseGenerated`. */
module HomePage {
  import opened Common
  import opened Json
  import opened CourseGeneration
  import App

  /** The page's input box, loading flag, and the request of the outstanding
      call. */
  datatype HomeState = HomeState(input: string, isLoading: bool, inFlight: Option<string>)

  const Mounted: HomeState := HomeState("", false, None)

  /** First phase of `generateCourse`: a blank input or a pending request
      leave everything as it is; otherwise the box is cleared, loading starts
      and the untrimmed input is sent. */
  function Accept(s: HomeState): (r: HomeState)
    ensures r == s <==> IsBlank(s.input) || s.isLoading
    ensures r != s ==> r.input == "" && r.isLoading && r.inFlight == Some(s.input)
  {
    if IsBlank(s.input) || s.isLoading then s
    else s.(input := "", isLoading := true, inFlight := Some(s.input))
  }

  /** Second phase: the new state and the courses passed to
      `onCourseGenerated`, in call order. */
  function Complete(s: HomeState, o: App.Settlement): (r: (HomeState, seq<CourseContent>))
    ensures !r.0.isLoading && r.0.inFlight.None? && r.0.input == s.input
    ensures App.Delivers(o) ==> r.1 == [o.response.courseContent.value]
    ensures !App.Delivers(o) ==> r.1 == []
  {
    var done := s.(isLoading := false, inFlight := None);
    if App.Delivers(o) then (done, [o.response.courseContent.value]) else (done, [])
  }

  /** `handleKeyPress`: Enter without Shift submits; any other key does
      nothing. */
  function HandleKeyPress(s: HomeState, key: string, shiftKey: bool): (r: HomeState)
    ensures IsSubmitKey(key, shiftKey) ==> r == Accept(s)
    ensures key != "Enter" || shiftKey ==> r == s
  {
    if IsSubmitKey(key, shiftKey) then Accept(s) else s
  }

  /** The page's guard is the app's guard without the configuration check:
      with a key they accept the same requests; without one the app refuses
      what the page still sends. */
  lemma GuardMatchesApp(s: HomeState, a: App.AppState)
    requires a.input == s.input && a.isLoading == s.isLoading
    ensures a.configured ==> (App.Accept(a) != a <==> Accept(s) != s)
    ensures !a.configured ==> App.Accept(a) == a
  {
  }

  /** One request accepted and settled by the service: the parent receives
      exactly one schema-valid course on success and nothing otherwise, and
      loading has ended. */
  lemma GenerateLifecycle(s: HomeState, call: string -> CallOutcome, parse: string -> Option<Json>)
    requires Accept(s) != s
    ensures var r := Generate(s.input, call, parse);
      var (t, calls) := Complete(Accept(s), App.Resolved(r));
      && !t.isLoading && t.input == ""
      && (r.success <==> |calls| == 1)
      && (r.success ==> calls[0] == r.courseContent.value && ValidCourse(calls[0]))
      && (!r.success ==> calls == [])
  {
  }
}
