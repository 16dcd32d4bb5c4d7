/**
 The content the Visualize page steps through: the topic it shows (taken from
 the router state, with a default) and the five hard-coded steps, of which only
 the first one's description depends on the topic.
 */
module Lessons {
  import opened Optional
  import opened StepViewer

  /** Shown when the page is reached without a topic, e.g. from the
      navigation bar's "Start Learning" link. */
  const DefaultTopic: string := "Pythagorean Theorem"

  /** `location.state?.topic || "Pythagorean Theorem"`: JavaScript's `||` falls
      back on a missing topic and on the empty string, the only falsy string. */
  function ResolveTopic(incoming: Option<string>): (t: string)
    ensures t != []
    ensures incoming.Some? && incoming.value != [] ==> t == incoming.value
    ensures incoming == None || incoming == Some([]) ==> t == DefaultTopic
  {
    match incoming
    case Some(s) => if s != [] then s else DefaultTopic
    case None => DefaultTopic
  }

  const IntroPrefix: string := "Welcome to the visualization of "
  const IntroSuffix: string :=
    ". This interactive lesson will guide you through each concept step by step."

  /** The first step, whose description interpolates the topic. */
  function Intro(topic: string): (s: Step) {
    Step("Introduction", IntroPrefix + topic + IntroSuffix, "\U{1F4D0}")
  }

  /** Steps two to five, which are the same whatever the topic. */
  const LaterSteps: seq<Step> := [
    Step("Basic Concept",
         "Let's start with the fundamental idea. Draw a right triangle and label its sides as a, b, and c, where c is the hypotenuse.",
         "\U{25B3}"),
    Step("Visual Proof",
         "The area of the square on side c equals the sum of the areas of squares on sides a and b: a\U{00B2} + b\U{00B2} = c\U{00B2}",
         "\U{25A2}"),
    Step("Example Application",
         "Let's apply this to a real problem. If a = 3 and b = 4, then c\U{00B2} = 9 + 16 = 25, so c = 5.",
         "\U{2713}"),
    Step("Summary",
         "You've now learned the complete concept! Practice with different values to strengthen your understanding.",
         "\U{1F393}")
  ]

  /** The lesson for a topic. */
  function Lesson(topic: string): (r: seq<Step>)
    ensures |r| == 5
    ensures |r[0].description| == |IntroPrefix| + |topic| + |IntroSuffix|
    ensures r[0].description[|IntroPrefix|..|IntroPrefix| + |topic|] == topic
  {
    [Intro(topic)] + LaterSteps
  }

  /** The topic changes nothing but the first step's description: the number
      of steps, every title and glyph, and every later step are fixed. */
  lemma OnlyIntroDependsOnTopic(t1: string, t2: string)
    ensures |Lesson(t1)| == |Lesson(t2)| == 5
    ensures Lesson(t1)[1..] == Lesson(t2)[1..]
    ensures forall i :: 0 <= i < 5 ==>
      Lesson(t1)[i].title == Lesson(t2)[i].title && Lesson(t1)[i].visual == Lesson(t2)[i].visual
  {
  }

  /** Distinct topics give distinct lessons: the interpolation loses nothing. */
  lemma LessonDeterminesTopic(t1: string, t2: string)
    requires Lesson(t1) == Lesson(t2)
    ensures t1 == t2
  {
  }

  /** The five-step page: it opens on "Introduction" at 20 percent with
      Previous disabled, each Next adds 20 percent, and four Next clicks reach
      "Summary" at 100 percent with Next disabled, where a fifth changes nothing. */
  lemma FiveStepWalkthrough(topic: string)
    ensures var v := Start(Lesson(topic));
      && Current(v).title == "Introduction"
      && Progress(v) == 20.0
      && PrevDisabled(v) && !NextDisabled(v)
    ensures forall i :: 0 <= i < 5 ==> Progress(ViewerState(Lesson(topic), i)) == 20.0 * (i + 1) as real
    ensures var w := Run(Start(Lesson(topic)), Clicks(ClickNext, 4));
      && Current(w).title == "Summary"
      && Progress(w) == 100.0
      && NextDisabled(w) && !PrevDisabled(w)
      && Run(Start(Lesson(topic)), Clicks(ClickNext, 5)) == w
  {
  }

  /** The page is shown again at the same route with new router state (the
      navigation bar's "Start Learning" link while on the page, or browser
      history between two entries of it): the mounted page keeps its cursor,
      while the topic and the steps built from it are recomputed. */
  function Relocate(v: ViewerState, incoming: Option<string>): (w: ViewerState)
    requires Valid(v) && |v.steps| == 5
    ensures Valid(w) && w.cur == v.cur
    ensures w.steps == Lesson(ResolveTopic(incoming))
  {
    ViewerState(Lesson(ResolveTopic(incoming)), v.cur)
  }

  /** A relocation moves nothing the user sees except the topic: the progress,
      both disabled flags and every step but the first stay as they were, so a
      cursor past the first step keeps showing the same step. Without router
      state the page shows the default topic without going back to the
      introduction. */
  lemma RelocateKeepsPosition(topic: string, cur: int, incoming: Option<string>)
    requires 0 <= cur < 5
    ensures var v := ViewerState(Lesson(topic), cur);
      var w := Relocate(v, incoming);
      && Progress(w) == Progress(v)
      && (PrevDisabled(w) <==> PrevDisabled(v))
      && (NextDisabled(w) <==> NextDisabled(v))
      && (cur != 0 ==> Current(w) == Current(v))
    ensures incoming == None ==>
      Relocate(ViewerState(Lesson(topic), cur), None).steps == Lesson(DefaultTopic)
  {
  }
}
