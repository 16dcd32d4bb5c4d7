/**
 The route from the Home page to the Visualize page: the topic a successful
 submission carries in the router state is the topic the Visualize page shows
 and interpolates into its first step.
 */
module Handoff {
  import opened Optional
  import opened StepViewer
  import opened Lessons
  import opened Home

  /** An accepted topic is never replaced by the default: the Visualize page
      shows it as typed (blanks included), opens on its introduction, and has
      five steps. */
  lemma AcceptedTopicIsShown(h: HomeState)
    ensures Submit(h).Navigate? ==> ResolveTopic(Some(Submit(h).topic)) == h.topic
    ensures Submit(h).Navigate? ==>
      var intro := Current(Start(Lesson(ResolveTopic(Some(Submit(h).topic)))));
      intro.description[|IntroPrefix|..|IntroPrefix| + |h.topic|] == h.topic
    ensures Submit(h).Navigate? ==> |Lesson(ResolveTopic(Some(Submit(h).topic)))| == 5
  {
  }

  /** Visiting the page without a topic shows the default one. */
  lemma DirectVisitShowsDefault()
    ensures ResolveTopic(None) == DefaultTopic
    ensures Current(Start(Lesson(ResolveTopic(None)))).title == "Introduction"
  {
  }
}
