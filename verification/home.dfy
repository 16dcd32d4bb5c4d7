/**
 The Home page's topic form: a text field whose value is the page's only
 state, four example buttons that fill it in, and a submit handler that either
 routes to the Visualize page carrying the topic or rejects the submission.
 The toast messages and the router call are side effects; the model returns
 the decision as a value instead.
 */
module Home {
  import opened JsString

  const VisualizeRoute: string := "/visualize"

  /** The "Try:" buttons, in display order. */
  const ExampleTopics: seq<string> :=
    ["Pythagorean Theorem", "Quadratic Equations", "Derivatives", "Integration"]

  /** The page's state: the text field's value. */
  datatype HomeState = HomeState(topic: string)

  /** What a submission leads to. */
  datatype Submission =
    | Navigate(route: string, topic: string)  // success toast, then routing with `state: { topic }`
    | Rejected                               // error toast, no routing

  /** `useState("")`: the field starts empty. */
  const Initial: HomeState := HomeState("")

  /** The field's `onChange`: the topic becomes whatever was typed. */
  function Edit(h: HomeState, value: string): (h': HomeState)
    ensures h'.topic == value
  {
    HomeState(value)
  }

  /** A click on the example button at `index`. */
  function PickExample(h: HomeState, index: int): (h': HomeState)
    requires 0 <= index < |ExampleTopics|
    ensures h'.topic == ExampleTopics[index]
    ensures !Blank(h'.topic)
  {
    var t := ExampleTopics[index];
    assert !IsTrimmable(t[0]);
    HomeState(t)
  }

  /** `handleSubmit`: accept iff `topic.trim()` is non-empty, i.e. iff the topic
      is not blank, and then hand on the topic exactly as typed. */
  function Submit(h: HomeState): (o: Submission)
    ensures o.Navigate? <==> !Blank(h.topic)
    ensures o.Navigate? ==> o.route == VisualizeRoute && o.topic == h.topic
  {
    if Trim(h.topic) != [] then Navigate(VisualizeRoute, h.topic) else Rejected
  }

  /** Submitting before typing anything is rejected. */
  lemma SubmitInitialRejected()
    ensures Submit(Initial) == Rejected
  {
  }

  /** Submitting right after picking an example always routes to the
      Visualize page with that example. */
  lemma SubmitAfterExampleAccepted(h: HomeState, index: int)
    requires 0 <= index < |ExampleTopics|
    ensures Submit(PickExample(h, index)) == Navigate(VisualizeRoute, ExampleTopics[index])
  {
  }

  /** Submitting right after typing routes iff the typed text is not blank,
      and then carries exactly the typed text. */
  lemma SubmitAfterEdit(h: HomeState, value: string)
    ensures Submit(Edit(h, value)) ==
      if Blank(value) then Rejected else Navigate(VisualizeRoute, value)
  {
  }

  /** Surrounding blanks never change the decision, yet they are carried along:
      the route receives the padded topic, not the trimmed one. */
  lemma {:induction false} PaddingKeepsDecision(w1: string, s: string, w2: string)
    requires Blank(w1) && Blank(w2)
    ensures Submit(HomeState(w1 + s + w2)).Navigate? <==> Submit(HomeState(s)).Navigate?
    ensures Submit(HomeState(w1 + s + w2)).Navigate? ==>
      Submit(HomeState(w1 + s + w2)).topic == w1 + s + w2
  {
    var p := w1 + s + w2;
    if Blank(s) {
      assert Blank(p) by {
        forall i | 0 <= i < |p| ensures IsTrimmable(p[i]) {
          if i < |w1| {
            assert p[i] == w1[i];
          } else if i < |w1| + |s| {
            assert p[i] == s[i - |w1|];
          } else {
            assert p[i] == w2[i - |w1| - |s|];
          }
        }
      }
    } else {
      var i :| 0 <= i < |s| && !IsTrimmable(s[i]);
      assert p[|w1| + i] == s[i];
    }
  }
}
