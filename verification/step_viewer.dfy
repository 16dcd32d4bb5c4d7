/**
 The step viewer of the Visualize page: an integer cursor over a fixed,
 non-empty list of steps, moved by the Previous and Next buttons and by the
 step-indicator buttons, with a progress percentage and enable/disable flags
 derived from it. The page hard-codes five steps; the model works for any
 non-empty list.
 */
module StepViewer {

  /** One step of a lesson: a heading, an explanation and a glyph. */
  datatype Step = Step(title: string, description: string, visual: string)

  /** The viewer: the lesson's steps and the `currentStep` cursor. */
  datatype ViewerState = ViewerState(steps: seq<Step>, cur: int)

  /** The viewer's invariant: the cursor designates a step. It implies the list
      is non-empty. */
  predicate Valid(v: ViewerState) {
    0 <= v.cur < |v.steps|
  }

  /** Index of the last step. */
  function LastIndex(v: ViewerState): (i: int) {
    |v.steps| - 1
  }

  function Min(a: int, b: int): (m: int)
    ensures m <= a && m <= b && (m == a || m == b)
  {
    if a <= b then a else b
  }

  function Max(a: int, b: int): (m: int)
    ensures m >= a && m >= b && (m == a || m == b)
  {
    if a <= b then b else a
  }

  /** The state the page mounts in: `useState(0)`. */
  function Start(steps: seq<Step>): (v: ViewerState)
    requires steps != []
    ensures Valid(v) && v.steps == steps
    ensures Current(v) == steps[0] && PrevDisabled(v)
  {
    ViewerState(steps, 0)
  }

  /** The step on screen: `steps[currentStep]`. */
  function Current(v: ViewerState): (s: Step)
    requires Valid(v)
  {
    v.steps[v.cur]
  }

  /** `nextStep`: advance unless already at the last step. */
  function Next(v: ViewerState): (w: ViewerState)
    requires Valid(v)
    ensures Valid(w) && w.steps == v.steps
    ensures w.cur == Min(v.cur + 1, LastIndex(v))
  {
    if v.cur < |v.steps| - 1 then v.(cur := v.cur + 1) else v
  }

  /** `prevStep`: go back unless already at the first step. */
  function Prev(v: ViewerState): (w: ViewerState)
    requires Valid(v)
    ensures Valid(w) && w.steps == v.steps
    ensures w.cur == Max(v.cur - 1, 0)
  {
    if v.cur > 0 then v.(cur := v.cur - 1) else v
  }

  /** A click on the indicator of step `index`. The page renders one indicator
      per step (`steps.map`), so the index is always in range. */
  function JumpTo(v: ViewerState, index: int): (w: ViewerState)
    requires Valid(v)
    requires 0 <= index < |v.steps|
    ensures Valid(w) && w.steps == v.steps
    ensures w.cur == index
    ensures Current(w) == v.steps[index]
  {
    v.(cur := index)
  }

  /** The Previous button's `disabled` flag. */
  predicate PrevDisabled(v: ViewerState) {
    v.cur == 0
  }

  /** The Next button's `disabled` flag. */
  predicate NextDisabled(v: ViewerState) {
    v.cur == |v.steps| - 1
  }

  /** A button is disabled exactly when clicking it would change nothing. */
  lemma DisabledExactlyWhenNoOp(v: ViewerState)
    requires Valid(v)
    ensures PrevDisabled(v) <==> Prev(v) == v
    ensures NextDisabled(v) <==> Next(v) == v
  {
  }

  /** Away from the last step, Previous undoes Next. */
  lemma PrevUndoesNext(v: ViewerState)
    requires Valid(v) && !NextDisabled(v)
    ensures Prev(Next(v)) == v
  {
  }

  /** Away from the first step, Next undoes Previous. */
  lemma NextUndoesPrev(v: ViewerState)
    requires Valid(v) && !PrevDisabled(v)
    ensures Next(Prev(v)) == v
  {
  }

  /** The percentage handed to the progress bar:
      `((currentStep + 1) / steps.length) * 100`, computed exactly. */
  function Progress(v: ViewerState): (p: real)
    requires Valid(v)
    ensures 0.0 < p <= 100.0
    ensures p == 100.0 <==> v.cur == LastIndex(v)
    ensures p * (|v.steps| as real) == ((v.cur + 1) * 100) as real
  {
    var n := |v.steps| as real;
    var k := (v.cur + 1) as real;
    assert k <= n;
    assert k / n <= 1.0 by {
      assert k / n * n == k;
    }
    assert k / n == 1.0 <==> k == n by {
      assert k / n * n == k;
    }
    k / n * 100.0
  }

  /** The "Step k of n" caption and the "k / n" counter, as a pair. */
  function Counter(v: ViewerState): (c: (int, int))
    requires Valid(v)
    ensures 1 <= c.0 <= c.1 == |v.steps|
    ensures Progress(v) == c.0 as real / c.1 as real * 100.0
  {
    (v.cur + 1, |v.steps|)
  }

  /** On the first step the bar shows one step's share of 100. */
  lemma ProgressAtStart(steps: seq<Step>)
    requires steps != []
    ensures Progress(Start(steps)) == 100.0 / |steps| as real
  {
  }

  /** Progress strictly increases with the cursor. */
  lemma ProgressStrictlyIncreasing(steps: seq<Step>, i: int, j: int)
    requires 0 <= i < j < |steps|
    ensures Progress(ViewerState(steps, i)) < Progress(ViewerState(steps, j))
  {
    var n := |steps| as real;
    var d := (j - i) as real;
    assert d / n > 0.0;
    assert Progress(ViewerState(steps, j)) - Progress(ViewerState(steps, i)) == d / n * 100.0;
  }

  /** Each effective Next adds exactly one step's share of 100. */
  lemma NextAddsOneShare(v: ViewerState)
    requires Valid(v) && !NextDisabled(v)
    ensures Progress(Next(v)) == Progress(v) + 100.0 / |v.steps| as real
  {
  }

  /** A user action on the viewer. */
  datatype Event = ClickNext | ClickPrev | ClickIndicator(index: int)

  /** Events the page can produce for a list of steps: indicators exist only
      for indices of the list. */
  predicate Producible(steps: seq<Step>, e: Event) {
    e.ClickIndicator? ==> 0 <= e.index < |steps|
  }

  /** The effect of one event. */
  function Apply(v: ViewerState, e: Event): (w: ViewerState)
    requires Valid(v) && Producible(v.steps, e)
    ensures Valid(w) && w.steps == v.steps
  {
    match e
    case ClickNext => Next(v)
    case ClickPrev => Prev(v)
    case ClickIndicator(i) => JumpTo(v, i)
  }

  /** The effect of a sequence of clicks, in order. However the buttons are
      used, the cursor stays on a step and the steps never change. */
  function Run(v: ViewerState, events: seq<Event>): (w: ViewerState)
    requires Valid(v)
    requires forall k :: 0 <= k < |events| ==> Producible(v.steps, events[k])
    ensures Valid(w) && w.steps == v.steps
    decreases |events|
  {
    if events == [] then v else Run(Apply(v, events[0]), events[1..])
  }

  /** `k` clicks of the same kind. */
  function Clicks(e: Event, k: nat): (r: seq<Event>)
    ensures |r| == k
    ensures forall i :: 0 <= i < k ==> r[i] == e
  {
    if k == 0 then [] else [e] + Clicks(e, k - 1)
  }

  /** Repeated Next saturates at the last step. */
  lemma {:induction false} NextSaturates(v: ViewerState, k: nat)
    requires Valid(v)
    ensures Run(v, Clicks(ClickNext, k)).cur == Min(v.cur + k, LastIndex(v))
    decreases k
  {
    if k > 0 {
      var evs := Clicks(ClickNext, k);
      assert evs[1..] == Clicks(ClickNext, k - 1);
      NextSaturates(Next(v), k - 1);
    }
  }

  /** Repeated Previous saturates at the first step. */
  lemma {:induction false} PrevSaturates(v: ViewerState, k: nat)
    requires Valid(v)
    ensures Run(v, Clicks(ClickPrev, k)).cur == Max(v.cur - k, 0)
    decreases k
  {
    if k > 0 {
      var evs := Clicks(ClickPrev, k);
      assert evs[1..] == Clicks(ClickPrev, k - 1);
      PrevSaturates(Prev(v), k - 1);
    }
  }

  /** As many Next clicks as there are steps take the viewer from the first step
      to the last, where Next is disabled; as many Previous clicks bring it back. */
  lemma FullTraversal(steps: seq<Step>)
    requires steps != []
    ensures NextDisabled(Run(Start(steps), Clicks(ClickNext, |steps|)))
    ensures PrevDisabled(Run(ViewerState(steps, |steps| - 1), Clicks(ClickPrev, |steps|)))
  {
    NextSaturates(Start(steps), |steps|);
    PrevSaturates(ViewerState(steps, |steps| - 1), |steps|);
  }
}
