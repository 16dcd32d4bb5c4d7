# VisualMath step viewer and topic form, modelled in Dafny

VisualMath is a small React site that turns a math topic into a step-by-step
"visualization". Its only logic lives in two pages:

- the **Home page** (`src/pages/Home.tsx`) holds a text field for the topic.
  Its submit handler accepts the topic iff `topic.trim()` is non-empty. On
  acceptance it routes to `/visualize` with the topic as typed. Four example
  buttons fill the field in.
- the **Visualize page** (`src/pages/Visualize.tsx`) shows the topic and steps
  through five hard-coded steps. Each step has a title, a description and a
  glyph. An integer cursor starts at 0. Next is a saturating increment and
  Previous a saturating decrement. One indicator button per step jumps to that
  step. A progress bar shows `(cursor + 1) / steps * 100`. Previous is
  disabled on the first step and Next on the last.

The model is functional: immutable datatypes and pure transition and decision
functions, with lemmas for the invariants.

| file | module | contents |
|---|---|---|
| `js_string.dfy` | `JsString` | `String.prototype.trim`: the WhiteSpace and LineTerminator code points of ECMA-262 (sections 12.2 and 12.3), `TrimStart`, `TrimEnd`, `Trim` |
| `optional.dfy` | `Optional` | `Option`, for the possibly missing router state |
| `step_viewer.dfy` | `StepViewer` | `Step`, `ViewerState`, `Next`, `Prev`, `JumpTo`, the disable flags, `Progress`, event sequences |
| `lesson.dfy` | `Lessons` | topic defaulting and the five-step lesson, with the concrete walkthrough |
| `home.dfy` | `Home` | the form state, the example buttons and the submit decision |
| `handoff.dfy` | `Handoff` | what the Visualize page shows for an accepted submission |

The viewer is generalised from the page's five steps to any non-empty list of
steps. `Lessons.FiveStepWalkthrough` checks the concrete five-step instance.
The progress percentage is an exact rational (Dafny's `real`).

Facts about the code that shape the model:

- The page always builds the same five steps, each with a glyph. Only the
  first step's description depends on the topic.
- Indicators exist only for existing steps, because they are produced by
  `steps.map`. A jump therefore cannot be out of range.
- No code in these pages plays media.
- The mounted page keeps its cursor when it is shown again at the same route
  with different router state. Only the topic and the steps built from it are
  recomputed. `Lessons.Relocate` models this.

## Model

| member | source | states |
|---|---|---|
| JsString.TrimStart | src/pages/Home.tsx:14 | the result is the suffix of the input that follows a prefix of trimmable code points, and it does not itself start with one |
| JsString.TrimEnd | src/pages/Home.tsx:14 | the result is the prefix of the input that precedes a suffix of trimmable code points, and it does not itself end with one |
| JsString.Trim | src/pages/Home.tsx:14 | `trim()` yields the empty string exactly when every code point is WhiteSpace or LineTerminator; otherwise the result starts and ends with a kept code point |
| JsString.TrimOfPadded | src/pages/Home.tsx:14 | padding a string that starts and ends with kept code points by blanks on both sides trims back to exactly that string |
| JsString.TrimIdempotent | src/pages/Home.tsx:14 | trimming a trimmed string changes nothing |
| StepViewer.Start | src/pages/Visualize.tsx:48 | the cursor starts at 0: the first step is displayed, the invariant holds and Previous is disabled |
| StepViewer.Next | src/pages/Visualize.tsx:50-54 | `nextStep` moves the cursor to min(cursor + 1, last index), keeping the invariant and the steps |
| StepViewer.Prev | src/pages/Visualize.tsx:56-60 | `prevStep` moves the cursor to max(cursor - 1, 0), keeping the invariant and the steps |
| StepViewer.JumpTo | src/pages/Visualize.tsx:115-118 | an indicator click puts the cursor on that indicator's index, so its step is displayed; the invariant and the steps are kept |
| StepViewer.DisabledExactlyWhenNoOp | src/pages/Visualize.tsx:134-157 | Previous is disabled iff clicking it would change nothing, and likewise for Next |
| StepViewer.PrevUndoesNext | src/pages/Visualize.tsx:50-60 | away from the last step, Previous after Next restores the state |
| StepViewer.NextUndoesPrev | src/pages/Visualize.tsx:50-60 | away from the first step, Next after Previous restores the state |
| StepViewer.Progress | src/pages/Visualize.tsx:62 | the progress lies in (0, 100]; it is 100 iff the last step is shown; progress times the step count is (cursor + 1) * 100 |
| StepViewer.Counter | src/pages/Visualize.tsx:81 | the "Step k of n" caption has 1 <= k <= n = step count and agrees with the progress bar |
| StepViewer.ProgressAtStart | src/pages/Visualize.tsx:62 | on the first step the progress is 100 / step count |
| StepViewer.ProgressStrictlyIncreasing | src/pages/Visualize.tsx:62 | a later step has strictly greater progress |
| StepViewer.NextAddsOneShare | src/pages/Visualize.tsx:50-62 | an effective Next adds exactly 100 / step count to the progress |
| StepViewer.Apply | src/pages/Visualize.tsx:50-60 | any producible click (Next, Previous, an indicator) keeps the invariant and the steps |
| StepViewer.Run | src/pages/Visualize.tsx:48-60 | any sequence of producible button clicks keeps the cursor on a step and leaves the steps unchanged |
| StepViewer.NextSaturates | src/pages/Visualize.tsx:50-54 | k Next clicks move the cursor to min(cursor + k, last index) |
| StepViewer.PrevSaturates | src/pages/Visualize.tsx:56-60 | k Previous clicks move the cursor to max(cursor - k, 0) |
| StepViewer.FullTraversal | src/pages/Visualize.tsx:50-60 | as many Next clicks as there are steps reach the last step from the first, and as many Previous clicks return |
| Lessons.ResolveTopic | src/pages/Visualize.tsx:17 | the shown topic is the incoming one when it is present and non-empty, and "Pythagorean Theorem" otherwise; it is never empty |
| Lessons.Lesson | src/pages/Visualize.tsx:20-46 | every lesson has five steps and the first description embeds the topic verbatim |
| Lessons.OnlyIntroDependsOnTopic | src/pages/Visualize.tsx:20-46 | the step count, all titles and glyphs, and steps two to five are the same for every topic |
| Lessons.LessonDeterminesTopic | src/pages/Visualize.tsx:23 | distinct topics give distinct lessons |
| Lessons.Relocate | src/pages/Visualize.tsx:17-48 | showing the mounted page again with new router state keeps the cursor, keeps the invariant and rebuilds the five steps from the newly resolved topic |
| Lessons.RelocateKeepsPosition | src/pages/Visualize.tsx:17-62 | after such a relocation the progress, both disabled flags and any step past the first are unchanged; without router state the steps become the default topic's, with the cursor where it was |
| Lessons.FiveStepWalkthrough | src/pages/Visualize.tsx:20-62 | the page opens on "Introduction" at 20 percent; step i shows 20 * (i + 1) percent; four Next clicks reach "Summary" at 100 percent with Next disabled; a fifth changes nothing |
| Home.Edit | src/pages/Home.tsx:50 | the field's `onChange` sets the topic to exactly the typed value |
| Home.SubmitAfterEdit | src/pages/Home.tsx:12-24 | submitting right after typing is rejected iff the typed text is blank, and otherwise routes to `/visualize` with exactly that text |
| Home.PickExample | src/pages/Home.tsx:61 | an example button sets the topic to exactly that example, which is not blank |
| Home.Submit | src/pages/Home.tsx:12-24 | a submission routes iff the topic is not blank; the route is `/visualize` and the carried topic is the untrimmed input; otherwise there is no navigation |
| Home.SubmitInitialRejected | src/pages/Home.tsx:10-14 | submitting the initial empty field is rejected |
| Home.SubmitAfterExampleAccepted | src/pages/Home.tsx:12-25 | submitting right after picking any example routes to `/visualize` with that example |
| Home.PaddingKeepsDecision | src/pages/Home.tsx:14-19 | blanks around a topic never change the decision, and an accepted padded topic is carried with its padding |
| Handoff.AcceptedTopicIsShown | src/pages/Visualize.tsx:17-23 | an accepted topic is never replaced by the default: the Visualize page shows it as typed and embeds it in the first step of a five-step lesson |
| Handoff.DirectVisitShowsDefault | src/pages/Visualize.tsx:17 | without router state the page shows "Pythagorean Theorem" and opens on "Introduction" |

## Left out

- Rendering: JSX, Tailwind classes, animations, icons and the indicators' active styling are presentation only.
- Toasts and routing: `toast.success`, `toast.error` and `navigate` are library side effects. `Home.Submit` returns the routing decision as a value instead.
- `e.preventDefault()` in the submit handler: a browser side effect with no state.
- `src/pages/About.tsx`: static prose with no logic.
- `src/pages/Contact.tsx`: its submit is mocked (a toast and a reset). The browser enforces its `required` and `type="email"` checks.
- `src/components/Navigation.tsx`: `isActive` is a single string comparison. Its "Start Learning" link reaches the Visualize page without router state. From another page this mounts the page afresh, as `Handoff.DirectVisitShowsDefault` states. From the Visualize page itself it keeps the mounted page, as `Lessons.Relocate` states.
- The route table (`App.tsx`) is not part of this model. That the Visualize page stays mounted across same-route navigation is assumed from React Router's usual behaviour for an unchanged route element.
- Video clips, autoplay and cancelling pending playback: no code in these pages plays media.
- StepViewer.Progress: exact rational arithmetic. JavaScript computes `(k / n) * 100` in IEEE doubles, which can be off from the exact value in the last bit. This does not affect the endpoints: `n / n * 100` is exactly 100.
- JsString.IsWhiteSpace: the Space_Separator (Zs) category is fixed at its Unicode 15 membership. An engine built on a different Unicode version might classify a newly added code point differently.
- Lessons.OnlyIntroDependsOnTopic: "only step one mentions the topic" is stated as independence from the topic. A literal substring statement would be false: a one-letter topic such as "a" occurs in the later descriptions.
