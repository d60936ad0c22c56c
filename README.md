# Slide-deck presentation controller, modelled in Dafny

This project models the presentation controller in `script.js`. The controller
holds an ordered, fixed set of slides and a current index. Buttons, the keyboard
and touch swipes all move the index through one transition, `goToSlide`. That
transition ignores an out-of-range target. For an in-range target it updates the
`active`/`prev`/`next` tags on the slide being left and the slide being entered,
commits the new index and refreshes the derived display: the 1-based counter,
the progress bar and the first/last flags.

Layout:

- `slides.dfy` (module `Slides`): the tags, the abstract `Deck` value (every
  slide's tag set plus the current index), and the pure specification of
  `goToSlide`, `nextSlide` and `prevSlide` as `GoTo`, `StepForward` and
  `StepBack`. Their contracts state the bounds no-op, the index commit, tagging
  for forward, backward and same-index moves, the frame condition on all other
  slides, and that single-active is preserved.
- `display.dfy` (module `Display`): the derived display state as a function of
  the index and the total. Progress is an exact fraction.
- `input.dfy` (module `Input`): the keydown dispatch (`KeyCommand`), the swipe
  classifier (`SwipeCommand`, threshold 50), and what each recognised command does
  to the deck (`Perform`, `Respond`).
- `sessions.dfy` (module `Sessions`): runs of commands, with induction lemmas.
  Single-active holds in every state reachable from a single-active start.
  Repeated forward/backward moves clamp at the last/first slide, and at the
  edges they change nothing. Also two five-slide scenarios.
- `controller.dfy` (module `Controller`): class `Presentation`. It holds the
  slides as an `array<set<Tag>>`, `currentIndex`, the published `display`, and
  the two touch coordinates. Each method mirrors one function or listener of the
  script and is proved against the pure specification
  (`Model() == GoTo(old(Model()), index)` and similar). The object invariant
  `Valid()` says the index is in range and the display matches the index, so no
  call can leave it inconsistent.

Host inputs become parameters. The constructor takes the slides' initial tags,
because the markup supplies them. `HandleKey` takes the key name, and
`TouchStart`/`TouchEnd` take the horizontal screen coordinate.

Two facts about the script shape the model:

- Single-active is proved only as preserved: if it holds before a call, it
  holds after. The script never sets `active` at startup (script.js:18-22).
- The script also runs with no slides. Every `goToSlide` is then dropped, and
  the progress is 1/0. `IndexOk` allows index 0 with total 0.

## Model

| member | source | states |
|---|---|---|
| `Slides.GoTo` | script.js:24-47 | An out-of-range index leaves the deck exactly as it was. An in-range index is committed as the new current index. Forward (`index > current`): the leaving slide loses `active` and gains `prev`; the entering slide loses `prev`/`next` and gains `active`. Strictly backward: the same, except the leaving slide gains `next`. Same index: the slide ends with exactly `{active, next}`. Every other slide keeps its tags. Single-active is preserved. |
| `Slides.ExitTag` | script.js:29-37 | The leaving slide's exit tag is `prev` iff the target is strictly after it, and `next` iff the target is at or before it, so a same-index call counts as backward. |
| `Slides.StepForward` | script.js:49-51 | Before the last slide, the index goes up by one. At the last slide, or with no slides, the deck is unchanged. Single-active is preserved. |
| `Slides.StepBack` | script.js:53-55 | Above index 0, the index goes down by one. At index 0 the deck is unchanged. Single-active is preserved. |
| `Display.DisplayOf` | script.js:57-72 | Counter is index + 1. Progress is counter / total. The first flag is set iff the index is 0. The last flag is set iff the counter equals the total. For a valid index: the counter is in 1..total, progress is in (0, 1], the bar is full iff the last flag is set, and both flags are set iff there is one slide. |
| `Input.KeyCommand` | script.js:79-99 | `ArrowRight` or space gives forward. `ArrowLeft` gives backward. `Home` gives jump-to-first. `End` gives jump-to-last. Each holds as an iff. Every other key gives no command. |
| `Input.SwipeCommand` | script.js:122-130 | Forward iff startX - endX > 50. Backward iff endX - startX > 50. No command iff the travel is at most 50 either way. A swipe never jumps. |
| `Input.Abs` | script.js:126 | The result is non-negative and equals x or -x, as `Math.abs` of the swipe travel. |
| `Input.Perform` | script.js:81-97 | `Home` goes to index 0. `End` goes to the last index. Forward and backward move one step, clamped at the edges. With no slides nothing changes. Single-active is preserved. |
| `Input.Respond` | script.js:79-99 | An input with no recognised command leaves the deck unchanged. Any input preserves single-active. |
| `Sessions.RunKeepsSingleActive` | script.js:33-42 | By induction over the command sequence: single-active at the start implies single-active after any sequence of commands. |
| `Sessions.WalkForward` | script.js:49-51 | n forward commands leave the index at min(index + n, last index). |
| `Sessions.WalkBackward` | script.js:53-55 | n backward commands leave the index at max(index - n, 0). |
| `Sessions.ForwardAtLastIsStable` | script.js:49-51 | At the last slide, any number of forward commands change neither the index nor any tag. |
| `Sessions.BackwardAtFirstIsStable` | script.js:53-55 | At the first slide, any number of backward commands change neither the index nor any tag. |
| `Sessions.ForwardWalkScenario` | script.js:49-72 | Five slides, starting at index 0: four forward moves reach index 4. The counter then reads 5, progress is 5/5, the last flag is set and the first is not. |
| `Sessions.JumpScenario` | script.js:90-97 | Five slides at index 2: `End` gives index 4, then `Home` gives index 0. |
| `Controller.Presentation.constructor` | script.js:15-22 | The slides keep their markup tags. The index starts at 0 and the touch coordinates at 0. The displayed total and the derived display match index 0. |
| `Controller.Presentation.UpdateSlide` | script.js:57-59 | Only the counter changes, to index + 1. |
| `Controller.Presentation.UpdateProgress` | script.js:61-64 | Only the progress changes, to (index + 1) / total. |
| `Controller.Presentation.UpdateNavState` | script.js:66-72 | Only the first/last flags change, to index == 0 and index == total - 1. |
| `Controller.Presentation.GoToSlide` | script.js:24-47 | The in-place array update gives exactly `GoTo` of the old deck. The index stays valid and the display matches it afterwards. Single-active is preserved. |
| `Controller.Presentation.NextSlide` | script.js:49-51 | Gives exactly `StepForward` of the old deck. At the last slide nothing changes. This is also the forward button's click handler. |
| `Controller.Presentation.PrevSlide` | script.js:53-55 | Gives exactly `StepBack` of the old deck. At the first slide nothing changes. This is also the backward button's click handler. |
| `Controller.Presentation.HandleKey` | script.js:79-99 | Gives the deck `Respond` computes for the key's command. An unrecognised key changes nothing. Single-active is preserved. |
| `Controller.Presentation.TouchStart` | script.js:105-111 | Records the gesture's start coordinate. Nothing else changes, so `Valid()` holds afterwards exactly when it held before. |
| `Controller.Presentation.TouchEnd` | script.js:113-120 | Records the end coordinate, then applies the swipe rule to the recorded start and this end. |
| `Controller.Presentation.HandleSwipe` | script.js:122-130 | Gives the deck `Respond` computes for the swipe command of the two stored coordinates. Single-active is preserved. |

## Left out

- DOM lookup and wiring (`querySelectorAll`, `getElementById`, `addEventListener`, `DOMContentLoaded`, script.js:6-13, 75-76, 105-120). These are host plumbing. The button listeners are just `NextSlide`/`PrevSlide`, and a touch event is reduced to the integer `screenX` it carries.
- `e.preventDefault()` and the `{ passive: true }` listener options. These are browser side effects on state the controller does not own.
- The floating-point percentage and the CSS width string (script.js:62-63), and the number-to-text conversion of `textContent`. Progress is kept as the exact fraction (index + 1, total).
- Screen coordinates are modelled as integers. A browser may report fractional `screenX` values.
- Only the three state classes `active`, `prev` and `next` are modelled. Any other class a slide carries is untouched by the script and not represented.
- The initial tags come from markup that is not part of this model. The constructor takes them as given, so nothing is proved about them.
- CSS transitions and animations triggered by the classes.
