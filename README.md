# flowgrid landing page: the state machines behind its animated sections

The flowgrid repository is a marketing landing page for a workflow-orchestration
product. It renders; it does not orchestrate anything. The only parts with
behaviour that can be stated are four small, self-contained pieces of component
logic, and this Dafny project models each one in its own module:

- `Carousel` (`carousel.dfy`), from `components/FeatureCarousel.tsx`. The "Platform
  Features" carousel keeps a cursor `currentIndex` over a fixed table of five
  features. It also keeps a page size `itemsPerPage` (1, 2 or 3) chosen from the
  viewport width. The arrow handlers clamp the cursor with `min`/`max`, and each
  button is disabled at its edge. A resize changes only the page size and does
  not re-clamp the cursor. The class `FeatureCarousel` holds the two state
  variables. The handlers' updaters are the pure functions `NextIndex`/`PrevIndex`.
- `Pipeline` (`pipeline.dfy`), from `components/sections/DeploymentPipelineSection.tsx`.
  An asynchronous `while (mounted)` loop lights steps 0, 1, 2, 3 in turn. It waits
  1500, 1500, 1500 and 3000 ms after each one and starts over. The effect's
  teardown clears `mounted`, and the loop checks the flag after every wait. The
  class `PipelineSection` runs the loop over a millisecond clock. `RunSequence`
  is told during which wait the teardown runs, and it records every
  `setActiveStep` call. The view rules (`isActive`, `isCurrent`, connector fill)
  are pure functions.
- `TimeTravel` (`time_travel.dfy`), from `DebuggerInterface` in
  `components/sections/TimeTravelSection.tsx`. An endless `while (true)` loop
  plays a scripted session: playing to 60 %, error, rewinding to 30 %, fixed to
  100 %, a hold, then a reset to 0. The class `DebuggerInterface` runs that loop
  and records each visible change as a `Frame`: clock, phase, scrubber, and the
  scrubber value the last render read. The scrubber is a motion value, so moving
  it does not re-render the component; only `setPlayState` does. The badge,
  status text, retry counter, error toast, play icon and event stream are pure
  functions of the phase and of that rendered scrubber value.
- `Ruler` (`ruler.dfy`), from `components/ui/Ruler.tsx`. This part is pure. It
  builds 100 marks `i * 10`, and each mark gets a labelled long tick
  (`% 100 == 0`), a medium tick (`% 50 == 0`) or a minor tick.

Two properties of the code are worth stating up front:

- `handleResize` (components/FeatureCarousel.tsx:100-108) does not re-clamp
  the cursor; see `Carousel.WideningLeavesStaleCursor`. A cursor on the fourth
  or fifth card stays there when the viewport widens to three cards per page,
  which puts it past the last full page. The next button is then disabled. The
  cursor comes back into bounds through the previous button, or when a resize
  lowers the page size far enough: below 768 px every cursor up to 4 is valid,
  and below 1280 px cursor 3 is.
- The steps, dwell times and animation targets are fixed tables. The code
  validates nothing, so the model has no error cases, and every operation is
  total over the inputs the code accepts.

One observation about the code: the time-travel effect returns no teardown, and
its loop has no exit. Unlike the pipeline loop, it keeps running after the
component unmounts. `TimeTravel.DebuggerInterface.Sequence` therefore has no
cancellation input.

## Model

| member | source | states |
|---|---|---|
| `Carousel.LastStart` | components/FeatureCarousel.tsx:116 | a page started at `features.length - itemsPerPage` ends exactly on the last feature; for page sizes 1..3 that start is itself a feature (2..4) |
| `Carousel.PrevDisabled` | components/FeatureCarousel.tsx:149 | when the previous button is enabled, `prevSlide` moves a non-negative cursor exactly one card back; when it is disabled, `prevSlide` would not move it |
| `Carousel.NextDisabled` | components/FeatureCarousel.tsx:156 | when the next button is enabled, `nextSlide` moves the cursor exactly one card forward; when it is disabled, `nextSlide` would not move it forward |
| `Carousel.PageSizeFor` | components/FeatureCarousel.tsx:100-108 | the page size is 3 exactly for width >= 1280, 2 exactly for 768 <= width < 1280, 1 exactly below 768, so always in 1..3 |
| `Carousel.NextIndex` | components/FeatureCarousel.tsx:115-117 | `nextSlide` moves one card forward below the last full page start `5 - itemsPerPage`, lands exactly on it from at or above it, never exceeds it, and keeps an in-bounds cursor in bounds |
| `Carousel.PrevIndex` | components/FeatureCarousel.tsx:119-121 | `prevSlide` moves one card back from a positive cursor, gives 0 otherwise, is never negative, and keeps an in-bounds cursor in bounds for every page size |
| `Carousel.BasisPercent` | components/FeatureCarousel.tsx:179 | the card basis is 32 %, 48 % or 100 %; it is 100 % exactly when the page size is neither 2 nor 3; for page sizes 1..3 a page of cards takes 96-100 % of the track |
| `Carousel.ClicksStayInBounds` | components/FeatureCarousel.tsx:96-121 | with the page size fixed, any series of next/prev clicks keeps an in-bounds cursor within `0..5 - itemsPerPage` |
| `Carousel.ClicksFromStartStayInBounds` | components/FeatureCarousel.tsx:96-121 | from the initial cursor 0 and any page size `handleResize` chooses, every click series ends with `0 <= currentIndex <= features.length - itemsPerPage` |
| `Carousel.NextAtLastStartIsIdempotent` | components/FeatureCarousel.tsx:116 | `nextSlide` at `features.length - itemsPerPage` leaves the cursor there, so applying it again changes nothing |
| `Carousel.PrevAtZeroStays` | components/FeatureCarousel.tsx:120 | `prevSlide` at 0 stays at 0 |
| `Carousel.NextPrevRoundTrip` | components/FeatureCarousel.tsx:115-121 | for an in-bounds cursor: next after prev is the identity when the cursor is positive; prev after next is the identity below the last full page |
| `Carousel.DisabledIffNoMove` | components/FeatureCarousel.tsx:147-157 | for an in-bounds cursor, the previous button is disabled exactly when `prevSlide` would not move it, and the next button exactly when `nextSlide` would not |
| `Carousel.WideningLeavesStaleCursor` | components/FeatureCarousel.tsx:100-116 | a cursor past 2 on a one-card page is out of bounds after widening to >= 1280 px; next is disabled, prev is not, and `nextSlide` would pull it back to 2 |
| `Carousel.FeatureCarousel.constructor` | components/FeatureCarousel.tsx:96-97 | the first render has cursor 0 and one card per page |
| `Carousel.FeatureCarousel.HandleResize` | components/FeatureCarousel.tsx:100-108 | sets `itemsPerPage` to the breakpoint value and leaves `currentIndex` untouched |
| `Carousel.FeatureCarousel.NextSlide` | components/FeatureCarousel.tsx:115-117 | the new cursor is `NextIndex` of the old one; the page size is unchanged |
| `Carousel.FeatureCarousel.PrevSlide` | components/FeatureCarousel.tsx:119-121 | the new cursor is `PrevIndex` of the old one; the page size is unchanged |
| `Carousel.FeatureCarousel.PressNext` | components/FeatureCarousel.tsx:154-156 | a click on the next button moves the cursor one forward, or leaves it alone when the button is disabled; this includes a stale cursor after a resize |
| `Carousel.FeatureCarousel.PressPrev` | components/FeatureCarousel.tsx:147-149 | a click on the previous button moves the cursor one back, or leaves it alone at 0 |
| `Pipeline.NextStep` | components/sections/DeploymentPipelineSection.tsx:43-63 | the step after `s` stays in 0..3; it is `s + 1` below 3, and it wraps to 0 exactly after step 3 |
| `Pipeline.Elapsed` | components/sections/DeploymentPipelineSection.tsx:46-61 | the clock after the first n waits; one wait already takes 1500 ms |
| `Pipeline.ElapsedBounds` | components/sections/DeploymentPipelineSection.tsx:46-61 | each wait is 1500 or 3000 ms, so n waits take between 1500·n and 3000·n ms |
| `Pipeline.Schedule` | components/sections/DeploymentPipelineSection.tsx:43-63 | the first n `setActiveStep` calls of the loop, one per lit step (contents stated by `ScheduleAt`) |
| `Pipeline.ScheduleAt` | components/sections/DeploymentPipelineSection.tsx:43-63 | the k-th `setActiveStep` call lights step `k % 4`, which is in 0..3, once the first k waits have elapsed |
| `Pipeline.ScheduleAdvances` | components/sections/DeploymentPipelineSection.tsx:43-63 | every update lights the successor of the previous step (0,1,2,3, then back to 0), exactly that step's dwell time later |
| `Pipeline.CycleTakes7500` | components/sections/DeploymentPipelineSection.tsx:46-61 | any four consecutive waits take 1500 + 1500 + 1500 + 3000 = 7500 ms |
| `Pipeline.FullCycles` | components/sections/DeploymentPipelineSection.tsx:43-63 | after c full rounds the clock reads 7500·c ms |
| `Pipeline.IsActive` | components/sections/DeploymentPipelineSection.tsx:95 | a step is active exactly when it is the current step or one the loop already passed in this round |
| `Pipeline.IsCurrent` | components/sections/DeploymentPipelineSection.tsx:96 | the current step is always active |
| `Pipeline.ConnectorOf` | components/sections/DeploymentPipelineSection.tsx:131-152 | a step has a connector exactly when `idx < steps.length - 1`, and that connector is filled exactly when the step is active |
| `Pipeline.Render` | components/sections/DeploymentPipelineSection.tsx:94-96 | the rendered pipeline has one view per entry of `steps` |
| `Pipeline.ExactlyOneCurrent` | components/sections/DeploymentPipelineSection.tsx:95-96 | for every `activeStep` in 0..3, that step is current and active, and no other step is current |
| `Pipeline.ActiveIsPrefix` | components/sections/DeploymentPipelineSection.tsx:95 | step i is active exactly when `i <= activeStep`; if step j is active, so is every step i <= j |
| `Pipeline.PipelineSection.constructor` | components/sections/DeploymentPipelineSection.tsx:37-40 | mount starts at step 0 with `mounted` set, the clock at 0 and no updates |
| `Pipeline.PipelineSection.SetActiveStep` | components/sections/DeploymentPipelineSection.tsx:45-60 | sets `activeStep` and appends one update stamped with the current clock; nothing else changes |
| `Pipeline.PipelineSection.Teardown` | components/sections/DeploymentPipelineSection.tsx:70 | clears `mounted` and records how many updates had happened by then |
| `Pipeline.PipelineSection.Wait` | components/sections/DeploymentPipelineSection.tsx:46-47 | advances the clock by the wait; `mounted` becomes false exactly when the teardown runs during it |
| `Pipeline.PipelineSection.LightAndWait` | components/sections/DeploymentPipelineSection.tsx:44-62 | one stage of the loop body extends the update list and the clock by exactly the next entry of the schedule; the teardown count is set when the teardown runs during the wait and is untouched otherwise |
| `Pipeline.PipelineSection.RunSequence` | components/sections/DeploymentPipelineSection.tsx:39-71 | with the teardown during wait `u`, the loop exits unmounted after exactly the `u + 1` scheduled updates; no update follows the teardown; the clock reads `Elapsed(u + 1)`; `activeStep` is `u % 4` |
| `TimeTravel.NextPhase` | components/sections/TimeTravelSection.tsx:136-157 | every phase moves to a different one, and the loop returns to `playing` exactly after `fixed` |
| `TimeTravel.PhaseCycleHasLengthFour` | components/sections/TimeTravelSection.tsx:136-157 | the phase cycle playing, error, rewinding, fixed has length exactly four and has no terminal phase |
| `TimeTravel.Badge` | components/sections/TimeTravelSection.tsx:179-182 | the badge is a single upper-case word of 7 to 9 letters |
| `TimeTravel.BadgeIsOneToOne` | components/sections/TimeTravelSection.tsx:178-183 | the badge (RUNNING, CRASHED, SEEKING, REPLAYING) is equal for two phases only when they are the same phase |
| `TimeTravel.StatusText` | components/sections/TimeTravelSection.tsx:229-232 | the status value is a quoted string literal with no quote inside it |
| `TimeTravel.StatusIsOneToOne` | components/sections/TimeTravelSection.tsx:229-232 | the status text ('processing', 'failed', '...rewinding', 'succeeded') tells the phases apart |
| `TimeTravel.Retries` | components/sections/TimeTravelSection.tsx:239 | the retry counter is 0 or 1, and it is 1 exactly in the `fixed` phase |
| `TimeTravel.ToastTarget` | components/sections/TimeTravelSection.tsx:248-253 | the toast animates to opacity 0 or 1; it is opaque exactly in `error`; it is at rest (offset 0) exactly when opaque; in every other phase it returns to its `initial` pose (opacity 0, 20 px down) |
| `TimeTravel.PlayIconLit` | components/sections/TimeTravelSection.tsx:191 | the play icon is lit exactly when the phase is neither `error` nor `rewinding` |
| `TimeTravel.EventStream` | components/sections/TimeTravelSection.tsx:268-294 | the stream has 5 items in `fixed` and 4 otherwise, and starts with two always-active info items |
| `TimeTravel.TimeoutItemRule` | components/sections/TimeTravelSection.tsx:279-286 | the error item is rendered exactly when the phase is not `fixed`; it is "Request timed out", and it is active exactly in `error` |
| `TimeTravel.SuccessItemsRule` | components/sections/TimeTravelSection.tsx:279-293 | success items are rendered exactly in `fixed`, so never together with the timeout item |
| `TimeTravel.LatencyWarningRule` | components/sections/TimeTravelSection.tsx:272-277 | the third item is the latency warning, and it is active exactly when the phase is not `playing` or the scrubber is past 40 |
| `TimeTravel.Cycle` | components/sections/TimeTravelSection.tsx:136-157 | one trip through the loop body makes eight visible changes |
| `TimeTravel.Frames` | components/sections/TimeTravelSection.tsx:136-157 | n trips make 8·n visible changes |
| `TimeTravel.FramesAt` | components/sections/TimeTravelSection.tsx:136-157 | change k is change `k % 8` of the trip started at `12000 · (k / 8)` ms, so the loop repeats every 12000 ms |
| `TimeTravel.FramesFollow` | components/sections/TimeTravelSection.tsx:136-157 | between consecutive changes the phase either stays or moves to the next phase (fixed wraps to playing); the scrubber does not move on a phase switch; the rendered scrubber value changes only on a phase switch, and then to the current scrubber; time never runs backwards |
| `TimeTravel.FramesScrubberInRange` | components/sections/TimeTravelSection.tsx:129-156 | at every change the scrubber lies in 0..100 |
| `TimeTravel.EndPosition` | components/sections/TimeTravelSection.tsx:139-152 | each phase's end position lies in 0..100 |
| `TimeTravel.TripShape` | components/sections/TimeTravelSection.tsx:137-156 | in every trip the scrubber ends playing at 60, stays 60 through error, ends rewinding at 30, ends fixed at 100, and is reset to 0 before the next playing phase; the pauses are 1500 ms on error, 500 ms after the rewind and 2000 ms before the reset |
| `TimeTravel.FramesView` | components/sections/TimeTravelSection.tsx:129-276 | rendered from the phase and the scrubber value read at the last `setPlayState`, the latency warning is active exactly from the `error` switch to the end of each trip (change `k % 8 >= 2`), that is exactly when the phase is not `playing`; while playing, the rendered scrubber value is at most 40, so the `> 40` half of the condition never takes effect; the toast is opaque and at rest exactly at the change that enters `error` |
| `TimeTravel.DebuggerInterface.constructor` | components/sections/TimeTravelSection.tsx:128-129 | mount starts in `playing` with the scrubber at 0, the clock at 0 and no recorded changes |
| `TimeTravel.DebuggerInterface.SetPlayState` | components/sections/TimeTravelSection.tsx:138 | sets the phase, and the render it causes reads the scrubber; records one change; the scrubber and clock do not move |
| `TimeTravel.DebuggerInterface.AnimateTo` | components/sections/TimeTravelSection.tsx:139 | the scrubber ends at the target (kept within 0..100) after the animation's duration, and the change is recorded; there is no render, so the rendered value stays |
| `TimeTravel.DebuggerInterface.Pause` | components/sections/TimeTravelSection.tsx:143 | only the clock moves |
| `TimeTravel.DebuggerInterface.ResetScrubber` | components/sections/TimeTravelSection.tsx:156 | the scrubber returns to 0 at the same instant, and the change is recorded; there is no render, so the rendered value stays |
| `TimeTravel.DebuggerInterface.Sequence` | components/sections/TimeTravelSection.tsx:134-160 | after n trips the recorded changes are exactly `Frames(n)`, the clock reads 12000·n ms, the scrubber is back at 0, and for n >= 1 the phase is `fixed` and the last render read 30; for n = 0 the phase and the rendered value stay as they were |
| `Ruler.MarksUpTo` | components/ui/Ruler.tsx:5 | n marks starting at 0, each 10 above the one before |
| `Ruler.Marks` | components/ui/Ruler.tsx:5 | 100 marks, all within 0..990 |
| `Ruler.Classify` | components/ui/Ruler.tsx:11-22 | a mark gets a labelled tick (carrying the mark) exactly when `% 100 == 0`, a medium tick exactly when `% 50 == 0` but not `% 100 == 0`, and a minor tick exactly when `% 50 != 0`; the three classes are exclusive and exhaustive |
| `Ruler.Ticks` | components/ui/Ruler.tsx:9-24 | one tick per mark, in order, each classified by `Classify` |
| `Ruler.TallyOf` | components/ui/Ruler.tsx:9-24 | every tick is counted in exactly one of the three tallies |
| `Ruler.MarksShape` | components/ui/Ruler.tsx:5 | there are 100 marks, strictly increasing from 0 to 990 |
| `Ruler.MarkClass` | components/ui/Ruler.tsx:5-22 | mark `i * 10` is labelled exactly when `i % 10 == 0` and medium exactly when `i % 10 == 5` |
| `Ruler.TallyOfPrefix` | components/ui/Ruler.tsx:5-22 | the first n marks carry ⌊(n+9)/10⌋ labelled ticks (one per ten marks, counting mark 0), ⌊(n+4)/10⌋ medium ticks, and minor ticks for the rest |
| `Ruler.RulerTally` | components/ui/Ruler.tsx:5-22 | the whole ruler has 10 labelled, 10 medium and 80 minor ticks |

## Left out

- Rendering is not modelled: JSX, Tailwind classes, colours, icons, the 3D icon
  component and every framer-motion or SMIL animation (springs, pulses, easing,
  opacity). These are presentation driven by libraries and computed in floating
  point.
- The carousel track's `x` offset (`calc(-index * (basis + gap))`) and its drag
  gesture are left out because they are CSS strings and library physics. The
  track receives `setCurrentIndex` but never calls it.
- Both pipeline connectors, the mobile one and the desktop one, follow the same
  rule. `Pipeline.ConnectorOf` models that rule once.
- The debugger scrubber is observed only where an animation ends. The easing
  between those points and the `timeDisplay` mapping to "00:00.000".."00:02.500"
  belong to the animation library.
- The 20 decorative ticks on the debugger timeline (`i % 5`) are left out
  because they are presentation only.
- `TimeTravel.DebuggerInterface.Sequence` models the first `n` trips of an
  endless loop, for any `n`. A Dafny method must terminate, and a run of n trips
  is a prefix of every longer run. Its first `setPlayState('playing')` is
  recorded as a change even though the state already holds that value. React
  skips that render, but the rendered scrubber value is 0 either way.
- `Pipeline.PipelineSection.RunSequence`: the teardown runs during one chosen
  wait. In JavaScript the cleanup can only run while the async function is
  suspended at an `await`, so choosing the wait covers every interleaving. The
  pending timer is not cleared by the teardown, and it still fires; the model
  covers this because the wait runs to completion before `mounted` is checked.
- The time-travel render is taken to read the scrubber at the instant of its
  `setPlayState`. React runs the render a little later, while the next
  animation may have just started; the values that matter for the latency
  warning (0 on entering `playing`) are unaffected.
- Wall-clock time, `window.innerWidth` and the `resize` listener are not
  modelled directly. The clocks are integer milliseconds that only waits and
  animations advance, and the viewport width is a parameter.
- components/sections/WorkflowEngineSection.tsx and
  components/isometric/IsometricScene.tsx are not part of this model. Their
  logic is floating-point path, timing and spring arithmetic.
- components/sections/CodeSection.tsx is not part of this model. It is a chain
  of regular-expression replacements, plus clipboard I/O with a timer.
- components/Navbar.tsx, components/sections/FAQSection.tsx and
  components/sections/SecurityArchitectureSection.tsx are not part of this
  model. Each holds a single DOM-driven boolean or id toggle.
- components/rive/RiveHero.tsx is not part of this model. It loads a foreign
  runtime and a remote asset.
- App.tsx, the footer, the call-to-action, stats, integration, pricing and
  bento-grid sections, and components/ui/GridBackground.tsx are not part of this
  model. They are static content and layout.
