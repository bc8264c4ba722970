# Touch marquee model

A Dafny model of the touch-draggable marquee component
(`src/components/marquee-touch/index.tsx`). The marquee is a horizontal strip
of `repeat` copies of its content. It scrolls left by `speed` pixels per
animation frame and wraps seamlessly after one item. A finger drags it, with
a clamp. A release either starts a linear 300 ms rebound to rest, snaps the
strip one item to the right, or leaves it in place. The page-visibility and
intersection handlers start and stop the frame loop.

The project has three modules:

- `MarqueeRules` (`marquee_rules.dfy`) holds the pure rules:
  - sizing;
  - one autonomous frame (`Advance`) and `n` frames (`Frames`);
  - the drag direction and clamp;
  - the release policy;
  - the rebound interpolation;
  - one frame of rebound callbacks (`ReboundPass`);
  - the scheduler's bookkeeping.

  It also holds the lemmas about these rules.
- `MarqueeTouch` (`marquee_touch.dfy`) has one class, `Marquee`:
  - Its fields are the component's state and refs: `offset`, `itemWidth`, `contentWidth`, `ready`, `direction`, `isDragging`, `isRebounding`, `paused`, `inview` and the last touch X.
  - It also has the frame-request scheduler: the handle ref, the set of outstanding requests and the next handle.
  - The rebound callbacks that are still running are a further field.
  - There is one method per event the component reacts to. Each method is proved against the rules in `MarqueeRules`, and each keeps the class invariant `Valid()`.
- `MarqueeScenarios` (`marquee_scenarios.dfy`) drives fresh instances through their event methods with the component's defaults (`repeat` 4, `speed` 0.5) and proves the concrete outcomes.

The DOM width, touch X coordinates and clock readings are method parameters.
A frame callback is a call to `Frame`, and the rebound callbacks of one
animation frame are a call to `ReboundTick(now)`.

Behaviour worth noting:

- **The rebound is linear:** the offset is `start * (1 - elapsed / 300)` (line 100).
- **The direction goes back to 1 in the same touch-end call** (line 148). The drag flag is React state, so the handler still sees the drag and the flag drops after it; `TouchEnd` clears `isDragging` last.
- **The wrap boundary includes the 6 px gap** (lines 40 and 50). A 100 px item wraps at 106 px, so at 0.5 px per frame 200 frames move the strip 100 px and the cycle takes 212 frames.
- **A snap can land more than one item left of rest** (lines 143-146). A release at -350 with a 100 px item and four copies snaps to -250 (`SnapCanLeaveBand`), and the next forward frame jumps straight to 0.
- **Nothing measures on mount.** Sizing happens on an intersecting entry, on resize and in unready frames (lines 61-63, 172-178).
- **Without an IntersectionObserver, `inview` stays false**, so the autonomous advance never runs.
- **A second release during a rebound starts a second callback chain, and nothing cancels the first** (lines 91-112). When the first chain ends it clears `isRebounding` while the second still writes `offset`. The gate of the autonomous advance (line 65) excludes only the flag, so a chain that is still running and the advance both write the offset in the same frames (`OverlappingRebounds`).

## Model

| member | source | states |
|---|---|---|
| MarqueeRules.Copies | src/components/marquee-touch/index.tsx:52 | `n` lengths laid end to end: the strip of `repeat` copies, or the distance of `n` frames. A non-negative length gives a non-negative total, at least one length when `n >= 1`, and zero lengths give 0 |
| MarqueeRules.CopiesIsProduct | src/components/marquee-touch/index.tsx:52 | laying out copies equals the product `itemWidth * repeat` (and `n` frames cover `n * speed`) |
| MarqueeRules.Sized | src/components/marquee-touch/index.tsx:40-53 | `ready` holds exactly when a first item with positive width exists. An unready layout keeps both widths. A ready one has `itemWidth = width + 6` and stays consistent. |
| MarqueeRules.SizedIdempotent | src/components/marquee-touch/index.tsx:42-53 | measuring twice with the same width gives the layout of measuring once |
| MarqueeRules.Advance | src/components/marquee-touch/index.tsx:65-77 | a forward frame from at or left of rest lands in `(-itemWidth, 0]`, or at 0 while unready. A backward frame of at most one item keeps that band. Away from the wrap points a frame moves by exactly `speed`. A forward frame that reaches `-itemWidth` lands at 0 (lines 70-72). A backward frame that reaches 0 lands at `-itemWidth + speed` (lines 73-76). |
| MarqueeRules.Frames | src/components/marquee-touch/index.tsx:60-80 | any number of forward frames keeps the strip in `(-itemWidth, 0]` (and at 0 while unready), and so do backward frames no longer than one item |
| MarqueeRules.FramesCompose | src/components/marquee-touch/index.tsx:60-80 | `a + b` frames are `a` frames followed by `b` frames |
| MarqueeRules.FramesFromRest | src/components/marquee-touch/index.tsx:66-72 | from rest, as long as `k` frames stay short of one item, the strip is exactly the distance of `k` frames left of rest |
| MarqueeRules.FramesFromRestScaled | src/components/marquee-touch/index.tsx:66-72 | the same, with the distance as the product `k * speed` |
| MarqueeRules.CycleCompletes | src/components/marquee-touch/index.tsx:70-72 | the first frame whose distance reaches one item width wraps the strip back to 0 |
| MarqueeRules.FramesPeriodic | src/components/marquee-touch/index.tsx:60-80 | autonomous scrolling from rest is periodic, with period equal to the cycle length |
| MarqueeRules.DragDirection | src/components/marquee-touch/index.tsx:124 | the direction is 1 exactly when the delta is positive; a zero delta gives -1 |
| MarqueeRules.Clamp | src/components/marquee-touch/index.tsx:127-134 | over a consistent strip the result is the candidate clamped to `[-contentWidth, itemWidth]`: `itemWidth` above it (line 129), `-contentWidth` below it (line 131), the candidate itself in between. A candidate in `[-itemWidth, 0]` is kept, and an overscroll is only pulled back toward the band, never across it. |
| MarqueeRules.ClampIdempotent | src/components/marquee-touch/index.tsx:127-134 | clamping a clamped offset changes nothing |
| MarqueeRules.ClampMonotone | src/components/marquee-touch/index.tsx:127-134 | the clamp keeps the order of candidates |
| MarqueeRules.ReleaseOf | src/components/marquee-touch/index.tsx:141-147 | exactly one release policy applies: rebound iff `offset > 0`, snap iff `offset < -itemWidth`, keep iff `-itemWidth <= offset <= 0` |
| MarqueeRules.Released | src/components/marquee-touch/index.tsx:141-147 | only a snap moves the offset, and it lands strictly between the old offset and rest |
| MarqueeRules.ReleaseBounds | src/components/marquee-touch/index.tsx:139-149 | after a drag: a rebound starts from `(0, itemWidth]`, a snap moves exactly one item and lands within `[-(contentWidth - itemWidth), 0)`, and a kept offset lies in `[-itemWidth, 0]`. One forward frame then brings every non-rebound case into `(-itemWidth, 0]`. |
| MarqueeRules.SnapCanLeaveBand | src/components/marquee-touch/index.tsx:143-146 | a release at -350 (100 px item) snaps to -250, outside one item of rest, and the next frame jumps to 0 |
| MarqueeRules.ReboundOffset | src/components/marquee-touch/index.tsx:98-107 | the value is the start offset at 0 ms and rest from 300 ms on. From the right it stays in `[0, start]`, and strictly right of rest before 300 ms. |
| MarqueeRules.ReboundLinear | src/components/marquee-touch/index.tsx:100 | between two times before 300 ms, the rebound loses exactly `start * (e2 - e1) / 300`: a constant rate of `start / 300` per millisecond |
| MarqueeRules.ReboundNonIncreasing | src/components/marquee-touch/index.tsx:98-107 | as time passes, a rebound from the right only moves toward rest and never past it |
| MarqueeRules.Survivors | src/components/marquee-touch/index.tsx:99-107 | the chains that re-request are at most the ones that ran, every chain whose 300 ms are not over is among them, and all of them run on in order when none finished |
| MarqueeRules.SurvivorsStillRunning | src/components/marquee-touch/index.tsx:99-103 | only running chains whose 300 ms are not over re-request |
| MarqueeRules.ReboundStep | src/components/marquee-touch/index.tsx:97-108 | one callback: before 300 ms it re-requests itself (the live list grows by that chain) and keeps the flag; after it, it stops and lowers the flag. It never raises the flag, and a started rebound from the right leaves the strip at or right of rest. |
| MarqueeRules.ReboundPass | src/components/marquee-touch/index.tsx:97-108 | after one frame of rebound callbacks the live chains are the survivors; the flag stays up exactly when it was up and no chain has finished; the offset is the last callback's write (its interpolation, or 0 when it finished), or unchanged when no chain ran |
| MarqueeRules.ReboundPassRightOfRest | src/components/marquee-touch/index.tsx:99-106 | rebounds that started right of rest and have begun leave the strip at or right of rest |
| MarqueeRules.LoneReboundFrame | src/components/marquee-touch/index.tsx:97-108 | a lone rebound from the right, frame after frame: it either runs on at its interpolated offset or is done with the strip at rest and the flag down, stays within `[0, start]`, and never moves away from rest |
| MarqueeRules.AtMostOneOutstanding | src/components/marquee-touch/index.tsx:55-58 | the scheduler bookkeeping allows at most one outstanding frame request, the one the handle names |
| MarqueeTouch.RunCallbacks | src/components/marquee-touch/index.tsx:97-108 | running the callbacks of one frame in request order computes exactly `ReboundPass` |
| MarqueeTouch.Callback | src/components/marquee-touch/index.tsx:97-108 | one callback's branches compute exactly `ReboundStep` of the state the earlier callbacks left |
| MarqueeTouch.Marquee.constructor | src/components/marquee-touch/index.tsx:17-37 | the initial state: not in view, not paused, unready, widths and offset 0, direction 1, no requests, no rebounds |
| MarqueeTouch.Marquee.Measure | src/components/marquee-touch/index.tsx:42-53 | the layout becomes `Sized(old layout, width)`, and nothing else changes |
| MarqueeTouch.Marquee.StartAnimation | src/components/marquee-touch/index.tsx:55-58 | the old request is cancelled and exactly one fresh request is outstanding |
| MarqueeTouch.Marquee.StopAnimation | src/components/marquee-touch/index.tsx:85-89 | no request is outstanding |
| MarqueeTouch.Marquee.ScrollStep | src/components/marquee-touch/index.tsx:60-77 | an unready layout is measured, and the offset becomes `Advance` of the old offset exactly when the gate is open, always in direction 1 |
| MarqueeTouch.Marquee.Frame | src/components/marquee-touch/index.tsx:60-80 | a frame runs only when requested. It measures while unready and advances by `Advance` only when not paused, in view, not dragging and not rebounding. It then re-requests itself, and `direction` is never touched. |
| MarqueeTouch.Marquee.RunFrames | src/components/marquee-touch/index.tsx:60-80 | `n` frames give `Frames(old offset, n)` when the gate is open, and leave the offset alone otherwise. The strip stays in `(-itemWidth, 0]`. |
| MarqueeTouch.Marquee.TouchStart | src/components/marquee-touch/index.tsx:114-117 | records the X and starts a drag |
| MarqueeTouch.Marquee.TouchMove | src/components/marquee-touch/index.tsx:119-137 | ignored unless dragging. Otherwise the direction comes from the incremental delta, the offset is `Clamp(offset + delta)` within `[-contentWidth, itemWidth]`, and the sample replaces the last X. |
| MarqueeTouch.Marquee.ReboundLeft | src/components/marquee-touch/index.tsx:91-95 | called only on a release right of rest (line 141); raises the flag, starts one more chain from the current offset at `now`, and keeps `Valid` |
| MarqueeTouch.Marquee.TouchEnd | src/components/marquee-touch/index.tsx:139-149 | ends the drag and sets the direction to 1 at once. The offset becomes `Released(offset)`, and exactly a rebound release starts a chain. |
| MarqueeTouch.Marquee.ReboundTick | src/components/marquee-touch/index.tsx:97-108 | the new offset, flag and chains are `ReboundPass` of the old ones, and started rebounds never leave the strip left of rest |
| MarqueeTouch.Marquee.LoneReboundTick | src/components/marquee-touch/index.tsx:97-108 | one frame of a lone rebound on the instance: `LoneReboundFrame` applied to the fields, keeping `Valid` |
| MarqueeTouch.Marquee.RunRebound | src/components/marquee-touch/index.tsx:91-112 | over increasing clock readings, one rebound's trace stays in `[0, start]` and is non-increasing. After 300 ms it ends at 0 with the flag down and no chain left. |
| MarqueeTouch.Marquee.PageVisibility | src/components/marquee-touch/index.tsx:152-160 | `paused` becomes `hidden`. Hidden stops the loop; visible restarts it with one fresh request. |
| MarqueeTouch.Marquee.IntersectionEntry | src/components/marquee-touch/index.tsx:172-178 | `inview` follows the entry. An intersecting entry re-measures and starts the loop; another stops it. |
| MarqueeTouch.Marquee.Intersection | src/components/marquee-touch/index.tsx:170-179 | after the entries, `inview` is the last entry's. The layout is re-measured exactly when some entry intersects, and a request is outstanding exactly when the last one does. |
| MarqueeScenarios.DefaultCycle | src/components/marquee-touch/index.tsx:40-80 | with a 106 px boundary at 0.5 px per frame, 200 frames from rest reach -100 and frame 212 is back at 0 |
| MarqueeScenarios.FirstHundredPixels | src/components/marquee-touch/index.tsx:60-72 | with a 106 px boundary at 0.5 px per frame, 200 frames from rest reach exactly -100 |
| MarqueeScenarios.AutonomousCycle | src/components/marquee-touch/index.tsx:42-80 | a started marquee with a 100 px item is at -100 after 200 frames and at 0 after 212 |
| MarqueeScenarios.HiddenPageFreezes | src/components/marquee-touch/index.tsx:152-160 | frames while the page is hidden leave the offset at -5, and the first frame after it moves on to -5.5 |
| MarqueeScenarios.DragPastRest | src/components/marquee-touch/index.tsx:119-149 | on a started, in-view marquee, a 150 px drag on a 100 px item is held at 100. The rebound is at 50 after 150 ms. After 300 ms it is at 0, and the advance gate of line 65 is open again (not paused, in view, not dragging, flag down). |
| MarqueeScenarios.LongLeftDrag | src/components/marquee-touch/index.tsx:127-147 | a -350 px drag is held at -350, snaps to -250, and the next frame jumps to 0 |
| MarqueeScenarios.OverlappingRebounds | src/components/marquee-touch/index.tsx:91-112 | a release during a rebound starts a second chain. When the first ends the flag drops, the scroll frame advances to 19.5, and the second chain still writes 10. |

## Left out

- Rendering is not modelled: the JSX, class names, the `translate(...)` style string and `contentStyle` are presentation only.
- Listener registration and removal for `visibilitychange`, `resize` and the intersection observer are not modelled; the events are method calls. The resize handler is `Measure`.
- The unmount cleanup is not modelled. It only cancels the scroll frame (it does not cancel running rebounds) and disconnects the observer.
- The path where the browser has no IntersectionObserver is not modelled. Nothing then ever sets `inview`, so the model's initial `inview = false` stands.
- React hook semantics are not modelled: state batching, `useCallback` dependencies and stale closures. Every flag is read as its current field value, and `offset` is the ref the state mirrors.
- JavaScript doubles are modelled as `real`, so rounding is not modelled.
- The browser's frame scheduling and clock are not modelled. Frame order is the order of calls, and `performance.now()` values are parameters (`now`, `times`). `requestAnimationFrame` handles are issued in increasing order starting from 1.
- A rebound callback's `requestAnimationFrame` is not modelled: a chain that re-requests itself stays in `rebounds`, and the frame's callbacks run in request order.
- MarqueeRules.Advance: `speed * direction` is written as a subtraction or addition of `speed`, because the direction is always 1 or -1.
- MarqueeTouch.Marquee.Frame: the reverse wrap of lines 73-76 cannot run here. `Valid` keeps `direction == -1 ==> isDragging` and the gate needs `!isDragging`, so every frame that advances goes forward. In the component it is reachable only through a stale `animate` closure that still sees `isDragging` as false during a drag. `Advance` states where the reverse wrap lands on its own.
- MarqueeTouch.Marquee.RunFrames: this states the outcome only for frames that all see the same measured width and the same gate flags, since nothing else runs between them.
- MarqueeTouch.Marquee.RunRebound: this covers one running rebound with nothing else happening; overlapping chains are covered by `ReboundTick` and `OverlappingRebounds`.
- The CSS marquee, the store, the pages, the router, the providers and the build configuration are not part of this model.
