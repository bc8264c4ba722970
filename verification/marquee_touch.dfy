/**
 One touch-draggable marquee instance: the scroll offset, the layout, the
 gating flags, the touch sample, the scroll-frame scheduler and the running
 rebounds, with one method per event the component reacts to. The DOM
 width, touch positions and clock readings arrive as parameters.
 */
module MarqueeTouch {
  import opened MarqueeRules

  /**
   One rebound callback at time `now`, on the offset, flag and re-request
   list the earlier callbacks of the frame left: before the duration is over
   it writes its interpolated offset and re-requests itself, after it it
   writes rest, clears the flag and stops.
   */
  method Callback(c: ReboundChain, now: real, offset: real, rebounding: bool, live: seq<ReboundChain>)
    returns (offset': real, rebounding': bool, live': seq<ReboundChain>)
    ensures ReboundFrame(offset', rebounding', live') == ReboundStep(ReboundFrame(offset, rebounding, live), c, now)
  {
    offset', rebounding', live' := offset, rebounding, live;
    var elapsed := now - c.startTime;
    if elapsed < REBOUND_DURATION {
      offset' := ReboundOffset(c.from, elapsed);
      live' := live + [c];
    } else {
      offset' := 0.0;
      rebounding' := false;
    }
  }

  /**
   The rebound callbacks of one frame at time `now`, in request order, on
   the offset and flag they start from; `live` collects the ones that
   re-requested.
   */
  method RunCallbacks(start: real, raised: bool, chains: seq<ReboundChain>, now: real)
    returns (offset: real, rebounding: bool, live: seq<ReboundChain>)
    ensures ReboundFrame(offset, rebounding, live) == ReboundPass(start, raised, chains, now)
  {
    offset, rebounding, live := start, raised, [];
    var i := 0;
    while i < |chains|
      invariant 0 <= i <= |chains|
      invariant ReboundFrame(offset, rebounding, live) == ReboundPass(start, raised, chains[..i], now)
    {
      offset, rebounding, live := Callback(chains[i], now, offset, rebounding, live);
      ReboundPassPrefix(start, raised, chains, i, now);
      i := i + 1;
    }
    assert chains[..|chains|] == chains;
  }

  class Marquee {
    /** Number of copies of the content in the strip. */
    const repeat: nat
    /** Pixels per autonomous frame. */
    const speed: real

    var inview: bool
    var paused: bool
    /** Horizontal translation of the strip; the component keeps it in a ref and mirrors it into state. */
    var offset: real
    var ready: bool
    var isDragging: bool
    var isRebounding: bool
    var contentWidth: real
    var itemWidth: real
    /** 1 scrolls the strip leftward, -1 rightward. */
    var direction: int
    /** The last touch sample's X; every move sample replaces it. */
    var lastTouchX: real

    /** The frame handle ref: the last scroll-frame request, 0 when none was made. */
    var frameHandle: nat
    /** Scroll-frame requests that are neither run nor cancelled. */
    var pending: set<nat>
    /** The handle the next request receives. */
    var nextHandle: nat
    /** Rebounds that have requested their next frame, in request order. */
    var rebounds: seq<ReboundChain>

    ghost predicate Valid()
      reads this
    {
      && Consistent(CurrentLayout(), repeat)
      && (direction == 1 || direction == -1)
      // only a drag turns the direction around, and a touch end turns it back
      && (direction == -1 ==> isDragging)
      && SingleRequest(pending, frameHandle, nextHandle)
      && (isRebounding ==> rebounds != [])
      // rebounds start only from offsets right of rest
      && (forall c :: c in rebounds ==> c.from > 0.0)
    }

    function CurrentLayout(): (l: Layout)
      reads this
      ensures l.ready == ready && l.itemWidth == itemWidth && l.contentWidth == contentWidth
    {
      Layout(ready, itemWidth, contentWidth)
    }

    /** The gate of the autonomous advance. */
    predicate Animating()
      reads this
    {
      !paused && inview && !isDragging && !isRebounding
    }

    /** Whether a scroll frame is requested. */
    predicate Scheduled()
      reads this
    {
      frameHandle in pending
    }

    constructor (repeat: nat, speed: real)
      ensures Valid()
      ensures this.repeat == repeat && this.speed == speed
      ensures !inview && !paused && !ready && !isDragging && !isRebounding
      ensures offset == 0.0 && itemWidth == 0.0 && contentWidth == 0.0 && direction == 1
      ensures pending == {} && rebounds == []
    {
      this.repeat := repeat;
      this.speed := speed;
      inview, paused, ready := false, false, false;
      isDragging, isRebounding := false, false;
      offset, itemWidth, contentWidth := 0.0, 0.0, 0.0;
      direction := 1;
      lastTouchX := 0.0;
      frameHandle, pending, nextHandle := 0, {}, 1;
      rebounds := [];
    }

    /** Sizing: `width` is the first item's rendered width, `None` when there is no first item. */
    method Measure(width: Option<real>)
      requires Valid()
      modifies this`ready, this`itemWidth, this`contentWidth
      ensures Valid()
      ensures CurrentLayout() == Sized(old(CurrentLayout()), width, repeat)
    {
      if width.None? || width.value <= 0.0 {
        ready := false;
        return;
      }
      ready := true;
      itemWidth := width.value + GAP;
      contentWidth := Copies(itemWidth, repeat);
    }

    /** Starting the scroll loop cancels the outstanding request and makes a fresh one. */
    method StartAnimation()
      requires Valid()
      modifies this`pending, this`frameHandle, this`nextHandle
      ensures Valid()
      ensures old(frameHandle) != frameHandle && old(frameHandle) !in pending
      ensures frameHandle == old(nextHandle) && pending == {frameHandle}
    {
      if frameHandle != 0 {
        pending := pending - {frameHandle};
      }
      frameHandle, nextHandle := nextHandle, nextHandle + 1;
      pending := pending + {frameHandle};
    }

    /** Stopping the scroll loop cancels the request the handle names. */
    method StopAnimation()
      requires Valid()
      modifies this`pending
      ensures Valid()
      ensures pending == {}
    {
      if frameHandle != 0 {
        pending := pending - {frameHandle};
      }
    }

    /** The scroll callback's work before it re-requests itself: measure an unready layout, then the gated advance. */
    method ScrollStep(width: Option<real>)
      requires Valid()
      modifies this`ready, this`itemWidth, this`contentWidth, this`offset
      ensures Valid()
      ensures CurrentLayout() == if !old(ready) then Sized(old(CurrentLayout()), width, repeat) else old(CurrentLayout())
      ensures offset == if Animating() then Advance(old(offset), itemWidth, speed, direction) else old(offset)
      ensures Animating() ==> direction == 1
    {
      if !ready {
        Measure(width);
      }
      if Animating() {
        offset := Advance(offset, itemWidth, speed, direction);
      }
    }

    /**
     One scroll frame, run only when a scroll frame is requested. An unready
     layout is measured first (with `width`), and the frame goes on to the
     gated advance either way; the frame then requests its successor.
     */
    method Frame(width: Option<real>)
      requires Valid()
      modifies this`ready, this`itemWidth, this`contentWidth, this`offset
      modifies this`pending, this`frameHandle, this`nextHandle
      ensures Valid()
      ensures CurrentLayout() == if old(Scheduled()) && !old(ready)
                                 then Sized(old(CurrentLayout()), width, repeat)
                                 else old(CurrentLayout())
      ensures offset == if old(Scheduled()) && Animating()
                        then Advance(old(offset), itemWidth, speed, direction)
                        else old(offset)
      // the advance always runs forward: a frame that moves the strip never sees direction -1
      ensures Animating() ==> direction == 1
      ensures Scheduled() == old(Scheduled())
      ensures old(Scheduled()) ==> frameHandle == old(nextHandle) && pending == {frameHandle}
      ensures !old(Scheduled()) ==> pending == old(pending) && frameHandle == old(frameHandle)
    {
      if frameHandle !in pending {
        return;
      }
      pending := pending - {frameHandle};
      ScrollStep(width);
      frameHandle, nextHandle := nextHandle, nextHandle + 1;
      pending := pending + {frameHandle};
    }

    /** `n` successive scroll frames with the same measured width. */
    method RunFrames(n: nat, width: Option<real>)
      requires Valid()
      modifies this`ready, this`itemWidth, this`contentWidth, this`offset
      modifies this`pending, this`frameHandle, this`nextHandle
      ensures Valid()
      ensures Scheduled() == old(Scheduled())
      ensures CurrentLayout() == if old(Scheduled()) && !old(ready) && n > 0
                                 then Sized(old(CurrentLayout()), width, repeat)
                                 else old(CurrentLayout())
      ensures offset == if old(Scheduled()) && Animating()
                        then Frames(old(offset), itemWidth, speed, direction, n)
                        else old(offset)
      // autonomous scrolling keeps the strip within one item left of rest
      ensures speed >= 0.0 && -itemWidth < old(offset) <= 0.0 ==> -itemWidth < offset <= 0.0
    {
      var i := 0;
      while i < n
        invariant 0 <= i <= n
        invariant Valid()
        invariant Scheduled() == old(Scheduled())
        invariant CurrentLayout() == if old(Scheduled()) && !old(ready) && i > 0
                                     then Sized(old(CurrentLayout()), width, repeat)
                                     else old(CurrentLayout())
        invariant offset == if old(Scheduled()) && Animating()
                            then Frames(old(offset), itemWidth, speed, direction, i)
                            else old(offset)
      {
        ghost var before := CurrentLayout();
        Frame(width);
        if i > 0 && old(Scheduled()) && !old(ready) {
          SizedIdempotent(old(CurrentLayout()), width, repeat);
          assert CurrentLayout() == before;
        }
        i := i + 1;
      }
      if old(Scheduled()) && Animating() {
        assert direction == 1;
      }
    }

    /** A touch start records the finger's X and starts a drag. */
    method TouchStart(x: real)
      requires Valid()
      modifies this`lastTouchX, this`isDragging
      ensures Valid()
      ensures lastTouchX == x && isDragging
    {
      lastTouchX := x;
      isDragging := true;
    }

    /**
     A touch move, ignored unless a drag is on: the delta against the last
     sample sets the direction and moves the clamped offset, and the sample
     becomes the last one.
     */
    method TouchMove(x: real)
      requires Valid()
      modifies this`direction, this`offset, this`lastTouchX
      ensures Valid()
      ensures !old(isDragging) ==>
                offset == old(offset) && direction == old(direction) && lastTouchX == old(lastTouchX)
      ensures old(isDragging) ==>
                lastTouchX == x &&
                direction == DragDirection(x - old(lastTouchX)) &&
                offset == Clamp(old(offset) + (x - old(lastTouchX)), itemWidth, contentWidth)
      // a drag keeps the strip between one strip width left and one item right of rest
      ensures old(isDragging) && repeat >= 1 ==> -contentWidth <= offset <= itemWidth
    {
      if !isDragging {
        return;
      }
      var deltaX := x - lastTouchX;
      direction := if deltaX > 0.0 then 1 else -1;
      var candidate := offset + deltaX;
      if candidate > 0.0 {
        offset := if candidate < itemWidth then candidate else itemWidth;
      } else if candidate < -itemWidth {
        offset := if candidate > -contentWidth then candidate else -contentWidth;
      } else {
        offset := candidate;
      }
      lastTouchX := x;
    }

    /** The rebound of a strip over-dragged to the right, starting at time `now`. */
    method ReboundLeft(now: real)
      requires Valid() && offset > 0.0
      modifies this`isRebounding, this`rebounds
      ensures Valid()
      ensures isRebounding
      ensures rebounds == old(rebounds) + [ReboundChain(offset, now)]
    {
      isRebounding := true;
      rebounds := rebounds + [ReboundChain(offset, now)];
    }

    /**
     A touch end at time `now`: the drag ends, the release policy for the
     offset applies, and the direction goes back to 1 at once.
     */
    method TouchEnd(now: real)
      requires Valid()
      modifies this`isDragging, this`offset, this`direction, this`isRebounding, this`rebounds
      ensures Valid()
      ensures !isDragging && direction == 1
      ensures offset == Released(old(offset), itemWidth)
      ensures ReleaseOf(old(offset), itemWidth) == Rebound ==>
                isRebounding && rebounds == old(rebounds) + [ReboundChain(old(offset), now)]
      ensures ReleaseOf(old(offset), itemWidth) != Rebound ==>
                isRebounding == old(isRebounding) && rebounds == old(rebounds)
    {
      if offset > 0.0 {
        ReboundLeft(now);
      } else if offset < -itemWidth {
        offset := offset + itemWidth;
      }
      direction := 1;
      // the drag flag is React state: the handler's own reads still see the drag, and the update lands after it
      isDragging := false;
    }

    /**
     The rebound callbacks of one frame at time `now`, in request order;
     each either writes its interpolated offset and stays, or writes rest,
     clears the flag and stops.
     */
    method ReboundTick(now: real)
      requires Valid()
      modifies this`offset, this`isRebounding, this`rebounds
      ensures Valid()
      ensures ReboundFrame(offset, isRebounding, rebounds) == ReboundPass(old(offset), old(isRebounding), old(rebounds), now)
      // a rebound that has started never pushes the strip left of rest
      ensures old(rebounds) != [] && (forall c :: c in old(rebounds) ==> c.startTime <= now) ==> offset >= 0.0
    {
      var chains, start, raised := rebounds, offset, isRebounding;
      var o, flag, live := RunCallbacks(start, raised, chains, now);
      SurvivorsStillRunning(chains, now);
      if chains != [] && (forall c :: c in chains ==> c.startTime <= now) {
        ReboundPassRightOfRest(start, raised, chains, now);
      }
      offset, isRebounding, rebounds := o, flag, live;
    }

    /**
     One frame of a lone rebound `c` at time `now`, after the frame at
     `before` when `later`: the chain runs on with its interpolated offset
     or is done and the strip rests, never moving away from rest.
     */
    method LoneReboundTick(c: ReboundChain, later: bool, before: real, now: real)
      requires Valid() && (rebounds == [c] || rebounds == [])
      requires c.from > 0.0 && c.startTime <= now
      requires rebounds == [] ==> offset == 0.0 && !isRebounding
      requires rebounds == [c] && later ==>
                 c.startTime <= before <= now && before - c.startTime < REBOUND_DURATION &&
                 offset == ReboundOffset(c.from, before - c.startTime)
      modifies this`offset, this`isRebounding, this`rebounds
      ensures Valid() && (rebounds == [c] || rebounds == [])
      ensures rebounds == [c] ==> now - c.startTime < REBOUND_DURATION && offset == ReboundOffset(c.from, now - c.startTime)
      ensures rebounds == [] ==> offset == 0.0 && !isRebounding
      ensures 0.0 <= offset <= c.from
      ensures later || old(rebounds) == [] ==> offset <= old(offset)
    {
      LoneReboundFrame(offset, isRebounding, rebounds, c, later, before, now);
      ReboundTick(now);
    }

    /**
     Rebound frames at the clock readings `times` while one rebound runs and
     nothing else happens; `trace` is the offset after each of them.
     */
    method RunRebound(times: seq<real>) returns (trace: seq<real>)
      requires Valid() && |rebounds| == 1
      requires forall j :: 0 <= j < |times| ==> rebounds[0].startTime <= times[j]
      requires forall j :: 0 < j < |times| ==> times[j - 1] <= times[j]
      modifies this`offset, this`isRebounding, this`rebounds
      ensures Valid() && |trace| == |times|
      ensures times != [] ==> offset == trace[|trace| - 1]
      // never past rest, never further out than where it started, and only toward rest
      ensures forall j :: 0 <= j < |trace| ==> 0.0 <= trace[j] <= old(rebounds[0].from)
      ensures forall j :: 0 < j < |trace| ==> trace[j] <= trace[j - 1]
      // once the duration is over the strip is at rest and the gate is open again
      ensures times != [] && times[|times| - 1] - old(rebounds[0].startTime) >= REBOUND_DURATION ==>
                offset == 0.0 && !isRebounding && rebounds == []
    {
      var c := rebounds[0];
      trace := [];
      var i := 0;
      while i < |times|
        invariant 0 <= i <= |times| && |trace| == i
        invariant Valid()
        invariant rebounds == [c] || rebounds == []
        invariant rebounds == [c] && i > 0 ==>
                    times[i - 1] - c.startTime < REBOUND_DURATION &&
                    offset == ReboundOffset(c.from, times[i - 1] - c.startTime)
        invariant rebounds == [] ==> i > 0 && offset == 0.0 && !isRebounding
        invariant i > 0 ==> trace[i - 1] == offset
        invariant forall j :: 0 <= j < i ==> 0.0 <= trace[j] <= c.from
        invariant forall j :: 0 < j < i ==> trace[j] <= trace[j - 1]
      {
        LoneReboundTick(c, i > 0, if i > 0 then times[i - 1] else 0.0, times[i]);
        trace := trace + [offset];
        i := i + 1;
      }
    }

    /** The page-visibility handler: a hidden page pauses and stops the loop, a visible one resumes it. */
    method PageVisibility(hidden: bool)
      requires Valid()
      modifies this`paused, this`pending, this`frameHandle, this`nextHandle
      ensures Valid()
      ensures paused == hidden
      ensures hidden ==> pending == {} && frameHandle == old(frameHandle)
      ensures !hidden ==> frameHandle == old(nextHandle) && pending == {frameHandle}
    {
      paused := hidden;
      if hidden {
        StopAnimation();
      } else {
        StartAnimation();
      }
    }

    /**
     The intersection callback for one entry: it sets `inview`; an
     intersecting entry re-measures (with `width`) and starts the loop,
     another stops it.
     */
    method IntersectionEntry(isIntersecting: bool, width: Option<real>)
      requires Valid()
      modifies this`inview, this`ready, this`itemWidth, this`contentWidth
      modifies this`pending, this`frameHandle, this`nextHandle
      ensures Valid()
      ensures inview == isIntersecting
      ensures pending == if inview then {frameHandle} else {}
      ensures CurrentLayout() == if isIntersecting
                                 then Sized(old(CurrentLayout()), width, repeat)
                                 else old(CurrentLayout())
    {
      inview := isIntersecting;
      if isIntersecting {
        Measure(width);
        StartAnimation();
      } else {
        StopAnimation();
      }
    }

    /** The intersection handler: the callback for each entry of one notification, in order. */
    method Intersection(entries: seq<bool>, width: Option<real>)
      requires Valid()
      modifies this`inview, this`ready, this`itemWidth, this`contentWidth
      modifies this`pending, this`frameHandle, this`nextHandle
      ensures Valid()
      ensures entries == [] ==> inview == old(inview) && pending == old(pending)
      ensures entries != [] ==> inview == entries[|entries| - 1]
      ensures entries != [] ==> pending == if inview then {frameHandle} else {}
      ensures CurrentLayout() == if true in entries
                                 then Sized(old(CurrentLayout()), width, repeat)
                                 else old(CurrentLayout())
    {
      var i := 0;
      while i < |entries|
        invariant 0 <= i <= |entries|
        invariant Valid()
        invariant i == 0 ==> inview == old(inview) && pending == old(pending)
        invariant i > 0 ==> inview == entries[i - 1] && pending == if inview then {frameHandle} else {}
        invariant CurrentLayout() == if true in entries[..i]
                                     then Sized(old(CurrentLayout()), width, repeat)
                                     else old(CurrentLayout())
      {
        assert entries[..i + 1] == entries[..i] + [entries[i]];
        if entries[i] && true in entries[..i] {
          SizedIdempotent(old(CurrentLayout()), width, repeat);
        }
        IntersectionEntry(entries[i], width);
        i := i + 1;
      }
      assert entries[..|entries|] == entries;
    }
  }
}
