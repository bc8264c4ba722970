/**
 The pure rules of the touch-draggable marquee: how a measured item width
 becomes the wrap boundary, how one autonomous frame moves the strip and
 wraps it, how a drag candidate is clamped, which release policy a touch end
 applies, and how a rebound interpolates back to rest. Pixels and
 milliseconds are `real`; the class in module MarqueeTouch applies these
 rules to its fields.
 */
module MarqueeRules {

  datatype Option<T> = None | Some(value: T)

  /** Horizontal gap, in pixels, added to every measured item. */
  const GAP: real := 6.0

  /** Length of a rebound, in milliseconds. */
  const REBOUND_DURATION: real := 300.0

  // ---------------------------------------------------------------- sizing

  /** The layout fields: the `ready` flag, one item plus its gap, the whole strip. */
  datatype Layout = Layout(ready: bool, itemWidth: real, contentWidth: real)

  /**
   `n` lengths `w` laid end to end: the width of a strip of `n` copies of
   an item, or the distance `n` frames of `w` pixels cover.
   */
  function Copies(w: real, n: nat): (c: real)
    ensures w == 0.0 ==> c == 0.0
    ensures w >= 0.0 ==> c >= 0.0
    ensures w >= 0.0 && n >= 1 ==> c >= w
  {
    if n == 0 then 0.0 else Copies(w, n - 1) + w
  }

  /** Laying out copies is the product `w * n` (`itemWidth * repeat`, `speed` times frames). */
  lemma {:induction false} CopiesIsProduct(w: real, n: nat)
    ensures Copies(w, n) == w * n as real
  {
    if n > 0 {
      CopiesIsProduct(w, n - 1);
      assert w * n as real == w * (n - 1) as real + w;
    }
  }

  /** The strip is `repeat` copies of a non-negative item width. */
  predicate Consistent(l: Layout, repeat: nat) {
    l.itemWidth >= 0.0 && l.contentWidth == Copies(l.itemWidth, repeat)
  }

  /**
   Sizing from one measurement: `width` is the first item's rendered width,
   `None` when no first item is rendered. A missing item or a width that is
   not positive marks the layout unready and keeps the previous widths.
   */
  function Sized(l: Layout, width: Option<real>, repeat: nat): (r: Layout)
    ensures r.ready <==> width.Some? && width.value > 0.0
    ensures !r.ready ==> r.itemWidth == l.itemWidth && r.contentWidth == l.contentWidth
    ensures width.Some? && width.value > 0.0 ==> r.itemWidth == width.value + GAP && r.itemWidth > GAP
    ensures r.ready ==> Consistent(r, repeat)
    ensures Consistent(l, repeat) ==> Consistent(r, repeat)
  {
    if width.None? || width.value <= 0.0 then
      l.(ready := false)
    else
      var itemWidth := width.value + GAP;
      Layout(true, itemWidth, Copies(itemWidth, repeat))
  }

  /** Measuring twice with the same width gives the layout of measuring once. */
  lemma SizedIdempotent(l: Layout, width: Option<real>, repeat: nat)
    ensures Sized(Sized(l, width, repeat), width, repeat) == Sized(l, width, repeat)
  {
  }

  // ------------------------------------------------------- autonomous scroll

  /**
   One autonomous frame: move by `-speed * direction`, then wrap. Moving
   forward (direction 1) onto or past `-itemWidth` restarts at 0; moving
   backward (direction -1) onto or past 0 restarts at `-itemWidth + speed`.
   */
  function Advance(offset: real, itemWidth: real, speed: real, direction: int): (r: real)
    requires direction == 1 || direction == -1
    // forward, from anywhere at or left of rest: lands inside (-itemWidth, 0]
    ensures direction == 1 && speed >= 0.0 && itemWidth > 0.0 && offset <= 0.0 ==>
              -itemWidth < r <= 0.0
    // forward while unready (no boundary yet): stays at rest
    ensures direction == 1 && speed >= 0.0 && itemWidth == 0.0 && offset <= 0.0 ==> r == 0.0
    // backward, by no more than one item per frame: stays inside (-itemWidth, 0]
    ensures direction == -1 && 0.0 < speed <= itemWidth && -itemWidth < offset <= 0.0 ==>
              -itemWidth < r <= 0.0
    // away from the wrap points the frame moves by exactly one step
    ensures direction == 1 && -itemWidth < offset - speed ==> r == offset - speed
    ensures direction == -1 && offset + speed < 0.0 ==> r == offset + speed
    // where each wrap lands
    ensures direction == 1 && offset - speed <= -itemWidth ==> r == 0.0
    ensures direction == -1 && offset + speed >= 0.0 ==> r == -itemWidth + speed
  {
    // `speed * direction`, with the direction one of 1 and -1
    var moved := if direction == 1 then offset - speed else offset + speed;
    if direction > 0 && moved <= -itemWidth then 0.0
    else if direction < 0 && moved >= 0.0 then -itemWidth + speed
    else moved
  }

  /** The offset after `n` autonomous frames in a fixed direction. */
  function Frames(offset: real, itemWidth: real, speed: real, direction: int, n: nat): (r: real)
    requires direction == 1 || direction == -1
    ensures direction == 1 && speed >= 0.0 && -itemWidth < offset <= 0.0 ==> -itemWidth < r <= 0.0
    ensures direction == 1 && speed >= 0.0 && itemWidth == 0.0 && offset == 0.0 ==> r == 0.0
    ensures direction == -1 && 0.0 < speed <= itemWidth && -itemWidth < offset <= 0.0 ==>
              -itemWidth < r <= 0.0
    decreases n
  {
    if n == 0 then offset
    else Advance(Frames(offset, itemWidth, speed, direction, n - 1), itemWidth, speed, direction)
  }

  /** `a + b` frames are `a` frames followed by `b` frames. */
  lemma {:induction false} FramesCompose(offset: real, itemWidth: real, speed: real, direction: int, a: nat, b: nat)
    requires direction == 1 || direction == -1
    ensures Frames(offset, itemWidth, speed, direction, a + b)
         == Frames(Frames(offset, itemWidth, speed, direction, a), itemWidth, speed, direction, b)
    decreases b
  {
    if b > 0 {
      FramesCompose(offset, itemWidth, speed, direction, a, b - 1);
    }
  }

  /** From rest, while `k` frames stay short of one item, the strip has moved left by exactly their distance. */
  lemma {:induction false} FramesFromRest(itemWidth: real, speed: real, k: nat)
    requires speed > 0.0 && Copies(speed, k) < itemWidth
    ensures Frames(0.0, itemWidth, speed, 1, k) == -Copies(speed, k)
  {
    if k > 0 {
      assert Copies(speed, k) == Copies(speed, k - 1) + speed;
      FramesFromRest(itemWidth, speed, k - 1);
    }
  }

  /** The same distance as a product: `k` frames of `speed` pixels from rest. */
  lemma FramesFromRestScaled(itemWidth: real, speed: real, k: nat)
    requires speed > 0.0 && speed * k as real < itemWidth
    ensures Frames(0.0, itemWidth, speed, 1, k) == -(speed * k as real)
  {
    CopiesIsProduct(speed, k);
    FramesFromRest(itemWidth, speed, k);
  }

  /**
   A cycle: when `m` is the first frame count whose distance reaches one
   item width, frame `m` wraps the strip back to rest.
   */
  lemma CycleCompletes(itemWidth: real, speed: real, m: nat)
    requires speed > 0.0 && m >= 1
    requires Copies(speed, m - 1) < itemWidth <= Copies(speed, m)
    ensures Frames(0.0, itemWidth, speed, 1, m) == 0.0
  {
    FramesFromRest(itemWidth, speed, m - 1);
    assert Copies(speed, m) == Copies(speed, m - 1) + speed;
  }

  /** Autonomous scrolling from rest is periodic with the cycle length `m`. */
  lemma FramesPeriodic(itemWidth: real, speed: real, m: nat, k: nat)
    requires speed > 0.0 && m >= 1
    requires Copies(speed, m - 1) < itemWidth <= Copies(speed, m)
    ensures Frames(0.0, itemWidth, speed, 1, k + m) == Frames(0.0, itemWidth, speed, 1, k)
  {
    CycleCompletes(itemWidth, speed, m);
    FramesCompose(0.0, itemWidth, speed, 1, m, k);
  }

  // ------------------------------------------------------------------ touch

  /** The direction a drag sample sets: rightward only for a positive delta. */
  function DragDirection(deltaX: real): (d: int)
    ensures d == 1 || d == -1
    ensures d == 1 <==> deltaX > 0.0
  {
    if deltaX > 0.0 then 1 else -1
  }

  /**
   The drag clamp on a candidate offset: overscroll past rest is bounded by
   one item width, overscroll past one item by the whole strip.
   */
  function Clamp(candidate: real, itemWidth: real, contentWidth: real): (r: real)
    ensures 0.0 <= itemWidth <= contentWidth ==> -contentWidth <= r <= itemWidth
    ensures -itemWidth <= candidate <= 0.0 ==> r == candidate
    // a clamp only pulls the candidate back toward the band, never across it
    ensures candidate > 0.0 && itemWidth >= 0.0 ==> 0.0 <= r <= candidate
    ensures candidate < -itemWidth && 0.0 <= itemWidth <= contentWidth ==> candidate <= r <= -itemWidth
    // over a consistent strip the three branches are a plain clamp to [-contentWidth, itemWidth]
    ensures 0.0 <= itemWidth <= contentWidth ==>
              r == (if candidate > itemWidth then itemWidth else if candidate < -contentWidth then -contentWidth else candidate)
  {
    if candidate > 0.0 then
      (if candidate < itemWidth then candidate else itemWidth)
    else if candidate < -itemWidth then
      (if candidate > -contentWidth then candidate else -contentWidth)
    else
      candidate
  }

  /** Clamping a clamped offset changes nothing. */
  lemma ClampIdempotent(candidate: real, itemWidth: real, contentWidth: real)
    requires 0.0 <= itemWidth <= contentWidth
    ensures Clamp(Clamp(candidate, itemWidth, contentWidth), itemWidth, contentWidth)
         == Clamp(candidate, itemWidth, contentWidth)
  {
  }

  /** The clamp keeps the order of candidates: a drag further right never lands further left. */
  lemma ClampMonotone(c1: real, c2: real, itemWidth: real, contentWidth: real)
    requires 0.0 <= itemWidth <= contentWidth && c1 <= c2
    ensures Clamp(c1, itemWidth, contentWidth) <= Clamp(c2, itemWidth, contentWidth)
  {
  }

  /** The three release policies of a touch end. */
  datatype Release = Rebound | Snap | Keep

  /** The release policy for the offset at touch end; exactly one applies. */
  function ReleaseOf(offset: real, itemWidth: real): (r: Release)
    ensures r == Rebound <==> offset > 0.0
    ensures r == Snap <==> offset <= 0.0 && offset < -itemWidth
    ensures r == Keep <==> -itemWidth <= offset <= 0.0
  {
    if offset > 0.0 then Rebound
    else if offset < -itemWidth then Snap
    else Keep
  }

  /** The offset right after a touch end (a rebound starts from the offset as it is). */
  function Released(offset: real, itemWidth: real): (r: real)
    ensures ReleaseOf(offset, itemWidth) != Snap ==> r == offset
    ensures ReleaseOf(offset, itemWidth) == Snap && itemWidth > 0.0 ==> offset < r < 0.0
  {
    if ReleaseOf(offset, itemWidth) == Snap then offset + itemWidth else offset
  }

  /**
   Where a release leaves an offset that a drag produced: a rebound starts
   from at most one item right of rest; a snap moves exactly one item right
   and lands left of rest but not beyond one item short of the strip's end;
   a kept offset lies in [-itemWidth, 0]. A frame in the forward direction
   then brings every non-rebounding case into (-itemWidth, 0].
   */
  lemma ReleaseBounds(offset: real, l: Layout, repeat: nat, speed: real)
    requires Consistent(l, repeat) && repeat >= 1 && l.itemWidth > 0.0 && speed >= 0.0
    requires -l.contentWidth <= offset <= l.itemWidth
    ensures ReleaseOf(offset, l.itemWidth) == Rebound ==> 0.0 < Released(offset, l.itemWidth) <= l.itemWidth
    ensures ReleaseOf(offset, l.itemWidth) == Snap ==>
              Released(offset, l.itemWidth) == offset + l.itemWidth &&
              -(l.contentWidth - l.itemWidth) <= Released(offset, l.itemWidth) < 0.0
    ensures ReleaseOf(offset, l.itemWidth) == Keep ==> -l.itemWidth <= Released(offset, l.itemWidth) <= 0.0
    ensures ReleaseOf(offset, l.itemWidth) != Rebound ==>
              -l.itemWidth < Advance(Released(offset, l.itemWidth), l.itemWidth, speed, 1) <= 0.0
  {
  }

  /**
   A snap does not always land within one item of rest: with a 100 px item
   and four copies, a drag to -350 snaps to -250, and the next forward
   frame jumps the strip straight to 0.
   */
  lemma SnapCanLeaveBand()
    ensures ReleaseOf(-350.0, 100.0) == Snap
    ensures Released(-350.0, 100.0) == -250.0 && Released(-350.0, 100.0) <= -100.0
    ensures Advance(Released(-350.0, 100.0), 100.0, 0.5, 1) == 0.0
  {
  }

  // ---------------------------------------------------------------- rebound

  /**
   The rebound offset `elapsed` milliseconds after a rebound from `from`
   started: a straight line to rest over REBOUND_DURATION, then rest.
   */
  function ReboundOffset(from: real, elapsed: real): (r: real)
    ensures elapsed >= REBOUND_DURATION ==> r == 0.0
    ensures elapsed == 0.0 ==> r == from
    // linear: it never overshoots rest
    ensures from >= 0.0 && 0.0 <= elapsed ==> 0.0 <= r <= from
    ensures from > 0.0 && 0.0 <= elapsed < REBOUND_DURATION ==> 0.0 < r <= from
  {
    if elapsed < REBOUND_DURATION then
      ScaleWithin(from, 1.0 - elapsed / REBOUND_DURATION);
      from * (1.0 - elapsed / REBOUND_DURATION)
    else 0.0
  }

  /** Scaling by a fraction in [0, 1] stays between 0 and the scaled value. */
  lemma ScaleWithin(a: real, t: real)
    ensures a >= 0.0 && 0.0 <= t <= 1.0 ==> 0.0 <= a * t <= a
    ensures a > 0.0 && 0.0 < t ==> 0.0 < a * t
  {
    if a >= 0.0 && 0.0 <= t <= 1.0 {
      assert a - a * t == a * (1.0 - t);
    }
  }

  /** As time passes a rebound from the right only moves toward rest. */
  lemma ReboundNonIncreasing(from: real, e1: real, e2: real)
    requires from >= 0.0 && 0.0 <= e1 <= e2
    ensures 0.0 <= ReboundOffset(from, e2) <= ReboundOffset(from, e1)
  {
    if e2 < REBOUND_DURATION {
      ReboundExpanded(from, e1);
      ReboundExpanded(from, e2);
      ScaleMonotone(from, e1, e2);
    }
  }

  /** Before the duration is over, the rebound offset multiplied out. */
  lemma ReboundExpanded(from: real, elapsed: real)
    requires elapsed < REBOUND_DURATION
    ensures ReboundOffset(from, elapsed) == from - from * elapsed / REBOUND_DURATION
  {
  }

  /**
   The rebound is linear: before the duration is over it loses
   `from / REBOUND_DURATION` for every millisecond, whatever the readings.
   */
  lemma ReboundLinear(from: real, e1: real, e2: real)
    ensures 0.0 <= e1 <= e2 < REBOUND_DURATION ==>
              ReboundOffset(from, e1) - ReboundOffset(from, e2) == from * (e2 - e1) / REBOUND_DURATION
  {
    if 0.0 <= e1 <= e2 < REBOUND_DURATION {
      ReboundExpanded(from, e1);
      ReboundExpanded(from, e2);
      assert from * e2 - from * e1 == from * (e2 - e1);
    }
  }

  /** Scaling a non-negative value keeps the order of the factors. */
  lemma ScaleMonotone(a: real, t1: real, t2: real)
    requires a >= 0.0 && t1 <= t2
    ensures a * t1 / REBOUND_DURATION <= a * t2 / REBOUND_DURATION
  {
    assert a * t2 - a * t1 == a * (t2 - t1);
  }

  /** One running rebound: where it started and when. */
  datatype ReboundChain = ReboundChain(from: real, startTime: real)

  /** What the rebound callbacks of one frame leave behind: the offset, the flag and the chains still running. */
  datatype ReboundFrame = ReboundFrame(offset: real, rebounding: bool, live: seq<ReboundChain>)

  /** The chains, in request order, whose duration is not over at time `now`. */
  function Survivors(chains: seq<ReboundChain>, now: real): (s: seq<ReboundChain>)
    ensures |s| <= |chains|
    // every chain whose duration is not over re-requests itself
    ensures forall k :: 0 <= k < |chains| && now - chains[k].startTime < REBOUND_DURATION ==> chains[k] in s
    // when none has finished, all of them run on, in the same order
    ensures |s| == |chains| ==> s == chains
    decreases |chains|
  {
    if chains == [] then []
    else
      var before, last := chains[..|chains| - 1], chains[|chains| - 1];
      assert chains == before + [last];
      if now - last.startTime < REBOUND_DURATION then Survivors(before, now) + [last]
      else Survivors(before, now)
  }

  /** Only chains that were running and whose duration is not over survive a frame. */
  lemma {:induction false} SurvivorsStillRunning(chains: seq<ReboundChain>, now: real)
    ensures forall c :: c in Survivors(chains, now) ==> c in chains && now - c.startTime < REBOUND_DURATION
    decreases |chains|
  {
    if chains != [] {
      var before, last := chains[..|chains| - 1], chains[|chains| - 1];
      assert chains == before + [last];
      SurvivorsStillRunning(before, now);
    }
  }

  /**
   One rebound callback at time `now` after the earlier callbacks of the
   frame left `f`: before the duration is over it writes its interpolated
   offset and re-requests itself; after it, it writes rest, clears the flag
   and stops.
   */
  function ReboundStep(f: ReboundFrame, c: ReboundChain, now: real): (r: ReboundFrame)
    ensures r.live == f.live || r.live == f.live + [c]
    // the callback re-requests itself exactly while its duration is not over
    ensures |r.live| == |f.live| + 1 <==> now - c.startTime < REBOUND_DURATION
    // it never raises the flag, and lowers it exactly when it finishes
    ensures r.rebounding <==> f.rebounding && now - c.startTime < REBOUND_DURATION
    // a rebound from the right that has started leaves the strip at or right of rest
    ensures c.from >= 0.0 && c.startTime <= now ==> r.offset >= 0.0
  {
    var elapsed := now - c.startTime;
    if elapsed < REBOUND_DURATION then ReboundFrame(ReboundOffset(c.from, elapsed), f.rebounding, f.live + [c])
    else ReboundFrame(0.0, false, f.live)
  }

  /**
   All rebound callbacks of one frame at time `now`, in the order they were
   requested, starting from `offset` and the flag `rebounding`.
   */
  function ReboundPass(offset: real, rebounding: bool, chains: seq<ReboundChain>, now: real): (r: ReboundFrame)
    ensures r.live == Survivors(chains, now)
    // the flag stays up exactly when it was up and no chain has finished
    ensures r.rebounding <==> rebounding && forall k :: 0 <= k < |chains| ==> now - chains[k].startTime < REBOUND_DURATION
    // the last callback's write is the one that stays
    ensures chains == [] ==> r.offset == offset
    ensures chains != [] ==>
              var last := chains[|chains| - 1];
              r.offset == if now - last.startTime < REBOUND_DURATION then ReboundOffset(last.from, now - last.startTime) else 0.0
    decreases |chains|
  {
    if chains == [] then ReboundFrame(offset, rebounding, [])
    else
      var before, last := chains[..|chains| - 1], chains[|chains| - 1];
      assert chains == before + [last];
      ReboundStep(ReboundPass(offset, rebounding, before, now), last, now)
  }

  /** A pass over rebounds from the right that have all started leaves the strip at or right of rest. */
  lemma {:induction false} ReboundPassRightOfRest(offset: real, rebounding: bool, chains: seq<ReboundChain>, now: real)
    requires forall c :: c in chains ==> c.from >= 0.0 && c.startTime <= now
    requires chains != [] || offset >= 0.0
    ensures ReboundPass(offset, rebounding, chains, now).offset >= 0.0
    decreases |chains|
  {
    if chains != [] {
      assert chains[|chains| - 1] in chains;
    }
  }

  /** A pass over a single chain is that chain's callback alone. */
  lemma ReboundPassOne(offset: real, rebounding: bool, c: ReboundChain, now: real)
    ensures var r := ReboundPass(offset, rebounding, [c], now);
            if now - c.startTime < REBOUND_DURATION then
              r == ReboundFrame(ReboundOffset(c.from, now - c.startTime), rebounding, [c])
            else r == ReboundFrame(0.0, false, [])
  {
    assert [c][..0] == [];
  }

  /**
   One frame of a lone rebound from the right at time `now`, from the
   state the previous frame (at `before`, when `later`) left: the chain
   either runs on with its interpolated offset or is done and the strip is
   at rest, and the strip never moves away from rest.
   */
  lemma LoneReboundFrame(offset: real, rebounding: bool, chains: seq<ReboundChain>, c: ReboundChain, later: bool, before: real, now: real)
    requires chains == [c] || chains == []
    requires c.from > 0.0 && c.startTime <= now
    requires chains == [] ==> offset == 0.0 && !rebounding
    requires chains == [c] && later ==>
               c.startTime <= before <= now && before - c.startTime < REBOUND_DURATION && offset == ReboundOffset(c.from, before - c.startTime)
    ensures var r := ReboundPass(offset, rebounding, chains, now);
            (r.live == [c] || r.live == []) &&
            (r.live == [c] ==> now - c.startTime < REBOUND_DURATION && r.offset == ReboundOffset(c.from, now - c.startTime)) &&
            (r.live == [] ==> r.offset == 0.0 && !r.rebounding) &&
            0.0 <= r.offset <= c.from &&
            (later || chains == [] ==> r.offset <= offset)
  {
    if chains == [c] {
      ReboundPassOne(offset, rebounding, c, now);
      if later && now - c.startTime < REBOUND_DURATION {
        ReboundNonIncreasing(c.from, before - c.startTime, now - c.startTime);
      }
    }
  }

  /** A pass over one more chain is the pass over the others followed by that chain's callback. */
  lemma ReboundPassStep(offset: real, rebounding: bool, chains: seq<ReboundChain>, c: ReboundChain, now: real)
    ensures ReboundPass(offset, rebounding, chains + [c], now) == ReboundStep(ReboundPass(offset, rebounding, chains, now), c, now)
  {
    assert (chains + [c])[..|chains|] == chains;
  }

  /** The same step, read on the prefixes of one list of chains. */
  lemma ReboundPassPrefix(offset: real, rebounding: bool, chains: seq<ReboundChain>, i: nat, now: real)
    requires i < |chains|
    ensures ReboundPass(offset, rebounding, chains[..i + 1], now) == ReboundStep(ReboundPass(offset, rebounding, chains[..i], now), chains[i], now)
  {
    assert chains[..i + 1] == chains[..i] + [chains[i]];
    ReboundPassStep(offset, rebounding, chains[..i], chains[i], now);
  }

  // -------------------------------------------------------------- scheduler

  /**
   The scroll scheduler's bookkeeping: every outstanding frame request is
   the one the handle names (0 means none was ever requested), and handles
   are issued in increasing order.
   */
  predicate SingleRequest(pending: set<nat>, handle: nat, next: nat) {
    pending <= {handle} && 0 !in pending && handle < next
  }

  /** So at most one scroll frame is ever outstanding. */
  lemma AtMostOneOutstanding(pending: set<nat>, handle: nat, next: nat)
    requires SingleRequest(pending, handle, next)
    ensures |pending| <= 1
    ensures pending != {} ==> pending == {handle}
  {
    if pending != {} {
      var h :| h in pending;
      assert h == handle;
      assert pending == {handle};
    }
  }
}
