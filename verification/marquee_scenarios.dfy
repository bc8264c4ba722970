/**
 Concrete runs of one marquee with the component's defaults: four copies
 of the content and half a pixel per frame. Every run starts from a fresh
 instance and drives it only through its event methods.
 */
module MarqueeScenarios {
  import opened MarqueeRules
  import opened MarqueeTouch

  /** A fresh marquee whose first item measures `width` px, in view, with its scroll loop started. */
  method StartedMarquee(width: real) returns (m: Marquee)
    requires width > 0.0
    ensures fresh(m) && m.Valid()
    ensures m.repeat == 4 && m.speed == 0.5 && m.itemWidth == width + GAP && m.contentWidth == Copies(m.itemWidth, 4)
    ensures m.offset == 0.0 && m.direction == 1 && m.ready && m.Animating() && m.Scheduled()
    ensures m.rebounds == []
  {
    m := new Marquee(4, 0.5);
    m.Intersection([true], Some(width));
  }

  /** With a 106 px boundary at half a pixel per frame, the first 200 frames cover 100 px. */
  lemma FirstHundredPixels(itemWidth: real, speed: real)
    requires itemWidth == 106.0 && speed == 0.5
    ensures Frames(0.0, itemWidth, speed, 1, 200) == -100.0
  {
    FramesFromRestScaled(itemWidth, speed, 200);
  }

  /** With a 106 px boundary at half a pixel per frame, 200 frames cover 100 px and frame 212 is back at rest. */
  lemma DefaultCycle(itemWidth: real, speed: real)
    requires itemWidth == 106.0 && speed == 0.5
    ensures Frames(0.0, itemWidth, speed, 1, 200) == -100.0
    ensures Frames(0.0, itemWidth, speed, 1, 212) == 0.0
  {
    CopiesIsProduct(speed, 211);
    CopiesIsProduct(speed, 212);
    CycleCompletes(itemWidth, speed, 212);
    FirstHundredPixels(itemWidth, speed);
  }

  /** A started marquee with a 100 px first item after `frames` scroll frames. */
  method ScrolledMarquee(frames: nat) returns (m: Marquee)
    ensures fresh(m) && m.Valid()
    ensures m.repeat == 4 && m.speed == 0.5 && m.itemWidth == 106.0 && m.direction == 1
    ensures m.ready && m.Animating() && m.Scheduled() && m.rebounds == []
    ensures m.offset == Frames(0.0, m.itemWidth, m.speed, 1, frames)
  {
    m := StartedMarquee(100.0);
    m.RunFrames(frames, Some(100.0));
  }

  /**
   A first item 100 px wide makes a 106 px wrap boundary, so 200 frames
   move the strip 100 px and the cycle closes only at frame 212.
   */
  method AutonomousCycle() returns (after200: real, after212: real)
    ensures after200 == -100.0 && after212 == 0.0
  {
    var short := ScrolledMarquee(200);
    var full := ScrolledMarquee(212);
    DefaultCycle(short.itemWidth, short.speed);
    after200, after212 := short.offset, full.offset;
  }

  /** Ten frames, then five frames while the page is hidden, then the page shows again. */
  method ShownAgain() returns (m: Marquee, beforeHidden: real, afterHidden: real)
    ensures fresh(m) && m.Valid()
    ensures m.itemWidth == 106.0 && m.speed == 0.5 && m.direction == 1
    ensures m.Animating() && m.Scheduled() && m.offset == afterHidden
    ensures beforeHidden == -5.0 && afterHidden == beforeHidden
  {
    m := ScrolledMarquee(10);
    FramesFromRestScaled(m.itemWidth, m.speed, 10);
    beforeHidden := m.offset;
    m.PageVisibility(true);
    m.RunFrames(5, Some(100.0));
    m.PageVisibility(false);
    afterHidden := m.offset;
  }

  /** Frames while the page is hidden leave the offset alone; the first frame after it continues the scroll. */
  method HiddenPageFreezes() returns (beforeHidden: real, afterHidden: real, resumed: real)
    ensures beforeHidden == -5.0 && afterHidden == beforeHidden && resumed == -5.5
  {
    var m;
    m, beforeHidden, afterHidden := ShownAgain();
    m.Frame(Some(100.0));
    resumed := m.offset;
  }

  /** A 150 px rightward drag on a started 100 px item, released at 1000 ms. */
  method OverDragged() returns (m: Marquee, afterMove: real)
    ensures fresh(m) && m.Valid()
    ensures m.offset == 100.0 && m.isRebounding && m.rebounds == [ReboundChain(100.0, 1000.0)]
    ensures !m.paused && m.inview && !m.isDragging
    ensures afterMove == 100.0
  {
    m := StartedMarquee(94.0);
    m.TouchStart(0.0);
    m.TouchMove(150.0);
    afterMove := m.offset;
    m.TouchEnd(1000.0);
  }

  /**
   A 150 px rightward drag on a 100 px item is held at 100 px, the release
   starts a rebound, which is halfway back after 150 ms and at rest, with
   the gate open again, after 300 ms.
   */
  method DragPastRest() returns (afterMove: real, halfway: real, settled: real, gateOpen: bool)
    ensures afterMove == 100.0 && halfway == 50.0 && settled == 0.0 && gateOpen
  {
    var m;
    m, afterMove := OverDragged();
    var c := ReboundChain(100.0, 1000.0);
    assert m.rebounds == [] + [c];
    ReboundPassStep(100.0, true, [], c, 1150.0);
    m.ReboundTick(1150.0);
    halfway := m.offset;
    ReboundPassStep(50.0, true, [], c, 1300.0);
    m.ReboundTick(1300.0);
    settled := m.offset;
    gateOpen := m.Animating();
  }

  /**
   A 350 px leftward drag on a 100 px item with four copies is released by
   one snap to -250, and the next autonomous frame jumps the strip to rest.
   */
  method LongLeftDrag() returns (released: real, nextFrame: real)
    ensures released == -250.0 && nextFrame == 0.0
  {
    var m := StartedMarquee(94.0);
    assert Copies(100.0, 4) == 400.0;
    m.TouchStart(0.0);
    m.TouchMove(-350.0);
    m.TouchEnd(0.0);
    released := m.offset;
    m.Frame(Some(94.0));
    nextFrame := m.offset;
  }

  /** A 60 px rightward drag on a 100 px item, released at 0 ms. */
  method ReleasedAtSixty() returns (m: Marquee)
    ensures fresh(m) && m.Valid()
    ensures m.itemWidth == 100.0 && m.speed == 0.5 && m.direction == 1
    ensures m.inview && !m.paused && !m.isDragging && m.isRebounding && m.Scheduled()
    ensures m.offset == 60.0 && m.rebounds == [ReboundChain(60.0, 0.0)]
  {
    m := StartedMarquee(94.0);
    m.TouchStart(0.0);
    m.TouchMove(60.0);
    m.TouchEnd(0.0);
  }

  /** A 60 px rightward drag released at 0 ms, then a rebound frame at 100 ms. */
  method ReboundedOnce() returns (m: Marquee)
    ensures fresh(m) && m.Valid()
    ensures m.itemWidth == 100.0 && m.speed == 0.5 && m.direction == 1
    ensures m.inview && !m.paused && !m.isDragging && m.isRebounding && m.Scheduled()
    ensures m.offset == 40.0 && m.rebounds == [ReboundChain(60.0, 0.0)]
  {
    m := ReleasedAtSixty();
    var c := ReboundChain(60.0, 0.0);
    assert m.rebounds == [] + [c];
    ReboundPassStep(60.0, true, [], c, 100.0);
    m.ReboundTick(100.0);
  }

  /**
   A 60 px rightward drag released at 0 ms, a rebound frame at 100 ms
   (40 px), then a 20 px drag released at 100 ms: two rebounds from 60 px run.
   */
  method ReleasedTwice() returns (m: Marquee)
    ensures fresh(m) && m.Valid()
    ensures m.itemWidth == 100.0 && m.speed == 0.5 && m.direction == 1
    ensures m.inview && !m.paused && !m.isDragging && m.isRebounding && m.Scheduled()
    ensures m.offset == 60.0 && m.rebounds == [ReboundChain(60.0, 0.0), ReboundChain(60.0, 100.0)]
  {
    m := ReboundedOnce();
    m.TouchStart(0.0);
    m.TouchMove(20.0);
    m.TouchEnd(100.0);
  }

  /** At 300 ms the first rebound is over: it lowers the flag while the second, halfway done, stays. */
  method FirstReboundOver() returns (m: Marquee)
    ensures fresh(m) && m.Valid()
    ensures m.itemWidth == 100.0 && m.speed == 0.5 && m.direction == 1
    ensures m.Animating() && m.Scheduled()
    ensures m.offset == 20.0 && m.rebounds == [ReboundChain(60.0, 100.0)]
  {
    m := ReleasedTwice();
    var first, second := ReboundChain(60.0, 0.0), ReboundChain(60.0, 100.0);
    assert m.rebounds == [first] + [second];
    ReboundPassStep(60.0, true, [], first, 300.0);
    ReboundPassStep(60.0, true, [first], second, 300.0);
    m.ReboundTick(300.0);
  }

  /** The scroll frame that follows: with the flag down, it advances the strip. */
  method FrameAfterFirstRebound() returns (m: Marquee)
    ensures fresh(m) && m.Valid()
    ensures !m.isRebounding && m.offset == 19.5 && m.rebounds == [ReboundChain(60.0, 100.0)]
  {
    m := FirstReboundOver();
    m.Frame(Some(94.0));
  }

  /**
   A second release during a rebound starts a second rebound beside the
   first. When the first finishes it lowers the flag, so the scroll frame
   advances the strip while the second rebound still overwrites it.
   */
  method OverlappingRebounds() returns (flagDown: bool, stillRunning: nat, afterFrame: real, afterRebound: real)
    ensures flagDown && stillRunning == 1 && afterFrame == 19.5 && afterRebound == 10.0
  {
    var m := FrameAfterFirstRebound();
    flagDown := !m.isRebounding;
    stillRunning := |m.rebounds|;
    afterFrame := m.offset;
    var second := ReboundChain(60.0, 100.0);
    assert m.rebounds == [] + [second];
    ReboundPassStep(19.5, false, [], second, 350.0);
    m.ReboundTick(350.0);
    afterRebound := m.offset;
  }
}
