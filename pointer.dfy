/**
 * The cursor tracker and the blur/glow compositor's rate limits: a throttled
 * pointer target, two eased tracks (the fast one drives the blur masks, the
 * slow one the ambient glow), idle detection after two seconds without
 * movement, and the timestamp guards of the mask and glow updates.
 * `Date.now()` is the parameter `now` (milliseconds).
 */
module Pointer {
  import opened Wrappers
  import opened Easing
  import opened Layout

  const MaskUpdateInterval: int := 16
  const GlowUpdateInterval: int := 32
  const MouseThrottle: int := 16
  const IdleTimeout: int := 2000
  const IdleSpeed: real := 0.5

  /** Easing factors of the fast (blur mask) and slow (glow) tracks. */
  function TrackFactor(idle: bool): real {
    if idle then 0.1 else 0.08
  }

  function GlowFactor(idle: bool): real {
    if idle then 0.08 else 0.07
  }

  /** The two blur layers' fixed radii, in pixels. */
  datatype BlurLayer = BlurLayer(blur: int, innerClear: int, outerFade: int)

  const BlurLayers: seq<BlurLayer> := [BlurLayer(8, 100, 250), BlurLayer(24, 200, 500)]

  /** A timestamp guard lets a call through when at least `interval` ms passed since the last one it let through. */
  predicate Admits(now: int, last: int, interval: int) {
    now - last >= interval
  }

  /** Which of a run of calls at the given times one guard lets through, starting from `last`. */
  function AdmittedCalls(last: int, interval: int, times: seq<int>): (r: seq<bool>)
    ensures |r| == |times|
    ensures |times| > 0 ==> r[0] == Admits(times[0], last, interval)
    decreases |times|
  {
    if times == [] then []
    else
      var ok := Admits(times[0], last, interval);
      [ok] + AdmittedCalls(if ok then times[0] else last, interval, times[1..])
  }

  /**
   * Rate limit: of any number of calls whose times lie within one interval
   * [s, s + interval), at most one gets through, after a call through at or
   * after s.
   */
  lemma {:induction false} AtMostOnePerInterval(last: int, interval: int, times: seq<int>, s: int)
    requires interval > 0
    requires last >= s
    requires forall i :: 0 <= i < |times| ==> s <= times[i] < s + interval
    ensures forall i :: 0 <= i < |times| ==> !AdmittedCalls(last, interval, times)[i]
  {
    if times != [] {
      AtMostOnePerInterval(last, interval, times[1..], s);
      var r := AdmittedCalls(last, interval, times);
      assert r[1..] == AdmittedCalls(last, interval, times[1..]);
    }
  }

  /**
   * A burst of calls within one interval after a quiet period: exactly the
   * first gets through.
   */
  lemma ExactlyFirstOfBurst(last: int, interval: int, times: seq<int>)
    requires interval > 0 && |times| > 0
    requires Admits(times[0], last, interval)
    requires forall i :: 0 <= i < |times| ==> times[0] <= times[i] < times[0] + interval
    ensures AdmittedCalls(last, interval, times)[0]
    ensures forall i :: 1 <= i < |times| ==> !AdmittedCalls(last, interval, times)[i]
  {
    var rest := times[1..];
    forall i | 0 <= i < |rest| ensures times[0] <= rest[i] < times[0] + interval {
      assert rest[i] == times[i + 1];
    }
    AtMostOnePerInterval(times[0], interval, rest, times[0]);
    var r := AdmittedCalls(last, interval, times);
    assert r[1..] == AdmittedCalls(times[0], interval, rest);
  }

  /** The mask one blur layer gets: clear inside innerClear px of the centre, opaque from outerFade px. */
  datatype RadialMask = RadialMask(center: Point, innerClear: int, outerFade: int)

  /** The masks of all blur layers, in layer order, centred on p. */
  function MasksAt(p: Point): (ms: seq<RadialMask>)
    ensures |ms| == |BlurLayers|
    ensures forall i :: 0 <= i < |ms| ==>
      ms[i] == RadialMask(p, BlurLayers[i].innerClear, BlurLayers[i].outerFade)
  {
    seq(|BlurLayers|, i requires 0 <= i < |BlurLayers| =>
      RadialMask(p, BlurLayers[i].innerClear, BlurLayers[i].outerFade))
  }

  /** The glow centre as percentages of the viewport. */
  function GlowPercent(x: real, y: real, innerWidth: real, innerHeight: real): (p: Point)
    requires innerWidth > 0.0 && innerHeight > 0.0
    ensures 0.0 <= x <= innerWidth ==> 0.0 <= p.x <= 100.0
    ensures 0.0 <= y <= innerHeight ==> 0.0 <= p.y <= 100.0
  {
    PercentWithin(x, innerWidth);
    PercentWithin(y, innerHeight);
    Point((x / innerWidth) * 100.0, (y / innerHeight) * 100.0)
  }

  lemma PercentWithin(v: real, total: real)
    requires total > 0.0
    ensures 0.0 <= v <= total ==> 0.0 <= (v / total) * 100.0 <= 100.0
  {
    if 0.0 <= v <= total {
      assert v / total <= 1.0;
    }
  }

  class Tracker {
    var currentX: real
    var currentY: real
    var targetX: real
    var targetY: real
    var glowX: real
    var glowY: real
    var lastMouseMove: int
    /** Advanced while idle and never read. */
    var idleRotation: real
    var isIdle: bool
    var lastMaskUpdate: int
    var lastGlowUpdate: int
    var lastMouseEvent: int
    /** The masks last written to the blur layers; empty before the first write. */
    var masks: seq<RadialMask>
    /** The glow gradient's centre, in viewport percent, once written. */
    var glowCenter: Option<Point>
    /** Whether the glow element exists. */
    const glowPresent: bool
    const innerWidth: real
    const innerHeight: real

    ghost predicate Valid()
      reads this
    {
      innerWidth > 0.0 && innerHeight > 0.0
    }

    /**
     * Start-up: every track at the viewport's centre and all timestamps 0,
     * then the first mask and glow updates at the centre.
     */
    constructor (innerWidth: real, innerHeight: real, now: int, glowPresent: bool)
      requires innerWidth > 0.0 && innerHeight > 0.0
      ensures Valid()
      ensures this.innerWidth == innerWidth && this.innerHeight == innerHeight
      ensures currentX == targetX == glowX == innerWidth / 2.0
      ensures currentY == targetY == glowY == innerHeight / 2.0
      ensures lastMouseMove == now && idleRotation == 0.0 && !isIdle && lastMouseEvent == 0
      ensures Admits(now, 0, MaskUpdateInterval) ==>
        lastMaskUpdate == now && masks == MasksAt(Point(currentX, currentY))
      ensures !Admits(now, 0, MaskUpdateInterval) ==> lastMaskUpdate == 0 && masks == []
      ensures Admits(now, 0, GlowUpdateInterval) && glowPresent ==>
        lastGlowUpdate == now && glowCenter == Some(GlowPercent(glowX, glowY, innerWidth, innerHeight))
      ensures !(Admits(now, 0, GlowUpdateInterval) && glowPresent) ==> lastGlowUpdate == 0 && glowCenter == None
      ensures this.glowPresent == glowPresent
    {
      this.innerWidth, this.innerHeight := innerWidth, innerHeight;
      currentX, currentY := innerWidth / 2.0, innerHeight / 2.0;
      targetX, targetY := innerWidth / 2.0, innerHeight / 2.0;
      glowX, glowY := innerWidth / 2.0, innerHeight / 2.0;
      lastMouseMove := now;
      idleRotation := 0.0;
      isIdle := false;
      lastMaskUpdate, lastGlowUpdate, lastMouseEvent := 0, 0, 0;
      masks, glowCenter := [], None;
      this.glowPresent := glowPresent;
      new;
      UpdateRadialMasks(currentX, currentY, now);
      UpdateBackgroundGlow(glowX, glowY, now);
    }

    /**
     * Recompute the blur masks around (x, y), at most once per 16 ms: one
     * mask per layer, from that layer's clear and fade radii.
     */
    method UpdateRadialMasks(x: real, y: real, now: int)
      modifies this`lastMaskUpdate, this`masks
      ensures Admits(now, old(lastMaskUpdate), MaskUpdateInterval) ==>
        lastMaskUpdate == now && masks == MasksAt(Point(x, y))
      ensures !Admits(now, old(lastMaskUpdate), MaskUpdateInterval) ==>
        lastMaskUpdate == old(lastMaskUpdate) && masks == old(masks)
    {
      if now - lastMaskUpdate < MaskUpdateInterval {
        return;
      }
      lastMaskUpdate := now;
      var written: seq<RadialMask> := [];
      var i := 0;
      while i < |BlurLayers|
        invariant 0 <= i <= |BlurLayers|
        invariant written == MasksAt(Point(x, y))[..i]
      {
        var layer := BlurLayers[i];
        written := written + [RadialMask(Point(x, y), layer.innerClear, layer.outerFade)];
        i := i + 1;
      }
      masks := written;
    }

    /** Move the glow to (x, y), at most once per 32 ms and only if the element exists. */
    method UpdateBackgroundGlow(x: real, y: real, now: int)
      requires Valid()
      modifies this`lastGlowUpdate, this`glowCenter
      ensures Admits(now, old(lastGlowUpdate), GlowUpdateInterval) && glowPresent ==>
        lastGlowUpdate == now && glowCenter == Some(GlowPercent(x, y, innerWidth, innerHeight))
      ensures !(Admits(now, old(lastGlowUpdate), GlowUpdateInterval) && glowPresent) ==>
        lastGlowUpdate == old(lastGlowUpdate) && glowCenter == old(glowCenter)
    {
      if now - lastGlowUpdate < GlowUpdateInterval || !glowPresent {
        return;
      }
      lastGlowUpdate := now;
      var xPercent := (x / innerWidth) * 100.0;
      var yPercent := (y / innerHeight) * 100.0;
      glowCenter := Some(Point(xPercent, yPercent));
    }

    /** The throttled document mousemove: a new target, a fresh movement time, not idle. */
    method OnMouseMove(clientX: real, clientY: real, now: int)
      modifies this`lastMouseEvent, this`targetX, this`targetY, this`lastMouseMove, this`isIdle
      ensures Admits(now, old(lastMouseEvent), MouseThrottle) ==>
        lastMouseEvent == now && targetX == clientX && targetY == clientY &&
        lastMouseMove == now && !isIdle
      ensures !Admits(now, old(lastMouseEvent), MouseThrottle) ==>
        lastMouseEvent == old(lastMouseEvent) && targetX == old(targetX) && targetY == old(targetY) &&
        lastMouseMove == old(lastMouseMove) && isIdle == old(isIdle)
    {
      if now - lastMouseEvent < MouseThrottle {
        return;
      }
      lastMouseEvent := now;
      targetX := clientX;
      targetY := clientY;
      lastMouseMove := now;
      isIdle := false;
    }

    /**
     * One animation frame: enter idle after more than two seconds without
     * movement, advance the unused idle angle, ease both tracks toward the
     * last real target, then offer the new positions to the two guarded updates.
     */
    method Animate(now: int)
      requires Valid()
      modifies this`isIdle, this`idleRotation, this`currentX, this`currentY, this`glowX, this`glowY,
        this`lastMaskUpdate, this`masks, this`lastGlowUpdate, this`glowCenter
      ensures isIdle == (old(isIdle) || now - lastMouseMove > IdleTimeout)
      ensures idleRotation == old(idleRotation) + (if isIdle then IdleSpeed else 0.0)
      ensures currentX == Ease(old(currentX), targetX, TrackFactor(isIdle))
      ensures currentY == Ease(old(currentY), targetY, TrackFactor(isIdle))
      ensures glowX == Ease(old(glowX), targetX, GlowFactor(isIdle))
      ensures glowY == Ease(old(glowY), targetY, GlowFactor(isIdle))
      ensures Admits(now, old(lastMaskUpdate), MaskUpdateInterval) ==>
        lastMaskUpdate == now && masks == MasksAt(Point(currentX, currentY))
      ensures !Admits(now, old(lastMaskUpdate), MaskUpdateInterval) ==>
        lastMaskUpdate == old(lastMaskUpdate) && masks == old(masks)
      ensures Admits(now, old(lastGlowUpdate), GlowUpdateInterval) && glowPresent ==>
        lastGlowUpdate == now && glowCenter == Some(GlowPercent(glowX, glowY, innerWidth, innerHeight))
      ensures !(Admits(now, old(lastGlowUpdate), GlowUpdateInterval) && glowPresent) ==>
        lastGlowUpdate == old(lastGlowUpdate) && glowCenter == old(glowCenter)
    {
      var timeSinceMove := now - lastMouseMove;
      if timeSinceMove > IdleTimeout && !isIdle {
        isIdle := true;
      }
      if isIdle {
        idleRotation := idleRotation + IdleSpeed;
      }
      var lerpFactor := if isIdle then 0.1 else 0.08;
      var glowLerpFactor := if isIdle then 0.08 else 0.07;
      currentX := currentX + (targetX - currentX) * lerpFactor;
      currentY := currentY + (targetY - currentY) * lerpFactor;
      glowX := glowX + (targetX - glowX) * glowLerpFactor;
      glowY := glowY + (targetY - glowY) * glowLerpFactor;
      UpdateRadialMasks(currentX, currentY, now);
      UpdateBackgroundGlow(glowX, glowY, now);
    }
  }

  /**
   * Offer the mask update a run of calls at the given times, noting which
   * ones moved the tracker's last-update stamp: those are exactly the calls
   * the guard model admits.
   */
  method ReplayMaskUpdates(t: Tracker, times: seq<int>, p: Point) returns (admitted: seq<bool>)
    modifies t`lastMaskUpdate, t`masks
    ensures admitted == AdmittedCalls(old(t.lastMaskUpdate), MaskUpdateInterval, times)
  {
    admitted := [];
    var i := 0;
    while i < |times|
      invariant 0 <= i <= |times|
      invariant admitted + AdmittedCalls(t.lastMaskUpdate, MaskUpdateInterval, times[i..]) ==
        AdmittedCalls(old(t.lastMaskUpdate), MaskUpdateInterval, times)
    {
      var before := t.lastMaskUpdate;
      assert times[i..][1..] == times[i + 1..];
      t.UpdateRadialMasks(p.x, p.y, times[i]);
      var due := t.lastMaskUpdate != before;
      admitted := admitted + [due];
      i := i + 1;
    }
  }

  /**
   * A thousand frames inside one 16 ms window after a recompute: the mask is
   * not recomputed again.
   */
  method MaskBurstScenario(innerWidth: real, innerHeight: real, start: int) returns (updatedAt: int)
    requires innerWidth > 0.0 && innerHeight > 0.0 && start >= MaskUpdateInterval
    ensures updatedAt == start
  {
    var t := new Tracker(innerWidth, innerHeight, start, true);
    var i := 0;
    while i < 1000
      invariant 0 <= i <= 1000 && t.lastMaskUpdate == start
    {
      t.UpdateRadialMasks(i as real, i as real, start + i % MaskUpdateInterval);
      i := i + 1;
    }
    updatedAt := t.lastMaskUpdate;
  }
}
