/**
 * The shader's frame loop as far as it computes values: the pointer read off
 * the canvas, the eased pointer and slowdown factor, and the uniforms handed
 * to the fragment shader each frame.
 */
module Renderer {
  import opened Easing
  import opened Layout
  import opened TimeModel
  import opened Slowdown

  const PointerEase: real := 0.02

  /** What one frame passes to the shader (its resolution is left out). */
  datatype Uniforms = Uniforms(time: real, mouse: Point, timeOfDay: real)

  /** Elapsed seconds since start-up, from millisecond timestamps. */
  function ElapsedSeconds(start: int, now: int): (t: real)
    ensures now >= start ==> t >= 0.0
    ensures t * 1000.0 == (now - start) as real
  {
    (now - start) as real / 1000.0
  }

  class ShaderFeed {
    var mouseX: real
    var mouseY: real
    var currentMouseX: real
    var currentMouseY: real
    const startTime: int

    constructor (now: int)
      ensures mouseX == mouseY == currentMouseX == currentMouseY == 300.0
      ensures startTime == now
    {
      mouseX, mouseY := 300.0, 300.0;
      currentMouseX, currentMouseY := 300.0, 300.0;
      startTime := now;
    }

    /** The canvas mousemove: the pointer in the canvas's own coordinates. */
    method OnCanvasMouseMove(clientX: real, clientY: real, rect: Rect)
      modifies this`mouseX, this`mouseY
      ensures mouseX == clientX - rect.left && mouseY == clientY - rect.top
    {
      mouseX := clientX - rect.left;
      mouseY := clientY - rect.top;
    }

    /**
     * One frame: ease the pointer (factor 0.02) and the slowdown (0.05),
     * then produce the uniforms: elapsed seconds, the eased pointer and the
     * hour of the time source.
     */
    method Render(motion: MotionState, clock: TimeModel.Clock, time: TimeState, now: int) returns (u: Uniforms)
      requires motion.Valid()
      modifies this`currentMouseX, this`currentMouseY, motion`currentSlowdown
      ensures motion.Valid()
      ensures currentMouseX == Ease(old(currentMouseX), mouseX, PointerEase)
      ensures currentMouseY == Ease(old(currentMouseY), mouseY, PointerEase)
      ensures motion.currentSlowdown == Ease(old(motion.currentSlowdown), motion.targetSlowdown, SlowdownEase)
      ensures u.time == ElapsedSeconds(startTime, now)
      ensures u.mouse == Point(currentMouseX, currentMouseY)
      ensures u.timeOfDay == HourSource(time.mode, time.manualHour, clock)
    {
      currentMouseX := currentMouseX + (mouseX - currentMouseX) * PointerEase;
      currentMouseY := currentMouseY + (mouseY - currentMouseY) * PointerEase;
      motion.EaseStep();
      var t := (now - startTime) as real / 1000.0;
      var currentTimeOfDay := time.ShaderHour(clock);
      u := Uniforms(t, Point(currentMouseX, currentMouseY), currentTimeOfDay);
    }
  }
}
