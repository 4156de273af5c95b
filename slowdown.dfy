/**
 * The motion slowdown state: the search field and the shader canvas set a
 * target, and every render frame eases the current factor toward it. The
 * current factor is computed every frame but no uniform carries it.
 */
module Slowdown {
  import opened Easing

  const TypingSlowdown: real := 0.15
  const HoverSlowdown: real := 0.2
  const NormalSlowdown: real := 1.3
  /** The per-frame easing factor of the current slowdown. */
  const SlowdownEase: real := 0.05

  /** The three values any handler ever writes to the target. */
  predicate IsTarget(x: real) {
    x == TypingSlowdown || x == HoverSlowdown || x == NormalSlowdown
  }

  /** Easing toward any target keeps the factor inside [0.15, 1.3]. */
  lemma EaseStaysInRange(v: real, t: real)
    requires IsTarget(t) && TypingSlowdown <= v <= NormalSlowdown
    ensures TypingSlowdown <= Ease(v, t, SlowdownEase) <= NormalSlowdown
  {
  }

  /**
   * Once typing has set the target, the current factor drops below 0.3 within
   * 140 frames, from anywhere in its range.
   */
  lemma TypingSettles(v: real)
    requires TypingSlowdown <= v <= NormalSlowdown
    ensures TypingSlowdown <= EaseN(v, TypingSlowdown, SlowdownEase, 140) < 0.3
  {
    EaseConverges(v, TypingSlowdown, SlowdownEase, 140);
    EaseNBetween(v, TypingSlowdown, SlowdownEase, 140);
  }

  class MotionState {
    var isTyping: bool
    /** The "typing" class on the container and on the white ring. */
    var typingClass: bool
    var targetSlowdown: real
    var currentSlowdown: real

    ghost predicate Valid()
      reads this
    {
      IsTarget(targetSlowdown) && TypingSlowdown <= currentSlowdown <= NormalSlowdown
    }

    constructor ()
      ensures Valid()
      ensures !isTyping && !typingClass
      ensures targetSlowdown == NormalSlowdown && currentSlowdown == NormalSlowdown
    {
      isTyping := false;
      typingClass := false;
      targetSlowdown := NormalSlowdown;
      currentSlowdown := NormalSlowdown;
    }

    /** Text input: typing exactly when the field is non-empty, and the target follows. */
    method OnInput(value: string)
      requires Valid()
      modifies this`isTyping, this`typingClass, this`targetSlowdown
      ensures Valid()
      ensures isTyping == (|value| > 0) && typingClass == isTyping
      ensures targetSlowdown == if |value| > 0 then TypingSlowdown else NormalSlowdown
    {
      isTyping := |value| > 0;
      if isTyping {
        typingClass := true;
        targetSlowdown := TypingSlowdown;
      } else {
        typingClass := false;
        targetSlowdown := NormalSlowdown;
      }
    }

    /** Leaving the field resets the look only when it is empty; isTyping is not touched. */
    method OnBlur(value: string)
      requires Valid()
      modifies this`typingClass, this`targetSlowdown
      ensures Valid()
      ensures |value| == 0 ==> !typingClass && targetSlowdown == NormalSlowdown
      ensures |value| > 0 ==> typingClass == old(typingClass) && targetSlowdown == old(targetSlowdown)
    {
      if |value| == 0 {
        typingClass := false;
        targetSlowdown := NormalSlowdown;
      }
    }

    /** Focusing a non-empty field restores the typing look; isTyping is not touched. */
    method OnFocus(value: string)
      requires Valid()
      modifies this`typingClass, this`targetSlowdown
      ensures Valid()
      ensures |value| > 0 ==> typingClass && targetSlowdown == TypingSlowdown
      ensures |value| == 0 ==> typingClass == old(typingClass) && targetSlowdown == old(targetSlowdown)
    {
      if |value| > 0 {
        typingClass := true;
        targetSlowdown := TypingSlowdown;
      }
    }

    /** The pointer enters the shader canvas. */
    method OnMouseEnter()
      requires Valid()
      modifies this`targetSlowdown
      ensures Valid() && targetSlowdown == HoverSlowdown
    {
      targetSlowdown := HoverSlowdown;
    }

    /** The pointer leaves the canvas: back to normal unless typing. */
    method OnMouseLeave()
      requires Valid()
      modifies this`targetSlowdown
      ensures Valid()
      ensures targetSlowdown == if isTyping then old(targetSlowdown) else NormalSlowdown
    {
      if !isTyping {
        targetSlowdown := NormalSlowdown;
      }
    }

    /** The render frame's easing of the current factor. */
    method EaseStep()
      requires Valid()
      modifies this`currentSlowdown
      ensures Valid()
      ensures currentSlowdown == Ease(old(currentSlowdown), targetSlowdown, SlowdownEase)
    {
      currentSlowdown := currentSlowdown + (targetSlowdown - currentSlowdown) * SlowdownEase;
    }
  }

  /**
   * Typing then clearing the field and leaving it: non-empty input sets the
   * target 0.15 (from which the factor settles as TypingSettles states); a
   * hover over the canvas while typing leaves the target at 0.2, since leaving
   * the canvas does not restore 0.15; the cleared field's input event
   * restores 1.3, and so does the blur of the empty field even without that
   * event.
   */
  method TypingScenario() returns (typedTarget: real, leftTarget: real, clearedTarget: real, blurredTarget: real)
    ensures typedTarget == TypingSlowdown
    ensures leftTarget == HoverSlowdown
    ensures clearedTarget == NormalSlowdown && blurredTarget == NormalSlowdown
  {
    var m := new MotionState();
    m.OnInput("a");
    typedTarget := m.targetSlowdown;
    m.OnMouseEnter();
    m.OnMouseLeave();
    leftTarget := m.targetSlowdown;
    m.OnInput("");
    clearedTarget := m.targetSlowdown;
    m.OnFocus("a");
    m.OnBlur("");
    blurredTarget := m.targetSlowdown;
  }
}
