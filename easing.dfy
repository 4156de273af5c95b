/**
 * Exponential smoothing `v += (target - v) * f`, the one update rule behind
 * the slowdown factor, the shader's pointer and both cursor tracks.
 */
module Easing {

  function Abs(x: real): real {
    if x < 0.0 then -x else x
  }

  /** One smoothing step with factor f. */
  function Ease(v: real, target: real, f: real): (r: real)
    requires 0.0 <= f <= 1.0
    ensures (v <= r <= target) || (target <= r <= v)
    ensures target - r == (1.0 - f) * (target - v)
    ensures Abs(target - r) == (1.0 - f) * Abs(target - v)
    ensures Abs(r - v) == f * Abs(target - v)
  {
    var d := target - v;
    var s := d * f;
    FractionOfGap(d, f);
    assert target - (v + s) == d - s;
    assert (v + s) - v == s;
    v + s
  }

  /** A fraction f in [0, 1] of d lies between 0 and d. */
  lemma FractionOfGap(d: real, f: real)
    requires 0.0 <= f <= 1.0
    ensures d >= 0.0 ==> 0.0 <= d * f <= d
    ensures d < 0.0 ==> d <= d * f <= 0.0
    ensures Abs(d * f) == f * Abs(d)
    ensures d - d * f == (1.0 - f) * d
    ensures Abs(d - d * f) == (1.0 - f) * Abs(d)
  {
    if d >= 0.0 {
      assert d - d * f == d * (1.0 - f);
    } else {
      assert d * f - d == -d * (1.0 - f);
    }
  }

  /**
   * n smoothing steps toward a fixed target, each written out as the frame
   * loops write it (EaseNIsRepeatedEase: each is one Ease).
   */
  function EaseN(v: real, target: real, f: real, n: nat): real
    requires 0.0 <= f <= 1.0
  {
    if n == 0 then v
    else
      var x := EaseN(v, target, f, n - 1);
      x + (target - x) * f
  }

  /** Step n of EaseN is one Ease from step n - 1. */
  lemma EaseNIsRepeatedEase(v: real, target: real, f: real, n: nat)
    requires 0.0 <= f <= 1.0 && n > 0
    ensures EaseN(v, target, f, n) == Ease(EaseN(v, target, f, n - 1), target, f)
  {
  }

  /** Repeated steps stay between the start and the target: no overshoot. */
  lemma {:induction false} EaseNBetween(v: real, target: real, f: real, n: nat)
    requires 0.0 <= f <= 1.0
    ensures v <= target ==> v <= EaseN(v, target, f, n) <= target
    ensures target <= v ==> target <= EaseN(v, target, f, n) <= v
    decreases n
  {
    if n > 0 {
      EaseNBetween(v, target, f, n - 1);
      var x := EaseN(v, target, f, n - 1);
      if v <= target {
        StepUp(x, target, f, EaseN(v, target, f, n));
      }
      if target <= v {
        StepDown(x, target, f, EaseN(v, target, f, n));
      }
    }
  }

  /** The gap left after n steps from a gap g0: n times a (1 - f) share of it. */
  function GapAfter(g0: real, f: real, n: nat): real {
    if n == 0 then g0 else (1.0 - f) * GapAfter(g0, f, n - 1)
  }

  /** The distance to the target after n steps is exactly GapAfter of the first distance. */
  lemma {:induction false} EaseNGap(v: real, target: real, f: real, n: nat)
    requires 0.0 <= f <= 1.0
    ensures Abs(target - EaseN(v, target, f, n)) == GapAfter(Abs(target - v), f, n)
    decreases n
  {
    if n > 0 {
      EaseNGap(v, target, f, n - 1);
      GapStep(EaseN(v, target, f, n - 1), target, f, GapAfter(Abs(target - v), f, n - 1),
        EaseN(v, target, f, n), GapAfter(Abs(target - v), f, n));
    }
  }

  /** One step up from x toward a target above it stays between the two. */
  lemma StepUp(x: real, target: real, f: real, y: real)
    requires 0.0 <= f <= 1.0 && x <= target && y == x + (target - x) * f
    ensures x <= y <= target
  {
    var d, g := target - x, 1.0 - f;
    NonNegProduct(d, f);
    NonNegProduct(d, g);
    assert y == x + d * f;
    assert d - d * f == d * g;
  }

  /** One step down from x toward a target below it stays between the two. */
  lemma StepDown(x: real, target: real, f: real, y: real)
    requires 0.0 <= f <= 1.0 && target <= x && y == x + (target - x) * f
    ensures target <= y <= x
  {
    var d, g := x - target, 1.0 - f;
    NonNegProduct(d, f);
    NonNegProduct(d, g);
    assert y == x - d * f;
    assert d - d * f == d * g;
  }

  /** One step from a point at distance g from the target leaves (1 - f) g. */
  lemma GapStep(x: real, target: real, f: real, g: real, y: real, h: real)
    requires 0.0 <= f <= 1.0 && Abs(target - x) == g
    requires y == x + (target - x) * f && h == (1.0 - f) * g
    ensures Abs(target - y) == h
  {
    var d := target - x;
    FractionOfGap(d, f);
    assert target - y == d - d * f;
  }

  /** (1 - f)^n g0 (1 + n f) <= g0: Bernoulli's inequality, one step at a time. */
  lemma {:induction false} GapAfterBound(g0: real, f: real, n: nat)
    requires 0.0 <= f <= 1.0 && g0 >= 0.0
    ensures GapAfter(g0, f, n) >= 0.0
    ensures GapAfter(g0, f, n) * (1.0 + n as real * f) <= g0
  {
    if n > 0 {
      GapAfterBound(g0, f, n - 1);
      var prev := GapAfter(g0, f, n - 1);
      NonNegProduct(1.0 - f, prev);
      StepBound(prev, GapAfter(g0, f, n), f, (n - 1) as real, n as real);
    } else {
      assert n as real * f == 0.0;
    }
  }

  /**
   * Convergence: after n steps the gap is at most the first gap divided by
   * 1 + n f, so it falls below any epsilon > 0 once n f exceeds the first gap
   * over epsilon.
   */
  lemma EaseConverges(v: real, target: real, f: real, n: nat)
    requires 0.0 <= f <= 1.0
    ensures Abs(target - EaseN(v, target, f, n)) * (1.0 + n as real * f) <= Abs(target - v)
  {
    EaseNGap(v, target, f, n);
    GapAfterBound(Abs(target - v), f, n);
  }

  /** One step shrinks the gap by 1 - f, which pays for one more f in the bound. */
  lemma StepBound(g0: real, g1: real, f: real, m: real, m1: real)
    requires 0.0 <= f <= 1.0 && m >= 0.0 && g0 >= 0.0 && m1 == m + 1.0
    requires g1 == (1.0 - f) * g0
    ensures g1 * (1.0 + m1 * f) <= g0 * (1.0 + m * f)
  {
    var c := (1.0 - f) * (1.0 + m1 * f);
    assert c == (1.0 + m * f) - m1 * f * f;
    NonNegProduct(m1, f);
    NonNegProduct(m1 * f, f);
    assert g1 * (1.0 + m1 * f) == g0 * c;
    assert g0 * c <= g0 * (1.0 + m * f);
  }

  lemma NonNegProduct(a: real, b: real)
    requires a >= 0.0 && b >= 0.0
    ensures a * b >= 0.0
  {
  }
}
