/**
 * The time-of-day colour table and the two ways the page reads it: the
 * background lookup (a last-match scan with a hard swap half an hour after a
 * keyframe) and the active-segment test of the gradient preview strip.
 */
module Gradients {
  import opened Wrappers
  import opened JsNumber

  /** One anchor of the colour table: an hour of the day and a CSS gradient. */
  datatype Keyframe = Keyframe(hour: int, gradient: string)

  /** The fixed keyframe table, in the page's order. */
  const TimeGradients: seq<Keyframe> := [
    Keyframe(0, "linear-gradient(to bottom,#001a33 0%,#002244 30%,#003355 60%,#004466 100%)"),
    Keyframe(2, "linear-gradient(to bottom,#002244 0%,#002855 30%,#003366 60%,#003d77 100%)"),
    Keyframe(4, "linear-gradient(to bottom,#1a2855 0%,#2d3366 30%,#4d4488 60%,#6d5599 100%)"),
    Keyframe(5, "linear-gradient(to bottom,#6d5599 0%,#8d66aa 30%,#aa77bb 60%,#cc88cc 100%)"),
    Keyframe(6, "linear-gradient(to bottom,#dd99bb 0%,#ee9988 30%,#ff9966 60%,#ff8855 100%)"),
    Keyframe(8, "linear-gradient(to bottom,#FF8B5A 0%,#FFA570 30%,#FFBE86 60%,#FFD79C 100%)"),
    Keyframe(10, "linear-gradient(to bottom,#FFD89A 0%,#FFE4AA 30%,#FFF0BB 60%,#FFF8CC 100%)"),
    Keyframe(12, "linear-gradient(to bottom,#FFFADD 0%,#A8D8FF 40%,#6BB8FF 70%,#4A9FEE 100%)"),
    Keyframe(14, "linear-gradient(to bottom,#FFEBB0 0%,#FFD8A0 30%,#FFC890 60%,#FFB880 100%)"),
    Keyframe(16, "linear-gradient(to bottom,#FFB880 0%,#FFA870 30%,#FF9860 60%,#FF8850 100%)"),
    Keyframe(18, "linear-gradient(to bottom,#FF7850 0%,#FF6844 30%,#FF5838 60%,#FF482C 100%)"),
    Keyframe(19, "linear-gradient(to bottom,#FF482C 0%,#DD4433 30%,#BB4444 60%,#994455 100%)"),
    Keyframe(20, "linear-gradient(to bottom,#FF5522 0%,#CC4455 30%,#883388 60%,#4433BB 100%)"),
    Keyframe(22, "linear-gradient(to bottom,#010214 0%,#011334 20%,#195AB9 80%,#FF699F 100%)"),
    Keyframe(23, "linear-gradient(to bottom,#10A184 0%,#195AB9 20%,#011334 80%,#010214 100%)")
  ]

  const Count: nat := |TimeGradients|

  function Hour(i: nat): real
    requires i < Count
  {
    TimeGradients[i].hour as real
  }

  /** The circularly next keyframe's index. */
  function Next(i: nat): (j: nat)
    requires i < Count
    ensures j < Count
  {
    (i + 1) % Count
  }

  /** Hours start at 0, stay inside one day and strictly increase. */
  lemma TableSorted()
    ensures Count == 15 && Hour(0) == 0.0 && Hour(Count - 1) < 24.0
    ensures forall i, j :: 0 <= i < j < Count ==> Hour(i) < Hour(j)
  {
    forall i, j | 0 <= i < j < Count ensures Hour(i) < Hour(j) {
      AdjacentIncrease(i, j);
    }
  }

  lemma AdjacentIncrease(i: nat, j: nat)
    requires i < j < Count
    ensures Hour(i) < Hour(j)
    decreases j - i
  {
    if j > i + 1 {
      AdjacentIncrease(i, j - 1);
      AdjacentIncrease(j - 1, j);
    } else {
      assert TimeGradients[i].hour < TimeGradients[i + 1].hour;
    }
  }

  /**
   * The index the scan of the first i keyframes leaves behind: the LAST one
   * whose hour is at most m, or none at all.
   */
  function LastMatch(m: real, i: nat): (r: Option<nat>)
    requires i <= Count
    ensures r.Some? ==> r.value < i && Hour(r.value) <= m
    ensures r.Some? ==> forall j :: r.value < j < i ==> Hour(j) > m
    ensures r.None? <==> forall j :: 0 <= j < i ==> Hour(j) > m
  {
    if i == 0 then None
    else if Hour(i - 1) <= m then Some(i - 1)
    else LastMatch(m, i - 1)
  }

  /** `Math.max(0, Math.min(1, x))`. */
  function Clamp01(x: real): (r: real)
    ensures 0.0 <= r <= 1.0
    ensures 0.0 <= x <= 1.0 ==> r == x
  {
    if x < 0.0 then 0.0 else if x > 1.0 then 1.0 else x
  }

  /**
   * What the page's lookup yields for hour h: with m = h % 24 and k the last
   * keyframe at or below m, keyframe k's gradient while m is less than half an
   * hour past k, and the circularly next keyframe's gradient after that.
   * When no keyframe matches (h % 24 < 0) the result is `undefined`.
   */
  function GradientAt(h: real): Option<string> {
    var m := Rem24(h);
    match LastMatch(m, Count)
    case None => None
    case Some(k) =>
      Some(if m - Hour(k) < 0.5 then TimeGradients[k].gradient else TimeGradients[Next(k)].gradient)
  }

  /**
   * The page's lookup loop: every keyframe at or below h % 24 overwrites the
   * "before" and "after" gradients and hours, then the clamped progress past
   * the "before" hour picks one of the two.
   */
  method GradientForHour(h: real) returns (g: Option<string>)
    ensures g == GradientAt(h)
  {
    var m := Rem24(h);
    var matched := false;
    var bG, aG := "", "";
    var bH, aH := 0, 0;
    ghost var k: nat := 0;
    var i := 0;
    while i < |TimeGradients|
      invariant 0 <= i <= Count
      invariant matched == LastMatch(m, i).Some?
      invariant matched ==> LastMatch(m, i) == Some(k) && k < Count
      invariant matched ==> bG == TimeGradients[k].gradient && bH == TimeGradients[k].hour
      invariant matched ==> aG == TimeGradients[Next(k)].gradient
    {
      LastMatchStep(m, i);
      if TimeGradients[i].hour as real <= m {
        bG := TimeGradients[i].gradient;
        bH := TimeGradients[i].hour;
        var nextIdx := (i + 1) % |TimeGradients|;
        aG := TimeGradients[nextIdx].gradient;
        aH := TimeGradients[nextIdx].hour;
        // the wrapped "after" hour is computed but never read
        if aH < bH { aH := aH + 24; }
        matched := true;
        k := i;
      }
      i := i + 1;
    }
    if !matched {
      // bH is undefined, the progress is NaN, and `NaN < 0.5` selects aG: undefined
      g := None;
    } else {
      var p := Clamp01((m - bH as real) / 1.0);
      g := Some(if p < 0.5 then bG else aG);
      GradientAtMatch(h, k);
    }
  }

  /** The lookup's selection once the scan has settled on keyframe k. */
  lemma GradientAtMatch(h: real, k: nat)
    requires k < Count && LastMatch(Rem24(h), Count) == Some(k)
    ensures Clamp01(Rem24(h) - Hour(k)) < 0.5 ==> GradientAt(h) == Some(TimeGradients[k].gradient)
    ensures Clamp01(Rem24(h) - Hour(k)) >= 0.5 ==> GradientAt(h) == Some(TimeGradients[Next(k)].gradient)
  {
  }

  /** One more keyframe scanned: it becomes the match if its hour is at most m. */
  lemma LastMatchStep(m: real, i: nat)
    requires i < Count
    ensures LastMatch(m, i + 1) == if Hour(i) <= m then Some(i) else LastMatch(m, i)
  {
  }

  /** Lookup is defined exactly when h % 24 is not negative, so for every h >= 0. */
  lemma GradientDefinedIff(h: real)
    ensures GradientAt(h).Some? <==> Rem24(h) >= 0.0
    ensures h >= 0.0 ==> GradientAt(h).Some?
  {
    TableSorted();
    var m := Rem24(h);
    if m >= 0.0 {
      assert Hour(0) <= m;
    }
  }

  /** The lookup never blends: it always yields one of the table's gradients. */
  lemma GradientIsKeyframe(h: real)
    requires h >= 0.0
    ensures exists j :: 0 <= j < Count && GradientAt(h) == Some(TimeGradients[j].gradient)
  {
    GradientDefinedIff(h);
    var k := LastMatch(Rem24(h), Count).value;
    if Rem24(h) - Hour(k) < 0.5 {
      assert GradientAt(h) == Some(TimeGradients[k].gradient);
    } else {
      assert GradientAt(h) == Some(TimeGradients[Next(k)].gradient);
    }
  }

  /** The lookup repeats every 24 hours. */
  lemma GradientPeriodic(h: real)
    requires h >= 0.0
    ensures GradientAt(h + 24.0) == GradientAt(h)
  {
    Rem24Periodic(h);
  }

  /**
   * Stated without the scan: for m in [0, 24) and k the keyframe with the
   * largest hour not above m, the lookup gives keyframe k before k's hour plus
   * one half, and the circularly next keyframe from then on.
   */
  lemma GradientStep(m: real, k: nat)
    requires 0.0 <= m < 24.0 && k < Count
    requires Hour(k) <= m && (k + 1 == Count || m < Hour(k + 1))
    ensures m - Hour(k) < 0.5 ==> GradientAt(m) == Some(TimeGradients[k].gradient)
    ensures m - Hour(k) >= 0.5 ==> GradientAt(m) == Some(TimeGradients[Next(k)].gradient)
  {
    Rem24OfRange(m);
    LastMatchIsLargest(m, k);
  }

  /** In the sorted table the last match is the keyframe just below the next one's hour. */
  lemma LastMatchIsLargest(m: real, k: nat)
    requires k < Count && Hour(k) <= m && (k + 1 == Count || m < Hour(k + 1))
    ensures LastMatch(m, Count) == Some(k)
  {
    TableSorted();
    var r := LastMatch(m, Count);
    assert r.Some? by { assert Hour(k) <= m; }
  }

  /** Hour 6 shows the hour-6 gradient; 6.6 is past the swap and shows hour 8's. */
  lemma GradientSwapExample(h: real)
    requires h == 6.0 || h == 6.6
    ensures h == 6.0 ==> GradientAt(h) == Some(TimeGradients[4].gradient)
    ensures h == 6.6 ==> GradientAt(h) == Some(TimeGradients[5].gradient)
  {
    assert Hour(4) == 6.0 && Hour(5) == 8.0 && Next(4) == 5;
    GradientStep(h, 4);
  }

  /** The swap falls half an hour after the keyframe: 2.49 still shows hour 2's gradient ... */
  lemma GradientBeforeHalfHour(h: real)
    requires h == 2.49
    ensures GradientAt(h) == Some(TimeGradients[1].gradient)
  {
    assert Hour(1) == 2.0 && Hour(2) == 4.0;
    GradientStep(h, 1);
  }

  /** ... and 2.51 already shows hour 4's. */
  lemma GradientAfterHalfHour(h: real)
    requires h == 2.51
    ensures GradientAt(h) == Some(TimeGradients[2].gradient)
  {
    assert Hour(1) == 2.0 && Hour(2) == 4.0 && Next(1) == 2;
    GradientStep(h, 1);
  }

  /** Late in hour 23 the lookup wraps round to the midnight gradient. */
  lemma GradientWrapExample(h: real)
    requires h == 23.7
    ensures GradientAt(h) == Some(TimeGradients[0].gradient)
  {
    assert Hour(14) == 23.0 && Next(14) == 0;
    GradientStep(h, 14);
  }

  /** Where a preview segment ends: the next keyframe's hour, a next hour of 0 read as 24. */
  function SegmentEnd(idx: nat): (e: real)
    requires idx < Count
    ensures Hour(idx) < e <= 24.0
  {
    TableSorted();
    var nh := TimeGradients[Next(idx)].hour;
    if nh == 0 then 24.0 else nh as real
  }

  /** The test that marks preview segment idx active for hour cH. */
  predicate SegmentActive(idx: nat, cH: real)
    requires idx < Count
  {
    cH >= Hour(idx) && cH < SegmentEnd(idx)
  }

  /**
   * For every hour in [0, 24) the active segment is exactly the keyframe the
   * background lookup starts from.
   */
  lemma ActiveSegmentIsBase(cH: real, idx: nat)
    requires 0.0 <= cH < 24.0 && idx < Count
    ensures SegmentActive(idx, cH) <==> LastMatch(Rem24(cH), Count) == Some(idx)
  {
    TableSorted();
    Rem24OfRange(cH);
    assert idx + 1 < Count ==> SegmentEnd(idx) == Hour(idx + 1);
    if SegmentActive(idx, cH) {
      LastMatchIsLargest(cH, idx);
    }
    if LastMatch(cH, Count) == Some(idx) {
      assert idx + 1 < Count ==> Hour(idx + 1) > cH;
    }
  }

  /** Exactly one preview segment is active for every hour in [0, 24). */
  lemma ExactlyOneSegmentActive(cH: real)
    requires 0.0 <= cH < 24.0
    ensures exists idx :: 0 <= idx < Count && SegmentActive(idx, cH)
    ensures forall i, j :: 0 <= i < Count && 0 <= j < Count && SegmentActive(i, cH) && SegmentActive(j, cH) ==> i == j
  {
    GradientDefinedIff(cH);
    Rem24OfRange(cH);
    var k := LastMatch(cH, Count).value;
    ActiveSegmentIsBase(cH, k);
    forall i, j | 0 <= i < Count && 0 <= j < Count && SegmentActive(i, cH) && SegmentActive(j, cH)
      ensures i == j
    {
      ActiveSegmentIsBase(cH, i);
      ActiveSegmentIsBase(cH, j);
    }
  }

  /**
   * The active flags of the whole preview strip for hour cH: for an hour in
   * [0, 24) exactly one of them is set.
   */
  function ActiveFlags(cH: real): (flags: seq<bool>)
    ensures |flags| == Count
    ensures forall i :: 0 <= i < Count ==> flags[i] == SegmentActive(i, cH)
    ensures 0.0 <= cH < 24.0 ==>
      exists k :: 0 <= k < Count && flags[k] && forall j :: 0 <= j < Count && flags[j] ==> j == k
  {
    var flags := seq(Count, i requires 0 <= i < Count => SegmentActive(i, cH));
    assert 0.0 <= cH < 24.0 ==>
      exists k :: 0 <= k < Count && flags[k] && forall j :: 0 <= j < Count && flags[j] ==> j == k
    by {
      if 0.0 <= cH < 24.0 {
        ExactlyOneSegmentActive(cH);
        var k :| 0 <= k < Count && SegmentActive(k, cH);
        assert flags[k];
      }
    }
    flags
  }

  /**
   * One more segment tested, written as the strip's loop computes it: the
   * next keyframe's hour, with an hour of 0 read as 24.
   */
  lemma ActiveFlagsStep(cH: real, idx: nat)
    requires idx < Count
    ensures var nIdx := (idx + 1) % |TimeGradients|;
      var nGH := if TimeGradients[nIdx].hour == 0 then 24.0 else TimeGradients[nIdx].hour as real;
      ActiveFlags(cH)[..idx + 1] ==
        ActiveFlags(cH)[..idx] + [cH >= TimeGradients[idx].hour as real && cH < nGH]
  {
    var f := ActiveFlags(cH);
    assert f[..idx + 1] == f[..idx] + [f[idx]];
  }
}
