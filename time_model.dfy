/**
 * The page's time-of-day state: the operating mode, the hour the slider
 * drives, the label and preview strip it refreshes, and the once-per-frame
 * debounce of the background gradient. The wall clock (`new Date()`) is a
 * parameter; each frame callback is an explicit method.
 */
module TimeModel {
  import opened Wrappers
  import opened JsNumber
  import opened Gradients
  import opened TimeText

  /** The three mode buttons: "manual", "auto" and "realtime". */
  datatype Mode = Manual | Auto | RealTime

  type HourOfDay = h: int | 0 <= h < 24
  type MinuteOfHour = m: int | 0 <= m < 60

  /** One reading of the wall clock: `getHours()` and `getMinutes()`. */
  datatype Clock = Clock(hours: HourOfDay, minutes: MinuteOfHour)

  /** The clock as a fractional hour, `getHours() + getMinutes() / 60`. */
  function ClockHour(c: Clock): (h: real)
    ensures 0.0 <= h < 24.0
    ensures h.Floor == c.hours && Minutes(h) == c.minutes
  {
    var h := c.hours as real + c.minutes as real / 60.0;
    assert Rem1(h) == c.minutes as real / 60.0;
    h
  }

  /**
   * The hour the render loop and the preview strip read: the slider's hour
   * in manual mode, the wall clock in every other mode (auto included).
   */
  function HourSource(mode: Mode, manualHour: real, clock: Clock): (h: real)
    ensures 0.0 <= manualHour < 24.0 ==> 0.0 <= h < 24.0
    ensures h == manualHour || h == ClockHour(clock)
  {
    if mode == Manual then manualHour else ClockHour(clock)
  }

  /** Outside manual mode the slider's hour is never read; in manual mode the clock is never read. */
  lemma HourSourceReads(mode: Mode, a: real, b: real, c: Clock, d: Clock)
    ensures mode != Manual ==> HourSource(mode, a, c) == HourSource(mode, b, c) == ClockHour(c)
    ensures mode == Manual ==> HourSource(mode, a, c) == HourSource(mode, a, d) == a
  {
  }

  /** One step of auto mode: one simulated second, reset to exactly 0 once the day is over. */
  function AutoAdvance(h: real): (r: real)
    ensures 0.0 <= h < 24.0 ==> 0.0 <= r < 24.0
    ensures r == 0.0 || r > h
  {
    var x := h + 1.0 / 3600.0;
    if x >= 24.0 then 0.0 else x
  }

  /** The step wraps on the very call that reaches 24, never exceeding it. */
  lemma AutoAdvanceWraps(h: real)
    requires 0.0 <= h < 24.0
    ensures h + 1.0 / 3600.0 >= 24.0 <==> AutoAdvance(h) == 0.0
    ensures h + 1.0 / 3600.0 < 24.0 ==> AutoAdvance(h) - h == 1.0 / 3600.0
    ensures AutoAdvance(23.9999) == 0.0
  {
  }

  class TimeState {
    var mode: Mode
    var manualHour: real
    /** The slider's position as the page last wrote it. */
    var slider: real
    /** The HH:MM label. */
    var timeLabel: string
    /** The "active" class of each preview segment. */
    var activeSegments: seq<bool>
    /** A background frame callback is pending. */
    var backgroundScheduled: bool
    /** The hour the pending callback captured. */
    var pendingHour: real
    /**
     * The gradient last written to the container's background (and to the
     * search box's reflection property); None before the first write and
     * when the lookup gave `undefined`.
     */
    var background: Option<string>

    /** The page's start-up: manual mode at hour 12, then background, label and strip. */
    constructor (slider0: real, clock: Clock)
      ensures mode == Manual && manualHour == 12.0 && slider == slider0
      ensures backgroundScheduled && pendingHour == 12.0 && background == None
      ensures timeLabel == TimeLabel(12.0)
      ensures activeSegments == ActiveFlags(12.0)
    {
      mode := Manual;
      manualHour := 12.0;
      slider := slider0;
      backgroundScheduled := false;
      pendingHour := 0.0;
      background := None;
      timeLabel := "";
      activeSegments := [];
      new;
      UpdateBackgroundGradient(manualHour);
      UpdateTimeValue(manualHour);
      UpdateActiveSegment(clock);
    }

    /** The hour fed to the shader this frame. */
    function ShaderHour(clock: Clock): real
      reads this
    {
      HourSource(mode, manualHour, clock)
    }

    /** Debounce: only the first request of a frame schedules a write, with its own hour. */
    method UpdateBackgroundGradient(h: real)
      modifies this`backgroundScheduled, this`pendingHour
      ensures backgroundScheduled
      ensures pendingHour == if old(backgroundScheduled) then old(pendingHour) else h
    {
      if backgroundScheduled {
        return;
      }
      backgroundScheduled := true;
      pendingHour := h;
    }

    /**
     * The scheduled frame callback: write the gradient for the captured hour
     * and re-arm. `None` is the `undefined` the lookup gives for a negative
     * hour; no handler captures one.
     */
    method FlushBackground()
      requires backgroundScheduled
      modifies this`background, this`backgroundScheduled
      ensures background == GradientAt(pendingHour)
      ensures !backgroundScheduled
    {
      var gradient := GradientForHour(pendingHour);
      background := gradient;
      backgroundScheduled := false;
    }

    method UpdateTimeValue(h: real)
      modifies this`timeLabel
      ensures timeLabel == TimeLabel(h)
    {
      timeLabel := TimeLabel(h);
    }

    /** Mark the segment containing the current hour source, and only it. */
    method UpdateActiveSegment(clock: Clock)
      modifies this`activeSegments
      ensures activeSegments == ActiveFlags(HourSource(mode, manualHour, clock))
    {
      var cH := if mode == Manual then manualHour else ClockHour(clock);
      var flags: seq<bool> := [];
      var idx := 0;
      while idx < |TimeGradients|
        invariant 0 <= idx <= Count
        invariant flags == ActiveFlags(cH)[..idx]
      {
        ActiveFlagsStep(cH, idx);
        var nIdx := (idx + 1) % |TimeGradients|;
        var cGH := TimeGradients[idx].hour as real;
        var nGH := if TimeGradients[nIdx].hour == 0 then 24.0 else TimeGradients[nIdx].hour as real;
        flags := flags + [cH >= cGH && cH < nGH];
        idx := idx + 1;
      }
      assert ActiveFlags(cH)[..Count] == ActiveFlags(cH);
      activeSegments := flags;
    }

    /** The three refreshes every hour change triggers. */
    method ShowHour(h: real, clock: Clock)
      modifies this`backgroundScheduled, this`pendingHour, this`timeLabel, this`activeSegments
      ensures backgroundScheduled
      ensures pendingHour == if old(backgroundScheduled) then old(pendingHour) else h
      ensures timeLabel == TimeLabel(h)
      ensures activeSegments == ActiveFlags(HourSource(mode, manualHour, clock))
    {
      UpdateBackgroundGradient(h);
      UpdateTimeValue(h);
      UpdateActiveSegment(clock);
    }

    /** A click on preview segment idx jumps to its hour, whatever the mode. */
    method SegmentClick(idx: nat, clock: Clock)
      requires idx < Count
      modifies this
      ensures mode == old(mode) && background == old(background)
      ensures slider == Hour(idx) && manualHour == Hour(idx)
      ensures backgroundScheduled
      ensures pendingHour == if old(backgroundScheduled) then old(pendingHour) else Hour(idx)
      ensures timeLabel == TimeLabel(Hour(idx))
      ensures activeSegments == ActiveFlags(HourSource(mode, Hour(idx), clock))
    {
      slider := Hour(idx);
      manualHour := Hour(idx);
      ShowHour(Hour(idx), clock);
    }

    /** The "auto" button: switch mode, then run the first auto step at once. */
    method ToggleAuto(clock: Clock)
      modifies this
      ensures mode == Auto && background == old(background)
      ensures manualHour == AutoAdvance(old(manualHour)) && slider == manualHour
      ensures backgroundScheduled
      ensures pendingHour == if old(backgroundScheduled) then old(pendingHour) else manualHour
      ensures timeLabel == TimeLabel(manualHour)
      ensures activeSegments == ActiveFlags(ClockHour(clock))
    {
      mode := Auto;
      AutoStep(clock);
    }

    /** The "manual" button only switches the mode. */
    method ToggleManual()
      modifies this`mode
      ensures mode == Manual
    {
      mode := Manual;
    }

    /** The "real time" button: switch mode and jump slider and hour to the clock. */
    method UseRealTime(clock: Clock)
      modifies this
      ensures mode == RealTime && background == old(background)
      ensures manualHour == ClockHour(clock) && slider == ClockHour(clock)
      ensures backgroundScheduled
      ensures pendingHour == if old(backgroundScheduled) then old(pendingHour) else ClockHour(clock)
      ensures timeLabel == TimeLabel(ClockHour(clock))
      ensures activeSegments == ActiveFlags(ClockHour(clock))
    {
      mode := RealTime;
      var cH := ClockHour(clock);
      slider := cH;
      manualHour := cH;
      ShowHour(cH, clock);
    }

    /** Slider input (the parsed value v) takes effect only in manual mode. */
    method SliderInput(v: real, clock: Clock)
      modifies this
      ensures old(mode) != Manual ==> unchanged(this)
      ensures old(mode) == Manual ==>
        mode == Manual && slider == old(slider) && background == old(background) &&
        manualHour == v && backgroundScheduled &&
        pendingHour == (if old(backgroundScheduled) then old(pendingHour) else v) &&
        timeLabel == TimeLabel(v) && activeSegments == ActiveFlags(v)
    {
      if mode == Manual {
        manualHour := v;
        ShowHour(manualHour, clock);
      }
    }

    /** One auto-mode frame: nothing unless the mode is auto, else advance and refresh. */
    method AutoStep(clock: Clock)
      modifies this
      ensures old(mode) != Auto ==> unchanged(this)
      ensures old(mode) == Auto ==>
        mode == Auto && background == old(background) &&
        manualHour == AutoAdvance(old(manualHour)) && slider == manualHour &&
        backgroundScheduled &&
        pendingHour == (if old(backgroundScheduled) then old(pendingHour) else manualHour) &&
        timeLabel == TimeLabel(manualHour) && activeSegments == ActiveFlags(ClockHour(clock))
    {
      if mode != Auto {
        return;
      }
      manualHour := manualHour + 1.0 / 3600.0;
      if manualHour >= 24.0 {
        manualHour := 0.0;
      }
      slider := manualHour;
      ShowHour(manualHour, clock);
    }
  }

  /**
   * Manual mode, after the start-up frame: the slider at 6 shows "06:00" and
   * the hour-6 gradient; at 6.6 the next frame shows the hour-8 gradient.
   */
  method ManualSliderScenario(clock: Clock) returns (text6: string, bg6: Option<string>, bg66: Option<string>)
    ensures text6 == "06:00"
    ensures bg6 == Some(TimeGradients[4].gradient)
    ensures bg66 == Some(TimeGradients[5].gradient)
  {
    var t := new TimeState(12.0, clock);
    t.FlushBackground();
    t.SliderInput(6.0, clock);
    text6 := t.timeLabel;
    t.FlushBackground();
    bg6 := t.background;
    t.SliderInput(6.6, clock);
    t.FlushBackground();
    bg66 := t.background;
    TimeLabelExamples();
    GradientSwapExample(6.0);
    GradientSwapExample(6.6);
  }

  /**
   * Two slider inputs before the next frame: the label follows the second,
   * the background keeps the first request's hour.
   */
  method DebounceScenario(clock: Clock) returns (text: string, bg: Option<string>)
    ensures text == TimeLabel(6.6)
    ensures bg == Some(TimeGradients[4].gradient)
  {
    var t := new TimeState(12.0, clock);
    t.FlushBackground();
    t.SliderInput(6.0, clock);
    t.SliderInput(6.6, clock);
    t.FlushBackground();
    text, bg := t.timeLabel, t.background;
    GradientSwapExample(6.0);
  }
}
