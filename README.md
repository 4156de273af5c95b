# Flashpoint page logic in Dafny

The page shows a search box. Behind it are a time-of-day gradient background, a WebGL shader and cursor-following blur layers. A globe widget colours each country's hex polygons with a wave whose phase comes from that country's centroid, mixing fixed colours by the wave. This project models the parts of the page that are plain state and arithmetic, and proves what the code promises. The browser's clocks, timestamps and element rectangles become parameters. Each `requestAnimationFrame` callback becomes an explicit method.

The modules follow the code:

- `Gradients`: the keyframe table, the background lookup `getGradientForHour`, and the preview strip's active-segment test.
- `TimeText`: the "HH:MM" label of `updateTimeValue`.
- `TimeModel`: the mode and the slider hour, kept in class `TimeState`. This covers the mode buttons, the slider, the auto step, the preview segment clicks and the once-per-frame background debounce.
- `Easing`: the update `v += (target - v) * f` and its convergence.
- `Slowdown`: the typing and hover slowdown target, and the eased current factor, kept in class `MotionState`.
- `Renderer`: the values the shader's frame loop computes (class `ShaderFeed`).
- `Pointer`: the cursor tracker, kept in class `Tracker`. It covers the throttled pointer target, the two eased tracks, idle detection, and the 16 ms and 32 ms guards of the mask and glow updates.
- `Ring`: the ring-activation toggle (class `RingState`).
- `HexGlobe`: `hexToRgb`, `mixColors`, `rgbToCss` and `computeFeatureCentroid`.
- `JsNumber`: the JavaScript number semantics these need:
  - `%` as a truncated remainder;
  - `Math.round` as round half up;
  - decimal `toString` and `padStart`;
  - `parseInt(s, 16)`;
  - ToInt32.
- `Wrappers` and `Layout`: shared value types.

Hours and coordinates are exact `real`s. Timestamps are `int` milliseconds.

The lookup for a negative hour deserves a note. When `h % 24` is negative, no keyframe matches, and the JavaScript returns `undefined`. The model does not exclude such hours with a precondition. Instead, `GradientAt` and `Gradients.GradientForHour` return `None` for them, and `Gradients.GradientDefinedIff` states exactly when a gradient is defined.

## Model

| member | source | states |
|---|---|---|
| Gradients.TableSorted | script.js:9-25 | the table has 15 keyframes starting at hour 0; its hours strictly increase and stay below 24 |
| Gradients.LastMatch | script.js:36-45 | the index a scan of the first i keyframes leaves behind is the last keyframe whose hour is at most m; it is None exactly when every scanned hour is above m |
| Gradients.Clamp01 | script.js:46 | `Math.max(0, Math.min(1, x))` lies in [0, 1] and is x itself for x in [0, 1] |
| Gradients.GradientAt | script.js:33-48 | the lookup without the scan's variables: None when no keyframe matches, else the matched keyframe's gradient before half an hour past it and the next one's after; its properties are GradientDefinedIff, GradientIsKeyframe, GradientPeriodic and GradientStep |
| Gradients.GradientForHour | script.js:33-48 | the loop that overwrites the "before" and "after" values, followed by the clamped 0.5 test, yields exactly `GradientAt(h)` |
| Gradients.GradientAtMatch | script.js:46-47 | once the scan settles on keyframe k, a clamped progress below 0.5 gives k's gradient, and otherwise the next keyframe's |
| Gradients.LastMatchStep | script.js:37-39 | scanning one more keyframe makes it the match exactly when its hour is at most m |
| Gradients.GradientDefinedIff | script.js:34-47 | the lookup is defined exactly when h % 24 is not negative, hence for every h >= 0 |
| Gradients.GradientIsKeyframe | script.js:33-48 | for h >= 0 the lookup returns one of the table's gradients, never a blend |
| Gradients.GradientPeriodic | script.js:34 | for h >= 0, the lookup for h + 24 equals the lookup for h |
| Gradients.GradientStep | script.js:33-48 | described without the scan: for m in [0, 24), k's gradient until half an hour past k's hour, then the circularly next keyframe's |
| Gradients.LastMatchIsLargest | script.js:36-45 | in the sorted table the scan stops at the keyframe just below the next keyframe's hour |
| Gradients.GradientSwapExample | script.js:33-48 | hour 6 gives the hour-6 gradient; 6.6 gives the hour-8 gradient |
| Gradients.GradientBeforeHalfHour | script.js:46-47 | hour 2.49 still gives the hour-2 gradient |
| Gradients.GradientAfterHalfHour | script.js:46-47 | hour 2.51 already gives the hour-4 gradient |
| Gradients.GradientWrapExample | script.js:40-43 | hour 23.7 wraps round to the midnight gradient |
| Gradients.SegmentEnd | script.js:108-110 | a segment ends at the next keyframe's hour, with 0 read as 24; that is above its own hour and at most 24 |
| Gradients.SegmentActive | script.js:108-111 | the strip's test `cH >= cGH && cH < nGH`; ActiveSegmentIsBase and ExactlyOneSegmentActive state what it means |
| Gradients.ActiveSegmentIsBase | script.js:100-114 | for every hour in [0, 24), a segment is active exactly when it is the keyframe the background lookup starts from |
| Gradients.ExactlyOneSegmentActive | script.js:107-113 | for every hour in [0, 24), exactly one segment is active |
| Gradients.ActiveFlags | script.js:107-113 | one flag per segment, each flag true exactly when that segment is active; for an hour in [0, 24) exactly one flag is true |
| Gradients.ActiveFlagsStep | script.js:108-111 | the flag the loop computes for segment idx extends the prefix of the strip's flags |
| TimeText.Minutes | script.js:70 | `Math.floor((h % 1) * 60)`; TimeLabelFormat proves it is in 0-59 for h in [0, 24) |
| TimeText.TimeLabel | script.js:68-74 | the label text; TimeLabelFormat and TimeLabelExamples state its shape and values |
| TimeText.TimeLabelFormat | script.js:68-74 | for h in [0, 24) the label is "HH:MM", five characters long; its pairs are floor(h) in 00-23 and floor(frac(h)·60) in 00-59, zero-padded |
| TimeText.TimeLabelExamples | script.js:68-74 | 6 reads "06:00" and 13.75 reads "13:45" |
| JsNumber.Trunc | script.js:34 | truncation toward zero, from both sides |
| JsNumber.Rem24 | script.js:34 | `h % 24` takes the sign of h, has magnitude below 24, and differs from h by a whole multiple of 24 |
| JsNumber.Rem1 | script.js:70 | `h % 1` takes the sign of h, has magnitude below 1, and differs from h by a whole number |
| JsNumber.Rem24OfRange | script.js:34 | `% 24` leaves an hour in [0, 24) unchanged |
| JsNumber.Rem24Periodic | script.js:34 | `% 24` gives the same result for h and h + 24 when h >= 0 |
| JsNumber.Round | hex-globe.js:46 | `Math.round` gives the integer n with n - 0.5 <= x < n + 0.5 |
| JsNumber.RoundUnique | hex-globe.js:46 | that integer is unique, so halves round up |
| JsNumber.NatToString | script.js:71-73 | decimal `toString` yields only digits; it has one digit below 10 and two below 100 |
| JsNumber.NatToStringRoundTrip | script.js:71-73 | parsing the decimal string of n gives back n |
| JsNumber.IntToString | hex-globe.js:46 | negative numbers are written as '-' followed by their magnitude |
| JsNumber.PadStart2 | script.js:72-73 | `padStart(2, "0")` adds zeros on the left up to length 2 and leaves longer strings alone |
| JsNumber.PaddedTwoDigits | script.js:71-73 | every n below 100 pads to its two decimal digits |
| JsNumber.TakeWhile | hex-globe.js:29 | the longest prefix of s whose characters all satisfy p |
| JsNumber.TakeWhileRun | hex-globe.js:29 | a run of matching characters followed by a non-matching one is taken whole |
| JsNumber.TrimStart | hex-globe.js:29 | `parseInt` skips exactly the leading ECMAScript white space |
| JsNumber.SplitSign | hex-globe.js:29 | `parseInt` accepts one leading '+' or '-'; TrimStart and UnsignedDigits bound what it removes |
| JsNumber.DropHexPrefix | hex-globe.js:29 | with radix 16 a leading "0x" or "0X" is dropped |
| JsNumber.HexValue | hex-globe.js:29 | the value of a string of hex digits, never negative |
| JsNumber.ParseIntHex | hex-globe.js:29 | `parseInt(s, 16)`: None (NaN) when no hex digit follows the white space, sign and prefix; ParseIntHexDigits and UnsignedDigits state its value |
| JsNumber.ParseIntHexDigits | hex-globe.js:29 | `parseInt(s, 16)` of a non-empty string of hex digits is their value |
| JsNumber.UnsignedDigits | hex-globe.js:29 | a string starting with hex digits has no white space, sign or "0x" prefix to drop |
| JsNumber.ToInt32 | hex-globe.js:31-33 | the signed 32-bit value congruent to n modulo 2^32, and n itself when n is in range |
| TimeModel.ClockHour | script.js:105 | `getHours() + getMinutes() / 60` is in [0, 24); its floor is the hours and its minutes are the minutes |
| TimeModel.HourSource | script.js:102-105 | the slider's hour in manual mode, and the clock's in every other mode |
| TimeModel.HourSourceReads | script.js:360-363 | outside manual mode the slider hour is never read; in manual mode the clock is never read |
| TimeModel.AutoAdvance | script.js:167-168 | one auto step keeps the hour in [0, 24) and either moves it forward or resets it to exactly 0 |
| TimeModel.AutoAdvanceWraps | script.js:167-168 | the step resets to 0 exactly when adding 1/3600 reaches 24; otherwise it adds exactly 1/3600 |
| TimeModel.TimeState.constructor | script.js:182-185 | the initial manual mode at hour 12 (lines 27-28), then start-up's three refreshes: a background request pending for hour 12, the label for 12 and the strip's flags for 12 |
| TimeModel.TimeState.UpdateBackgroundGradient | script.js:51-55 | debounce: only the first request while none is pending captures its hour |
| TimeModel.TimeState.FlushBackground | script.js:56-65 | the frame callback writes the lookup's gradient for the captured hour and clears the pending flag |
| TimeModel.TimeState.UpdateTimeValue | script.js:68-74 | the label becomes `TimeLabel(h)` |
| TimeModel.TimeState.UpdateActiveSegment | script.js:100-114 | the per-segment loop leaves exactly `ActiveFlags` of the current hour source |
| TimeModel.TimeState.ShaderHour | script.js:360-363 | the shader's hour is HourSource of the state's mode and slider hour; HourSourceReads states which of the two inputs it reads |
| TimeModel.TimeState.ShowHour | script.js:91-93 | the three refreshes that follow every hour change |
| TimeModel.TimeState.SegmentClick | script.js:87-94 | a segment click sets the slider and hour to the segment's keyframe hour, whatever the mode |
| TimeModel.TimeState.ToggleAuto | script.js:119-125 | switches to auto and runs one auto step at once |
| TimeModel.TimeState.ToggleManual | script.js:127-132 | switches to manual and changes nothing else |
| TimeModel.TimeState.UseRealTime | script.js:134-148 | switches to real time and moves the slider and hour to the clock |
| TimeModel.TimeState.SliderInput | script.js:153-160 | outside manual mode nothing changes; in manual mode the hour becomes the slider value and the three refreshes follow |
| TimeModel.TimeState.AutoStep | script.js:165-177 | outside auto mode nothing changes; in auto mode the hour advances by `AutoAdvance` and the refreshes follow |
| TimeModel.ManualSliderScenario | script.js:153-160 | in manual mode, slider 6 shows "06:00" and the hour-6 gradient, and 6.6 shows the hour-8 gradient |
| TimeModel.DebounceScenario | script.js:51-66 | two inputs within one frame: the label follows the second, the background the first |
| Easing.Ease | script.js:351-353 | a step lands between the old value and the target; the remaining gap is (1 - f) times the old one and the step is f times it |
| Easing.FractionOfGap | script.js:351 | a fraction f in [0, 1] of a gap lies between 0 and the gap |
| Easing.EaseN | script.js:351-353 | n easing steps toward a fixed target, as the frame loops apply them |
| Easing.EaseNIsRepeatedEase | script.js:351-353 | each step of EaseN is one Ease |
| Easing.EaseNBetween | script.js:353 | repeated steps never overshoot the target |
| Easing.EaseNGap | script.js:353 | after n steps the gap is exactly (1 - f)^n times the first gap |
| Easing.GapAfterBound | script.js:353 | (1 - f)^n · g · (1 + n·f) <= g |
| Easing.EaseConverges | script.js:499-505 | after n steps the gap times (1 + n·f) is at most the first gap, so the easing converges |
| Easing.StepBound | script.js:353 | one step pays for one more f in the convergence bound |
| Slowdown.EaseStaysInRange | script.js:353 | easing toward any target the handlers write keeps the factor in [0.15, 1.3] |
| Slowdown.TypingSettles | script.js:560-565 | once typing sets the target, the factor is below 0.3 within 140 frames |
| Slowdown.MotionState.constructor | script.js:346-348 | starts not typing, with target and current factor both 1.3 |
| Slowdown.MotionState.OnInput | script.js:560-571 | typing exactly when the field is non-empty; target 0.15 then, 1.3 otherwise |
| Slowdown.MotionState.OnBlur | script.js:573-579 | an empty field resets the class and target 1.3; otherwise nothing changes |
| Slowdown.MotionState.OnFocus | script.js:581-587 | a non-empty field restores the class and target 0.15 without touching isTyping |
| Slowdown.MotionState.OnMouseEnter | script.js:589 | the target becomes 0.2 |
| Slowdown.MotionState.OnMouseLeave | script.js:590-592 | the target returns to 1.3 unless typing, when it is unchanged |
| Slowdown.MotionState.EaseStep | script.js:353 | the current factor takes one 0.05 easing step toward the target |
| Slowdown.TypingScenario | script.js:560-592 | the targets after typing, hover-and-leave, clearing, and a blur of the empty field are 0.15, 0.2, 1.3 and 1.3 |
| Renderer.ElapsedSeconds | script.js:359 | elapsed seconds times 1000 are the elapsed milliseconds, never negative when now >= start |
| Renderer.ShaderFeed.constructor | script.js:336-337 | the pointer and the eased pointer start at (300, 300) |
| Renderer.ShaderFeed.OnCanvasMouseMove | script.js:339-343 | the pointer in canvas coordinates is the client position minus the canvas's corner |
| Renderer.ShaderFeed.Render | script.js:350-368 | the pointer eases by 0.02 and the slowdown by 0.05; the uniforms are elapsed seconds, the eased pointer, and the hour of the time source |
| Pointer.Admits | script.js:448 | the guard `now - last >= interval` that all three throttles share (the radial masks, the background glow and the mousemove handler); AdmittedCalls, AtMostOnePerInterval and ExactlyFirstOfBurst state its consequences |
| Pointer.TrackFactor | script.js:499 | the mask track's easing factor, 0.1 when idle and 0.08 otherwise; Tracker.Animate uses it |
| Pointer.GlowFactor | script.js:500 | the glow track's easing factor, 0.08 when idle and 0.07 otherwise; Tracker.Animate uses it |
| Pointer.AdmittedCalls | script.js:446-448 | which of a run of calls a timestamp guard lets through; the first call is admitted exactly when `now - last >= interval` |
| Pointer.AtMostOnePerInterval | script.js:446-448 | of calls whose times lie within one interval after an admitted one, none gets through |
| Pointer.ExactlyFirstOfBurst | script.js:517-519 | of a burst within one interval after a quiet period, exactly the first gets through |
| Pointer.MasksAt | script.js:451-458 | one mask per blur layer, centred on the point, with that layer's clear and fade radii |
| Pointer.GlowPercent | script.js:469-470 | a position inside the viewport maps to percentages in [0, 100] |
| Pointer.PercentWithin | script.js:469-470 | a coordinate in [0, total] is in [0, 100] percent |
| Pointer.Tracker.constructor | script.js:478-530 | every track starts at the viewport centre, then the first mask and glow updates run |
| Pointer.Tracker.UpdateRadialMasks | script.js:443-459 | admitted after 16 ms or more, it writes every layer's mask around the point; a rejected call changes nothing |
| Pointer.Tracker.UpdateBackgroundGlow | script.js:462-473 | admitted after 32 ms or more and only with a glow element, it writes the glow centre in viewport percent; a rejected call changes nothing |
| Pointer.Tracker.OnMouseMove | script.js:514-527 | admitted after 16 ms or more, it sets the target and the movement time and clears idle; a rejected call changes none of them |
| Pointer.Tracker.Animate | script.js:492-511 | the frame enters idle after more than 2000 ms without movement, eases both tracks by the factors of the idle state, and offers both updates |
| Pointer.ReplayMaskUpdates | script.js:443-449 | running a sequence of mask calls through the tracker admits exactly the calls the guard model admits |
| Pointer.MaskBurstScenario | script.js:446-448 | a thousand frames inside one window after the start-up update recompute nothing |
| Ring.Outer | script.js:545 | the outer radius is half the box's width |
| Ring.Center | script.js:542-543 | the centre is the box's corner plus half its width and height |
| Ring.PointInRing | script.js:540-547 | the square-free ring test; PointInRingIsDistance proves it agrees with the square-root test |
| Ring.DistSq | script.js:542-544 | the squared distance from the ring's centre is never negative |
| Ring.PointInRingIsDistance | script.js:540-547 | the square-free test agrees with `sqrt(dx² + dy²) < width / 2` |
| Ring.SquareMonotone | script.js:544-546 | squaring preserves order on non-negative reals |
| Ring.CenterInCornerOut | script.js:540-547 | the centre of a box of positive size is inside the ring, and its corner is outside |
| Ring.RingState.constructor | script.js:538 | the pointer starts outside and the class is absent |
| Ring.RingState.OnMouseMove | script.js:549-554 | the class is added exactly on entering and removed exactly on leaving, and it stays equal to "pointer inside" |
| HexGlobe.RemoveFirst | hex-globe.js:28 | `replace("#", "")` leaves a string without '#' unchanged and otherwise removes exactly one character |
| HexGlobe.RemoveFirstSplits | hex-globe.js:28 | the character removed is the first '#': the text before it has no '#', and what precedes and follows it is kept in order |
| HexGlobe.Byte | hex-globe.js:31-33 | each shifted-and-masked byte is in [0, 255] |
| HexGlobe.HexToRgb | hex-globe.js:27-35 | every decoded component is an integer in [0, 255], for any input string |
| HexGlobe.BitsOf | hex-globe.js:30-34 | the bit extraction of any parse, NaN included, is in byte range |
| HexGlobe.SixDigitValue | hex-globe.js:29 | six hex digits read as pair0·65536 + pair1·256 + pair2 |
| HexGlobe.BytesOf | hex-globe.js:31-33 | the three bytes of a 24-bit value are its three base-256 digits |
| HexGlobe.BitsOfValue | hex-globe.js:31-33 | a parse within the signed 32-bit range, negative values included, is shifted and masked as it is, with no wrap-around |
| HexGlobe.HexToRgbSixDigits | hex-globe.js:27-35 | "RRGGBB" decodes to its three hex pairs |
| HexGlobe.HexToRgbHashed | hex-globe.js:28 | "#RRGGBB" decodes the same as "RRGGBB" |
| HexGlobe.HexToRgbExample | hex-globe.js:27-35 | "#5b7cff" decodes to (91, 124, 255) |
| HexGlobe.DoubleHashIsBlack | hex-globe.js:28-29 | only the first '#' is removed, so "##5b7cff" parses as NaN and decodes to black |
| HexGlobe.ShorthandIsNotExpanded | hex-globe.js:28-34 | "#fff" is the number 0xfff, which decodes to (0, 15, 255) rather than white |
| HexGlobe.Lerp | hex-globe.js:39-41 | x at t = 0, y at t = 1, and between them for t in [0, 1] |
| HexGlobe.MixColors | hex-globe.js:37-43 | a at t = 0, b at t = 1, and each component between a's and b's for t in [0, 1] |
| HexGlobe.Expect | hex-globe.js:45-46 | a matched literal prefix plus the rest gives back the input |
| HexGlobe.ExpectPrefix | hex-globe.js:45-46 | a literal prefix is matched and its rest returned |
| HexGlobe.ReadNatString | hex-globe.js:45-46 | a decimal number followed by a non-digit reads back as that number and the rest |
| HexGlobe.RgbToCss | hex-globe.js:45-46 | the CSS text of a colour; RgbToCssReadsBack and RgbToCssExample state what it contains |
| HexGlobe.ParseCss | hex-globe.js:45-46 | the reader that inverts RgbToCss; RgbToCssReadsBack is the round trip |
| HexGlobe.RgbToCssReadsBack | hex-globe.js:45-46 | "rgb(R, G, B)" reads back as the three rounded components, in r, g, b order |
| HexGlobe.MixedColourInRange | hex-globe.js:37-46 | mixing byte colours with t in [0, 1] renders components in [0, 255] |
| HexGlobe.RoundInByteRange | hex-globe.js:46 | rounding a value in [0, 255] stays in [0, 255] |
| HexGlobe.RgbToCssExample | hex-globe.js:45-46 | (91.5, 124.49, 255) renders as components 92, 124 and 255 |
| HexGlobe.Descends | hex-globe.js:13-14 | an item whose first element is an array is descended into |
| HexGlobe.IsPoint | hex-globe.js:15-19 | an array of two or more items that is not descended into counts as one point |
| HexGlobe.Points | hex-globe.js:11-21 | the points the walk counts, in visiting order; PointsStep and RingPoints state how each item contributes |
| HexGlobe.Centroid | hex-globe.js:5-25 | the mean of the counted points, or [0, 0]; CentroidFallbacks, CentroidIsMean and CentroidWithin state its properties |
| HexGlobe.Accumulate | hex-globe.js:11-21 | the recursive walk adds the sums and the count of exactly the points the walk counts |
| HexGlobe.PointsStep | hex-globe.js:12-19 | each item descends, adds one point, or is skipped |
| HexGlobe.PrefixNumeric | hex-globe.js:12-19 | the numeric-points condition holds for every prefix |
| HexGlobe.SumsAppend | hex-globe.js:16-17 | the sums are additive over concatenation |
| HexGlobe.ComputeFeatureCentroid | hex-globe.js:5-25 | the method computes exactly `Centroid`: the mean of the counted points, or [0, 0] |
| HexGlobe.CentroidFallbacks | hex-globe.js:6-24 | [0, 0] for a missing geometry, for coordinates that are missing or not an array, and when no point was counted |
| HexGlobe.SumLngWithin | hex-globe.js:16 | the longitude sum of n points within bounds is within n times those bounds |
| HexGlobe.SumLatWithin | hex-globe.js:17 | the latitude sum of n points within bounds is within n times those bounds |
| HexGlobe.StepWithin | hex-globe.js:16-17 | adding one value within bounds to a bounded sum keeps the sum bounded |
| HexGlobe.MeanWithin | hex-globe.js:24 | a mean of values within bounds is within them |
| HexGlobe.CentroidIsMean | hex-globe.js:24 | with points counted, the centroid is the pair of means |
| HexGlobe.CentroidWithin | hex-globe.js:11-24 | the centroid lies within any bounds that hold for every counted point |
| HexGlobe.MeanLngWithin | hex-globe.js:24 | the mean longitude lies within the longitude bounds |
| HexGlobe.MeanLatWithin | hex-globe.js:24 | the mean latitude lies within the latitude bounds |
| HexGlobe.NestingIgnored | hex-globe.js:13-14 | when the coordinates' first item is itself an array, an extra level of array nesting changes nothing |
| HexGlobe.PointShapes | hex-globe.js:13-19 | items past the second are ignored, and arrays shorter than two are skipped |
| HexGlobe.ClosedRingExample | hex-globe.js:5-25 | a closed square ring counts its repeated vertex twice; its centroid is (0.8, 0.8), not the centre (1, 1) |
| HexGlobe.SquareSums | hex-globe.js:16-17 | the sums of the square ring's five vertices are 4 and 4 |
| HexGlobe.RingPoints | hex-globe.js:15-19 | a flat list of [lng, lat] pairs counts exactly those pairs |

## Left out

- WebGL is not modelled: context creation, shader compilation and linking, buffers, the draw call, the resolution uniform and the GLSL program itself. These are foreign calls and floating-point shading.
- DOM construction and styling is not modelled: creating the blur and glow layers, the CSS strings of masks and gradients, class lists beyond boolean fields, and the glow's fade-in `setTimeout`. The model keeps what these strings are built from, namely mask centres and radii, the glow's percentages and the gradient chosen.
- `requestAnimationFrame`, `setTimeout`, `Date.now` and `new Date` are not modelled. Each frame callback is an explicit method and every time is a parameter. Left out with them:
  - pressing "auto" again while auto mode runs starts one more frame chain;
  - the mousemove handler's re-request of the animation frame is dead code, since the handle is never cleared.
- The element rectangles from `getBoundingClientRect` and the viewport size `window.innerWidth`/`innerHeight` are parameters. `Tracker` takes the viewport size once, as constants, so resizes are not followed.
- Pointer.Tracker: the model requires a viewport of positive size. For a zero-size viewport the glow's percentage division would produce Infinity or NaN.
- The search field's focus `setTimeout` at load is not modelled. The slider's HTML range and step come from markup, which is not part of this model; `SliderInput` receives the parsed value directly.
- The globe widget is not modelled: `Globe()`, the THREE materials and texture, the ResizeObserver, the dataset `fetch`, `Math.random` and the colour animation. These lie in hex-globe.js:48-181 and are foreign libraries, I/O and trigonometry.
- Floating-point arithmetic is not modelled; hours and coordinates are exact reals. Rounding artefacts of repeated 1/3600 additions or of `h % 1 * 60` at minute boundaries therefore do not appear.
- HexGlobe.HexToRgb: the parse is exact on unbounded integers. `parseInt` loses precision on hex strings above 2^53, and the model does not reproduce that.
- HexGlobe.RgbToCss: `Math.round` results of 1e21 or more are written in exponent notation by JavaScript. The model writes plain decimal digits and proves the read-back only for non-negative rounded components.
- HexGlobe.ComputeFeatureCentroid: the model requires that every point met by the walk has a number as its second item. JavaScript would throw a TypeError on a null entry and would concatenate strings for a non-numeric component; neither is modelled.
- TimeModel.HourSource: script.js:105 and script.js:363 build two `new Date()` objects, one for the hours and one for the minutes. The model reads a single `Clock` for both. A read that straddles an hour boundary can give 10 + 0/60 = 10.0 at 10:59:59.999; this jump back is not modelled.
- TimeModel.TimeState.FlushBackground: for a negative hour the lookup is `undefined`, which the model writes as `None`. In a browser, assigning `undefined` to `container.style.background` keeps the previous background, while `setProperty('--reflection-gradient', undefined)` stores the string "undefined" in the search box's custom property. The model follows neither, and no handler passes a negative hour (the clock and the auto step stay in [0, 24), and the slider's range comes from markup).
- `idleRotation` is advanced while idle but never read; the model keeps it as written.
- The current slowdown factor is eased each frame but reaches no uniform; the model keeps it without inventing a consumer.
