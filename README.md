# flipbook time and timecode core, in Dafny

This project models the value types that flipbook's player uses for time. Each is proved against a specification.

- **AVFps** (`avfps.dfy`): a frame rate held as an exact ratio plus a drop-frame flag. It covers:
  - the ten presets;
  - the nominal integer rate ("frame quanta");
  - frame-count rescaling between rates;
  - equality and the seconds-per-frame ordering;
  - the first-match preset guess.
- **AVTime** (`avtime.dfy`): a signed tick count at an integer timescale, tagged with a rate. It covers:
  - ticks per frame, tick to frame and frame to tick;
  - `+` and `-` on one timescale;
  - rate conversion;
  - timescale rescaling that steps away from zero;
  - the `MM:SS` / `HH:MM:SS` text.
- **AVTimeRange** (`avtimerange.dfy`): a start and a duration on one timescale, with `end`, `bound`, `contains`, `overlaps`, validity, equality and text.
- **AVSmpteTime** (`avsmptetime.dfy`): a class whose `Update` splits a frame into hours, minutes, seconds and frames labels, and whose `Frame` rebuilds the count. It covers:
  - the drop-frame rules as the code writes them;
  - the sign kept in bit 0x80 of `minutes`;
  - the 24-hour wrap and the "allow negatives" policy;
  - setters that recompute, comparison, `+` and `-`.
- **AVMetadata** (`avmetadata.dfy`): a class holding an ordered list of key/value pairs, changed in place by `add_pair`, `remove_key` and `clear`.
- **`calculate_timecode`** of `test.py` (`dropframe.dfy`): a drop-frame frame number turned into `HH:MM:SS:FF`.
  - The script derives five constants from its floating-point rate with Python's `round`. The rate is taken here as an exact real.

Shared arithmetic sits in `intmath.dfy`:

- C++ `/` and `%` truncate toward zero.
- `std::round` of a ratio rounds halves away from zero.
- `static_cast` of a `qreal` truncates.

The two-digit text and its reading back sit in `text.dfy`.

A `qreal` that is a ratio of two integers is modelled as an exact Dafny `real`. Python's `//` and `%` with positive divisors are Dafny's Euclidean operators.

Three calls the core makes have no definition in these sources. They are modelled as follows:

- `AVFps::convert(f, from, to)` (avtime.cpp:224) is `round(f · to / from)`, rounding halves away from zero.
- `time.frame(fps)` (avsmptetime.cpp:92) is `ticks / tpf(fps)` truncated, where `tpf(fps)` is `round(timescale / fps)`.
- The two-argument `AVTime(ticks, timescale)` (avtimerange.cpp:57) is the three-argument form with the 24 fps default.

Where a prose description of the library differs from the code, the model follows the code:

- `AVFps::valid()` checks only the numerator, not the denominator.
- `guess` uses a tolerance of 0.002 and truncates the fallback rate; it does not round.
- `frames()` truncates toward zero.
- `ticks(frame)` is an exact product, with no rounding.
- `scale` moves one tick away from zero on any non-zero remainder. It does not round half away from zero.
- `bound` clamps into `[start, end]`, end included. It does not stop one frame before the end, and it has no looping mode.

## Model

| member | source | states |
|---|---|---|
| IntMath.TruncDiv | avtime.cpp:233 | the quotient's magnitude is the whole number of times the divisor fits in the dividend; its sign is negative exactly when the operands' signs differ |
| IntMath.TruncMod | avtime.cpp:232 | dividend = quotient · divisor + remainder; the remainder is smaller than the divisor and takes the dividend's sign |
| IntMath.RoundHalfAway | avfps.cpp:68 | the result is within half a step of the exact ratio; an exact half goes to the integer further from zero |
| IntMath.RoundOfExact | avfps.cpp:86 | rounding a ratio that is already whole gives that whole number |
| IntMath.TruncReal | avtime.cpp:104 | a real converted to an integer keeps the whole part of its magnitude and its sign |
| Text.Pad2 | avtime.cpp:110-117 | the number in decimal, at least two characters; a number in 0..99 is exactly two digits; the digits read back as the number, after a minus sign when it is negative; no zero is added beyond two characters, so a number from 10 up and the digits after a minus sign never start with 0 |
| Text.Pad2Examples | avsmptetime.cpp:316-320 | 133 (a minutes label with the sign bit) prints as "133", -5 as "-5", 7 as "07" |
| AVFps.FrameQuanta | avfps.cpp:65-69 | the nominal rate is within half a frame per second of n/d; exact halves go away from zero; a non-zero result is negative exactly when n and d differ in sign |
| AVFps.FrameQuantaPositive | avfps.cpp:65-75 | a positive rate has a non-negative nominal rate, positive exactly when the rate is at least half a frame per second |
| AVFps.NegativeDenominatorQuanta | avfps.cpp:65-69 | a rate `valid()` accepts whose denominator is negative has a nominal rate of zero or less |
| AVFps.Valid | avfps.cpp:89-92 | a rate is valid when its numerator is positive; the denominator is not checked (partner: `FpsHandle.SetDenominator` keeps the denominator positive) |
| AVFps.Real | avfps.cpp:70-74 | frames per second as the exact ratio numerator / denominator (partner: `LessByCrossProduct`, which orders rates by it) |
| AVFps.Seconds | avfps.cpp:76-80 | seconds per frame, `1 / to_real()` (partner: `SecondsIsInverseRate`, d / n and positive for a positive rate) |
| AVFps.Convert | avtime.cpp:224 | a frame count at `from` rescaled to `to` by `to_fps` (partners: `ConvertSameRate`, `ConvertRoundTrip`, `ConvertExact`) |
| AVFps.ToFps | avfps.cpp:83-87 | the result is within half a frame of frame · (n · d_other) / (d · n_other), and an exact half goes away from zero |
| AVFps.ConvertSameRate | avtime.cpp:224 | converting a frame count between a rate and itself returns it unchanged |
| AVFps.ConvertRoundTrip | avtime.cpp:224 | when `to` is exactly k times `from`, converting multiplies the count by k exactly, and converting back restores it |
| AVFps.ConvertExact | avtime.cpp:224 | a conversion whose exact result is whole gives that number |
| AVFps.ConvertExample | avtime.cpp:224 | frame 86496 at 24 fps is frame 108120 at 30 fps |
| AVFps.ConvertTieExample | avfps.cpp:83-87 | one frame at 48 fps converts to one frame at 24 fps: the exact half 0.5 rounds up |
| AVFps.Equal | avfps.cpp:134-140 | numerator, denominator and drop flag all equal (partner: `OrderCoarserThanEquality`) |
| AVFps.Less | avfps.cpp:148-151 | `a < b` compares seconds per frame, for any rates with non-zero parts (partners: `LessByCrossProduct`, `LessTransitive`, `SignedRateBelowPositive`) |
| AVFps.Greater | avfps.cpp:153-156 | `a > b` is `b < a`, for any rates with non-zero parts, signed or not |
| AVFps.LessOrEqual | avfps.cpp:158-161 | `a <= b` is the negation of `b < a`, for any rates with non-zero parts |
| AVFps.GreaterOrEqual | avfps.cpp:163-166 | `a >= b` is the negation of `a < b`, for any rates with non-zero parts |
| AVFps.SecondsIsInverseRate | avfps.cpp:77-81 | seconds per frame is exactly d/n, and positive |
| AVFps.LessByCrossProduct | avfps.cpp:148-151 | `a < b` holds exactly when d_a · n_b < d_b · n_a, i.e. exactly when `a` is the faster rate |
| AVFps.LessTransitive | avfps.cpp:148-151 | the ordering is transitive |
| AVFps.OrderCoarserThanEquality | avfps.cpp:135-151 | scaling n and d by k, or changing the drop flag, gives a rate that is neither less nor greater; it is `==` only when k = 1 and the flag is kept |
| AVFps.SignedRateBelowPositive | avfps.cpp:148-161 | a rate whose parts have opposite signs, which the constructor accepts, has negative seconds per frame and so is less than every positive rate |
| AVFps.FirstClose | avfps.cpp:189-193 | the index of the first rate within the tolerance; every earlier rate is outside it |
| AVFps.GuessOf | avfps.cpp:173-195 | if some preset is within 0.002, the result is the first such preset in the fixed order; otherwise it is the non-drop rate trunc(x · 1000)/1000 |
| AVFps.Guess | avfps.cpp:189-194 | the search loop returns exactly `GuessOf(x)` |
| AVFps.PresetsTable | avfps.cpp:197-255 | ten presets, all positive; the drop flag is set exactly on the /1001 rates; the nominal rates are 24, 24, 25, 30, 30, 48, 48, 50, 60, 60; the default rate is not valid |
| AVFps.PresetsAscending | avfps.cpp:177-188 | in the search order, each preset is more than 0.02 frames per second below the next |
| AVFps.PresetsSpread | avfps.cpp:177-188 | any two presets in the search order are more than 0.02 frames per second apart |
| AVFps.GuessRecoversPresets | avfps.cpp:173-195 | guessing the rate of any preset returns that preset |
| AVFps.GuessExamples | avfps.cpp:173-207 | `fps_24() == AVFps(24, 1)`; `guess(23.976)` is the drop-frame preset; `guess(24)` is the non-drop 24 fps |
| AVFps.GuessFallbackExample | avfps.cpp:194 | `guess(10)` matches no preset and returns 10000/1000, non-drop |
| AVFps.FpsHandle.Default | avfps.cpp:13-22 | a default rate is 0/1 and not valid |
| AVFps.FpsHandle.constructor | avfps.cpp:24-30 | the three parts are stored unchecked |
| AVFps.FpsHandle.SetNumerator | avfps.cpp:94-103 | only the numerator changes; afterwards the rate is valid exactly when the new numerator is positive |
| AVFps.FpsHandle.SetDenominator | avfps.cpp:105-116 | a non-positive denominator is ignored, so a positive denominator stays positive |
| AVFps.FpsHandle.SetDropFrame | avfps.cpp:118-124 | only the drop flag changes |
| AVTime.TpfAt | avtime.cpp:83-87 | ticks per frame are within half a tick of timescale · d / n, and an exact half goes away from zero |
| AVTime.TicksAt | avtime.cpp:71-75 | the tick returned lies in the given frame: truncating it by ticks per frame gives the frame back |
| AVTime.Tpf | avtime.cpp:82-87 | ticks per frame of the time's own rate, `round(timescale / fps)` (partner: `TpfAt`, within half a tick) |
| AVTime.Frames | avtime.cpp:89-93 | the frame count is the number of whole frames in the ticks, truncated toward zero: its magnitude is bracketed by the ticks, and a non-zero count is positive exactly when ticks and ticks per frame have the same sign |
| AVTime.FrameAt | avsmptetime.cpp:92 | the frame counted at another rate is the frame count of the same ticks retagged with that rate |
| AVTime.Seconds | avtime.cpp:94-98 | ticks divided by the timescale, exactly (partners: `SameTimescaleOrder`, `LessByCrossProduct`) |
| AVTime.Valid | avtime.cpp:131-134 | a time is valid when its timescale is positive (partner: `TimeHandle.SetTimescale`, `TimeHandle.Invalidate`) |
| AVTime.Equal | avtime.cpp:177-181 | ticks and timescale equal; the rate is not compared (partner: `EqualIsFinerThanOrder`) |
| AVTime.Less | avtime.cpp:189-192 | `a < b` compares seconds (partners: `SameTimescaleOrder`, `LessByCrossProduct`) |
| AVTime.Make | avtime.cpp:22-28 | the ticks, timescale and rate are stored as given |
| AVTime.FromFrame | avtime.cpp:30-35 | the time is at timescale 24000 with the given rate, and its ticks are the start of the frame |
| AVTime.FromSeconds | avtime.cpp:37-42 | the ticks are seconds · 24000 truncated toward zero: magnitude bracketed, and a non-zero tick count has the sign of the seconds |
| AVTime.FromSecondsWhole | avtime.cpp:37-42 | a whole number of seconds k gives exactly k · 24000 ticks, which `seconds()` reads back as k |
| AVTime.WithFps | avtime.cpp:44-48 | the ticks and timescale are kept and the rate is replaced |
| AVTime.Greater | avtime.cpp:194-197 | `a > b` is `b < a` |
| AVTime.LessOrEqual | avtime.cpp:199-202 | `a <= b` is the negation of `b < a` |
| AVTime.GreaterOrEqual | avtime.cpp:204-207 | `a >= b` is the negation of `a < b` |
| AVTime.Add | avtime.cpp:209-213 | the timescale is shared and the left rate is kept; adding non-negative ticks never moves earlier |
| AVTime.Sub | avtime.cpp:215-219 | the timescale is shared and the left rate is kept; subtracting non-negative ticks never moves later |
| AVTime.SubUndoesAdd | avtime.cpp:209-219 | `(a + b) - b == a` and `(a - b) + b == a` |
| AVTime.AddMovesLater | avtime.cpp:189-213 | adding a positive duration gives a later time |
| AVTime.Convert | avtime.cpp:221-225 | the timescale is kept, the rate becomes `to`, and the ticks are converted as a frame count |
| AVTime.ConvertSameRate | avtime.cpp:221-225 | converting between a rate and itself keeps the ticks |
| AVTime.Scale | avtime.cpp:227-242 | the new ticks bracket the exact rescaled value: the first whole tick at or beyond it, away from zero |
| AVTime.ScaleExact | avtime.cpp:227-242 | when the rescaled count is whole, `scale` gives exactly it |
| AVTime.ScaleRoundTrip | avtime.cpp:227-242 | rescaling to a timescale k times finer multiplies the ticks by k, and rescaling back restores the time |
| AVTime.ScaleExamples | avtime.cpp:227-242 | 384000 at 48000 is 192000 at 24000; 16016 at 30000 goes to 12813 at 24000 and back to 16017 |
| AVTime.ClockTextReadsBack | avtime.cpp:104-118 | the text of a non-negative whole number of seconds reads back as that number |
| AVTime.ToString | avtime.cpp:100-119 | whole seconds as `MM:SS`, or `HH:MM:SS` from one hour on (partners: `ToStringReadsBack`, `ToStringHasNoSlash`) |
| AVTime.ToStringReadsBack | avtime.cpp:101-119 | the text of a non-negative time reads back as its whole seconds: hours, minutes and seconds lose nothing |
| AVTime.ToStringHasNoSlash | avtime.cpp:101-119 | the text contains no `/` |
| AVTime.SameTimescaleOrder | avtime.cpp:189-192 | on one positive timescale, `<` is the order of ticks |
| AVTime.LessByCrossProduct | avtime.cpp:178-192 | across timescales `<` compares the cross products; times that are `==` are never ordered |
| AVTime.EqualIsFinerThanOrder | avtime.cpp:178-192 | the same instant at twice the timescale is neither less nor greater, yet not `==` |
| AVTime.FramesOfFrameStart | avtime.cpp:71-93 | the start tick of frame f counts f frames; a non-negative time lies between the start of its frame and the start of the next |
| AVTime.FromFrameRoundTrip | avtime.cpp:30-35 | a time made from frame f counts f frames |
| AVTime.Examples24 | avtime.cpp:71-93 | at 24 fps and timescale 24000, a frame is 1000 ticks, 12000 ticks are frame 12, and frame 12 starts at tick 12000 |
| AVTime.Examples23_976 | avtime.cpp:83-119 | at 23.976 fps a frame is 1001 ticks; 2544542 ticks are frame 2542 and read `01:46`; frame 2541 round-trips |
| AVTime.TpfTieExample | avtime.cpp:83-87 | at 47.952 fps and timescale 24000 a frame is 501 ticks, the exact 500.5 rounded away from zero |
| AVTime.Examples29_97 | avtime.cpp:71-93 | at 29.97 fps, 16016 ticks at 30000 are frame 16; at 24000, frames 2 and 5 start at ticks 1602 and 4005 |
| AVTime.TimeHandle.Default | avtime.cpp:8-20 | a default time is 0 ticks at 24000 and 24 fps |
| AVTime.TimeHandle.constructor | avtime.cpp:22-28 | the three parts are stored |
| AVTime.TimeHandle.SetTicks | avtime.cpp:136-145 | only the ticks change |
| AVTime.TimeHandle.SetTimescale | avtime.cpp:147-156 | only the timescale changes; the time is valid exactly when the new timescale is positive |
| AVTime.TimeHandle.SetFps | avtime.cpp:158-167 | only the rate changes |
| AVTime.TimeHandle.Invalidate | avtime.cpp:121-129 | the time becomes 0 ticks at timescale 0 with the default rate, and is not valid |
| AVTimeRange.Make | avtimerange.cpp:21-27 | the caller must give equal timescales; start and duration are stored |
| AVTimeRange.End | avtimerange.cpp:48-51 | the end is start plus duration in ticks, at the start's timescale and rate |
| AVTimeRange.Clamp | avtimerange.cpp:57 | `qBound` keeps a value inside `[lo, hi]`, leaves values in range alone, and falls back to `lo` when `hi < lo` |
| AVTimeRange.Bound | avtimerange.cpp:53-58 | for a non-negative duration the ticks are clamped into `[start, end]`, end included: ticks before the start give the start, ticks after the end give the end, ticks already there are kept; a negative duration always gives the start |
| AVTimeRange.BoundIdempotent | avtimerange.cpp:53-58 | bounding twice is bounding once |
| AVTimeRange.BoundAndContains | avtimerange.cpp:53-64 | a contained time is not moved by `bound`, and a bounded time is contained or at the end |
| AVTimeRange.Contains | avtimerange.cpp:60-64 | `start <= time < end`, compared in seconds (partner: `ContainsSameTimescale`) |
| AVTimeRange.Overlaps | avtimerange.cpp:66-70 | neither range ends at or before the other starts (partners: `OverlapsSymmetric`, `OverlapsIffCommonTick`) |
| AVTimeRange.Valid | avtimerange.cpp:78-81 | both times valid and a positive duration (partner: `ValidRangeBounds`) |
| AVTimeRange.Equal | avtimerange.cpp:110-114 | equal starts and equal durations (partner: `EqualRangesContainAlike`) |
| AVTimeRange.ToString | avtimerange.cpp:72-76 | the start's text, ` / `, the duration's text (partner: `ToStringReadsBack`) |
| AVTimeRange.ContainsSameTimescale | avtimerange.cpp:60-64 | at the range's timescale, `contains` is the half-open tick interval `[start, end)` |
| AVTimeRange.OverlapsSymmetric | avtimerange.cpp:66-70 | `a.overlaps(b)` exactly when `b.overlaps(a)` |
| AVTimeRange.OverlapsIffCommonTick | avtimerange.cpp:66-70 | two valid ranges on one timescale overlap exactly when some tick lies in both |
| AVTimeRange.ValidRangeBounds | avtimerange.cpp:78-81 | a valid range contains its start and not its end |
| AVTimeRange.EqualRangesContainAlike | avtimerange.cpp:110-114 | ranges that are `==` contain the same times |
| AVTimeRange.ToStringReadsBack | avtimerange.cpp:72-76 | the text `<start> / <duration>` reads back as the whole seconds of each |
| AVTimeRange.Example | avtimerange.cpp:48-51 | 384000 ticks at 48000 scaled to 24000 are 192000, and a range starting at 12000 with that duration ends at 204000 |
| AVTimeRange.TimeRangeHandle.Default | avtimerange.cpp:16-19 | a default range has the default start and duration |
| AVTimeRange.TimeRangeHandle.constructor | avtimerange.cpp:21-27 | equal timescales are required; start and duration are stored |
| AVTimeRange.TimeRangeHandle.SetStart | avtimerange.cpp:83-90 | only the start changes |
| AVTimeRange.TimeRangeHandle.SetDuration | avtimerange.cpp:92-99 | only the duration changes; with valid times the range is valid exactly when the new duration is positive |
| AVSmpteTime.ClearSign | avsmptetime.cpp:56 | `minutes & ~0x80` leaves no sign bit and keeps minutes below 0x80 |
| AVSmpteTime.SetSignBit | avsmptetime.cpp:127-129 | setting bit 0x80 on minutes below 60 marks them negative, and clearing it gives the minutes back |
| AVSmpteTime.DropAdjust | avsmptetime.cpp:99-112 | the drop-frame adjustment is even and at least 18 per whole `600·Q − 18`-frame block |
| AVSmpteTime.Arrange | avsmptetime.cpp:113-129 | seconds are the total mod 60 and minutes the total / 60 mod 60; hours are total / 3600, taken mod 24 under the wrap and mirrored to 23 − (h mod 24) for a negative count when negatives are not allowed; the sign bit is set exactly for a negative count, unless the wrap is on and negatives are not allowed |
| AVSmpteTime.Decompose | avsmptetime.cpp:86-130 | frames below Q, seconds and unsigned minutes below 60, hours below 24 under the wrap; the sign bit set exactly when the frame is negative and negatives are kept (partners: `WrapBackMirrorsHours`, `NonDropRoundTrip`) |
| AVSmpteTime.LabelCount | avsmptetime.cpp:45-83 | the frame count the labels spell at the nominal rate, less the drop-frame correction, negated under bit 0x80 (partners: `DropFrameCount`, `NonDropRoundTrip`, `SmpteTime.Frame`) |
| AVSmpteTime.DropFrameCount | avsmptetime.cpp:45-84 | at a drop-frame rate, in-range labels count the spelled frames less two for every minute M = 60h + m that is not a tenth minute |
| AVSmpteTime.DropCorrectionClosed | avsmptetime.cpp:60-80 | `frame()` takes 18 frames per ten-minute block and 2 per further minute |
| AVSmpteTime.NonDropLabels | avsmptetime.cpp:86-130 | at an integer non-drop rate Q, the labels are the count split at Q frames per second |
| AVSmpteTime.ArrangeAllowingNegatives | avsmptetime.cpp:119-129 | when negatives are allowed, the labels are the plain split of the seconds, the sign going to bit 0x80 |
| AVSmpteTime.WrapBackMirrorsHours | avsmptetime.cpp:92-124 | with the 24-hour wrap on and negatives not allowed, a negative frame gets the labels of its magnitude with hours 23 − h and no sign bit |
| AVSmpteTime.NegativeFrameWrapsBack | avsmptetime.cpp:92-129 | under that policy frame −1 at 24 fps is labelled 23:00:00:01: only the hours count back from the end of the day |
| AVSmpteTime.NonDropRoundTrip | avsmptetime.cpp:45-130 | at an integer non-drop rate, `frame()` of the labels `update()` gives for f returns f, sign included; under the wrap this holds for \|f\| < 86400·Q |
| AVSmpteTime.HourOffsetExample | avsmptetime.cpp:86-130 | frame 86496 at 24 fps is labelled 01:00:04:00, counts back to 86496, and reads `01:00:04:00` |
| AVSmpteTime.HourOffsetAt30 | avsmptetime.cpp:86-130 | the same instant at 30 fps, frame 108120, is labelled 01:00:04:00 |
| AVSmpteTime.DropFrameSkippedLabel | avsmptetime.cpp:99-114 | at 29.97 fps, frame 1799 is labelled `00:01:00.01`, a label drop-frame skips |
| AVSmpteTime.DropFrameLabelsStepBack | avsmptetime.cpp:99-118 | at 29.97 fps, frames 17981 and 17982 are labelled 00:10:00.01 and then 00:10:00.00 |
| AVSmpteTime.TimecodeText | avsmptetime.cpp:306-321 | four two-digit fields joined by `:`, with `.` before the frames at a drop-frame rate (partner: `TimecodeTextReadsBack`) |
| AVSmpteTime.TimecodeTextReadsBack | avsmptetime.cpp:306-321 | the text of two-digit labels reads back into the labels, and `.` versus `:` gives back the drop flag |
| AVSmpteTime.ValidFields | avsmptetime.cpp:329-336 | labels in range, non-negative subframes and a positive subframe divisor (partner: `NegativeNotValid`) |
| AVSmpteTime.NegativeNotValid | avsmptetime.cpp:329-336 | a timecode carrying the sign bit is never valid |
| AVSmpteTime.EqualIsUnordered | avsmptetime.cpp:347-368 | timecodes that are `==` at one rate are neither less nor greater |
| AVSmpteTime.TimecodeRoundTrip | avsmptetime.cpp:137-143 | for a frame f within 24 hours at an integer non-drop rate, the time built from f counts f frames, and its labels count back to f |
| AVSmpteTime.SmpteTime.Default | avsmptetime.cpp:30-43 | the defaults: frame 0 at 24 fps, zero labels, 1 subframe, divisor 0, both policies on; not valid |
| AVSmpteTime.SmpteTime.constructor | avsmptetime.cpp:137-143 | the labels are those of the time's frame under the default policies; the divisor stays 0, so the timecode is not valid |
| AVSmpteTime.SmpteTime.Update | avsmptetime.cpp:86-130 | the four labels become `Decompose` of the time's frame under the current policies; nothing else changes |
| AVSmpteTime.SmpteTime.Frame | avsmptetime.cpp:45-84 | the count returned is `LabelCount` of the labels |
| AVSmpteTime.SmpteTime.SetCounter | avsmptetime.cpp:208-215 | only the counter changes: the labels, time, rate, subframes, subframe divisor and both policies are unchanged |
| AVSmpteTime.SmpteTime.SetHours | avsmptetime.cpp:217-224 | only the hours label changes: the other labels, the counter, time, rate, subframes, subframe divisor and both policies are unchanged |
| AVSmpteTime.SmpteTime.SetMinutes | avsmptetime.cpp:226-233 | only the minutes label changes: the other labels, the counter, time, rate, subframes, subframe divisor and both policies are unchanged |
| AVSmpteTime.SmpteTime.SetSeconds | avsmptetime.cpp:235-242 | only the seconds label changes: the other labels, the counter, time, rate, subframes, subframe divisor and both policies are unchanged |
| AVSmpteTime.SmpteTime.SetFrames | avsmptetime.cpp:244-251 | only the frames label changes: the other labels, the counter, time, rate, subframes, subframe divisor and both policies are unchanged |
| AVSmpteTime.SmpteTime.SetSubframes | avsmptetime.cpp:253-260 | only the subframes change: the labels, counter, time, rate, subframe divisor and both policies are unchanged |
| AVSmpteTime.SmpteTime.SetSubframeDivisor | avsmptetime.cpp:262-269 | only the subframe divisor changes: the labels, counter, time, rate, subframes and both policies are unchanged |
| AVSmpteTime.SmpteTime.SetTime | avsmptetime.cpp:271-280 | the time and rate are stored, and the labels are recomputed under the kept policies |
| AVSmpteTime.SmpteTime.SetAllowNegatives | avsmptetime.cpp:282-292 | the policy is stored; the labels are recomputed only when it changes; time, rate, counter, subframes, subframe divisor and the other policy are unchanged |
| AVSmpteTime.SmpteTime.SetMax24Hours | avsmptetime.cpp:294-304 | the policy is stored; the labels are recomputed only when it changes; time, rate, counter, subframes, subframe divisor and the other policy are unchanged |
| AVSmpteTime.SmpteTime.ToTime | avsmptetime.cpp:323-327 | the time is the start of the labelled frame at the timecode's rate |
| AVSmpteTime.SmpteTime.ToString | avsmptetime.cpp:306-321 | the timecode text of the labels and the rate's drop flag (partner: `TimecodeTextReadsBack`) |
| AVSmpteTime.SmpteTime.Equal | avsmptetime.cpp:347-357 | counter, labels, subframes and divisor equal; time and rate not compared (partner: `EqualIsUnordered`) |
| AVSmpteTime.SmpteTime.Less | avsmptetime.cpp:365-368 | compares the two `frame()` counts (partner: `EqualIsUnordered`) |
| AVSmpteTime.SmpteTime.Add | avsmptetime.cpp:385-390 | a new timecode at this rate, built from the sum of the two frame counts, with the constructor's counter 0, subframes 1, divisor 0 and both policies on, so it is not valid |
| AVSmpteTime.SmpteTime.Sub | avsmptetime.cpp:392-397 | a new timecode at this rate, built from the difference of the two frame counts, with the constructor's counter 0, subframes 1, divisor 0 and both policies on, so it is not valid |
| AVMetadata.KeyIndex | avmetadata.cpp:49-54 | the position of the first pair with the key, with none before it; it equals the length exactly when the key is absent |
| AVMetadata.Upserted | avmetadata.cpp:64-77 | the list keeps its length when the key is present and grows by one otherwise (partners: `UpsertedFindsValue`, `UpsertedExisting`, `UpsertedNew`, `UpsertedKeepsUnique`) |
| AVMetadata.RemovedFirst | avmetadata.cpp:46-56 | the list shrinks by one when the key is present and is kept otherwise (partners: `RemoveUndoesNewUpsert`, `RemovedFirstUnique`) |
| AVMetadata.UpsertedFindsValue | avmetadata.cpp:64-77 | after `add_pair(k, v)` the key is present and its first pair is `(k, v)` |
| AVMetadata.UpsertedExisting | avmetadata.cpp:70-75 | on a present key, the length and every key are kept in order, and only the first matching pair changes |
| AVMetadata.UpsertedNew | avmetadata.cpp:76 | on a new key, the pair is appended at the end |
| AVMetadata.UpsertedKeepsUnique | avmetadata.cpp:64-77 | unique keys stay unique |
| AVMetadata.RemoveUndoesNewUpsert | avmetadata.cpp:46-77 | removing a key just added to a list without it gives the list back |
| AVMetadata.RemovedFirstUnique | avmetadata.cpp:46-56 | with unique keys, removal leaves the key absent, keeps every other key, and shortens the list by one exactly when the key was present |
| AVMetadata.Metadata.constructor | avmetadata.cpp:15-18 | a new list is empty |
| AVMetadata.Metadata.Clear | avmetadata.cpp:29-33 | the list becomes empty |
| AVMetadata.Metadata.ContainsKey | avmetadata.cpp:35-44 | true exactly when some pair has the key |
| AVMetadata.Metadata.RemoveKey | avmetadata.cpp:46-56 | true exactly when the key was present; the first matching pair is removed and the rest kept in order; otherwise nothing changes |
| AVMetadata.Metadata.AddPair | avmetadata.cpp:64-77 | the list becomes the upserted list; the key is present afterwards, and unique keys stay unique |
| DropFrameTimecode.Normalised | test.py:14-19 | the frame number moved into one day: below the day's length and differing from the input by whole days; an in-range input is kept |
| DropFrameTimecode.RoundHalfEven | test.py:6 | Python's `round`: within half of the real, a tie going to the even integer |
| DropFrameTimecode.ScriptRates | test.py:6-12 | the five constants as the script derives them; `frames_per_minute` is `round(framerate * 60) - drop_frames` (partner: `ScriptRatesNtsc`) |
| DropFrameTimecode.Adjustment | test.py:22-28 | the frames added before splitting as written, `drop_frames * d` in the else branch (partners: `AdjustmentsNonNegative`, `ElseBranchSteppedBack`) |
| DropFrameTimecode.AdjustmentFixed | test.py:22-28 | the adjustment with `9 * drop_frames * d` in both branches (partners: `AdjustmentFixedStep`, `MinuteConstantSteppedBack`) |
| DropFrameTimecode.AdjustmentsNonNegative | test.py:22-28 | the adjustment is never negative, and the script's adjustment never exceeds the corrected one |
| DropFrameTimecode.Split | test.py:30-34 | frames below `fr_round`, seconds and minutes below 60, hours not negative |
| DropFrameTimecode.SplitSpellsCount | test.py:30-34 | the four fields spell the count back at `fr_round` frames per second |
| DropFrameTimecode.Format | test.py:36 | four two-digit fields joined by `:` (partner: `FormatReadsBack`) |
| DropFrameTimecode.FormatReadsBack | test.py:36 | the text reads back into the four fields while hours stay below 100 |
| DropFrameTimecode.CalculateTimecode | test.py:4-36 | the constants are the script's own derivation from the rate, and the text is the formatted split of the normalised frame plus the script's adjustment |
| DropFrameTimecode.ElseBranchSteppedBack | test.py:27-28 | at the script's 29.97 constants, frame 17981 reads 00:10:00:01 and frame 17982 steps back to 00:09:59:14 |
| DropFrameTimecode.ScriptRatesNtsc | test.py:6-12 | at 29.97 the script derives (2, 107892, 17982, 1796, 30), at 59.94 (4, 215784, 35964, 3592, 60) |
| DropFrameTimecode.MinuteConstantSteppedBack | test.py:12 | with the else branch corrected but the script's `frames_per_minute`, the constants are inconsistent and frame 17981 (00:10:00:01) still labels after frame 17982 (00:10:00:00) |
| DropFrameTimecode.FixedRates | test.py:6-12 | the constants with `frames_per_minute` as `round(framerate) * 60 - drop_frames`; the other four are the script's (partner: `FixedRatesNtsc`) |
| DropFrameTimecode.FixedRatesNtsc | test.py:6-12 | with the corrected line 12, the constants at 29.97 and 59.94 are consistent: a ten-minute block is ten minutes of labels plus the dropped frames |
| DropFrameTimecode.FixedTenthMinute | test.py:12-28 | with both corrections, frames 17981 and 17982 read 00:09:59:29 and 00:10:00:00 |
| DropFrameTimecode.AdjustmentFixedStep | test.py:22-28 | with the corrected adjustment and consistent constants (as the corrected line 12 gives), the next frame never gets a smaller adjustment |
| DropFrameTimecode.LabelledFixedIncreasing | test.py:22-28 | with the corrected adjustment and consistent constants, later frames get strictly later labelled counts |
| DropFrameTimecode.FixedLabelsIncreasing | test.py:12-28 | with both corrections, at 29.97 and at 59.94 later frames get strictly later labelled counts |

## Left out

- Copy-on-write sharing (`QExplicitlySharedDataPointer`, `ref`, `detach`) is not modelled; every type is a value.
  - Hence not modelled: `AVTime(other, fps)` writing the rate into data it shares (avtime.cpp:44-48).
  - Hence not modelled: `set_dropframe` and `AVMetadata::clear`/`remove_key` changing shared data without detaching.
  - Hence not modelled: `AVSmpteTime::operator=` copying into the shared record (avsmptetime.cpp:338-345).
- Fixed-width integers are unbounded here. Not modelled:
  - overflow of `qint64` products;
  - `to_frame_quanta` narrowing to `qint16`;
  - the `qint16` labels and the `quint32` counter.
- Floating point is modelled as exact rationals:
  - a ratio of integers (`to_real`, `to_seconds`, `seconds()`, the rate in `update`) is a Dafny `real`;
  - `guess` and `AVTime(seconds, fps)` take an exact real;
  - IEEE rounding of these values is not modelled.
- `AVFps::to_string()` and `operator double()` are not modelled. `to_string` formats a `qreal` with `QString::arg`; `operator double()` is `to_real`, which the model's `Real` already covers.
- Field getters are not separate members; they are the datatype fields and class fields.
  - This includes `numerator`, `ticks`, `start`, `hours` and `AVMetadata::data()`.
- The `operator!=` of each type is not a separate member; it is the negation of `==`.
- `AVTime::scale` declares a default timescale of 24000 (avtime.h:41). `AVTime.Scale` always takes the timescale as an explicit argument, and no call in these sources relies on the default.
- Divisions by zero are preconditions, not modelled paths: a zero denominator, zero ticks per frame, zero `fr_round`.
  - In the source they give IEEE infinities or undefined behaviour.
- AVSmpteTime.Decompose, `SmpteTime.Update` and `SetTime` require a positive denominator and a nominal rate of at least one frame per second.
  - `valid()` accepts a negative denominator (avfps.cpp:89-92), but such a rate has a nominal rate of zero or less (`NegativeDenominatorQuanta`).
  - At zero, `update()` divides by zero. A negative nominal rate is not modelled: dividing by the negative real rate would make the seconds, minutes and hours negative.
- `AVFps.Default`: `drop_frame` is left uninitialised by `AVFps()`. It is taken as false here.
- `DropFrameTimecode.CalculateTimecode`: the rate is an exact real, so the products in the constants carry no IEEE rounding; no tie arises at 29.97 or 59.94.
  - The command-line part of the script is not modelled.
- `AVSmpteTime.DropFrameCount` is stated for labels in range, with frames 00 and 01 unused at the start of non-tenth minutes. Other labels fall back to the general `LabelCount`.
- `AVSmpteTime.NonDropRoundTrip` is stated for integer non-drop rates.
  - At a drop-frame rate, `update()` divides by the real rate and `frame()` by the nominal one, so the two do not invert each other.
  - `DropFrameLabelsStepBack` shows this.
- `AVTime.ToStringReadsBack` is stated for non-negative times. A negative time's minutes and seconds each carry their own minus sign.

## Findings

| source | as written | input that shows it | evidently intended | confidence | as-written member | corrected member |
|---|---|---|---|---|---|---|
| test.py:27-28 | in the first `drop_frames` frames of a ten-minute block, the adjustment is `drop_frames * d` | rate 29.97, constants (2, 107892, 17982, 1796, 30): frame 17981 gives `00:10:00:01`, and frame 17982 gives `00:09:59:14`, earlier | `drop_frames * 9 * d`, as in the other branch; with the line-12 correction below, labels never step back | not executed | DropFrameTimecode.ElseBranchSteppedBack | DropFrameTimecode.FixedLabelsIncreasing |
| test.py:12 | `frames_per_minute = round(framerate * 60) - drop_frames`, 1796 at 29.97, so ten such minutes plus the drops (17962) fall short of `frames_per_10_minutes` (17982) | rate 29.97 with only line 28 corrected: frame 17981 gives `00:10:00:01`, and frame 17982 gives `00:10:00:00`, earlier | `round(framerate) * 60 - drop_frames`, 1798 at 29.97 and 3596 at 59.94, which makes the constants consistent, so labels never step back | not executed | DropFrameTimecode.MinuteConstantSteppedBack | DropFrameTimecode.FixedLabelsIncreasing |

Three more places where the code does not match the repository's test drivers are modelled as written, without a correction:

- `AVSmpteTimePrivate::update` compares the rest of a ten-minute block with 60 × the rational rate, and divides by the rational rate rather than by the nominal Q (avsmptetime.cpp:106-107, 114).
  - At 29.97 fps, frame 1799 gets the label `00:01:00.01`, which drop-frame never uses.
  - The labels step back from 00:10:00.01 to 00:10:00.00 between frames 17981 and 17982.
- `AVTime::scale` rounds away from zero at every step.
  - 16016 ticks at 30000, rescaled to 24000 and back, become 16017 and not 16016 (test.cpp:43-53).
- At 29.97 fps and timescale 24000 a frame is 801 ticks, so frame 5 starts at tick 4005. test.cpp:123 expects 4004.
