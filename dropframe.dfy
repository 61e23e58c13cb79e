/** `calculate_timecode` in test.py: a drop-frame frame number turned into
    `HH:MM:SS:FF`. The constants the script derives from its floating-point
    frame rate are taken here as integers. */
module DropFrameTimecode {
  import opened IntMath
  import opened Text
  import S = AVSmpteTime

  /** The script's derived constants: `drop_frames`, `frames_per_hour`,
      `frames_per_10_minutes`, `frames_per_minute` and `fr_round`. */
  datatype Rates = Rates(dropFrames: int, framesPerHour: int, framesPer10Minutes: int,
                         framesPerMinute: int, frRound: int)

  /** Python's `round` on a float: the nearest integer, a tie going to the even one. */
  function RoundHalfEven(x: real): (n: int)
    ensures -0.5 <= x - n as real <= 0.5
    ensures (x - n as real == 0.5 || n as real - x == 0.5) ==> n % 2 == 0
  {
    var f := x.Floor;
    var e := x - f as real;
    if e < 0.5 then f
    else if e > 0.5 then f + 1
    else if f % 2 == 0 then f
    else f + 1
  }

  /** The constants as the script derives them from `framerate`; the frame rate
      products are taken as exact reals. `frames_per_minute` is
      `round(framerate * 60) - drop_frames`. */
  function ScriptRates(framerate: real): (r: Rates)
    ensures r.framesPerMinute == RoundHalfEven(framerate * 60.0) - r.dropFrames
  {
    var dropFrames := RoundHalfEven(framerate * 0.066666);
    Rates(dropFrames, RoundHalfEven(framerate * 60.0 * 60.0), RoundHalfEven(framerate * 60.0 * 10.0),
          RoundHalfEven(framerate * 60.0) - dropFrames, RoundHalfEven(framerate))
  }

  /** The constants as evidently intended: a minute of labels holds
      `round(framerate) * 60` frames, less the dropped ones. */
  function FixedRates(framerate: real): (r: Rates)
    ensures r.framesPerMinute == RoundHalfEven(framerate) * 60 - r.dropFrames
    ensures r.frRound == ScriptRates(framerate).frRound
  {
    var dropFrames := RoundHalfEven(framerate * 0.066666);
    Rates(dropFrames, RoundHalfEven(framerate * 60.0 * 60.0), RoundHalfEven(framerate * 60.0 * 10.0),
          RoundHalfEven(framerate) * 60 - dropFrames, RoundHalfEven(framerate))
  }

  /** Constants of a positive frame rate: the loop ends, and no division is by zero. */
  predicate Usable(r: Rates)
  {
    r.dropFrames >= 0 && r.framesPerHour > 0 && r.framesPer10Minutes > 0 &&
    r.framesPerMinute > 0 && r.frRound > 0
  }

  /** `frames_per_24_hours`. */
  function FramesPerDay(r: Rates): int
  {
    r.framesPerHour * 24
  }

  /** The frame number rolled into one day: what the `while` loop and the
      modulo leave. */
  function Normalised(frame: int, r: Rates): (n: nat)
    requires Usable(r)
    ensures n < FramesPerDay(r)
    ensures (frame - n) % FramesPerDay(r) == 0
    ensures 0 <= frame < FramesPerDay(r) ==> n == frame
  {
    RollIntoPeriod(frame, FramesPerDay(r));
    frame % FramesPerDay(r)
  }

  /** The Euclidean remainder differs from the number by a multiple of the period. */
  lemma RollIntoPeriod(x: int, p: int)
    requires p > 0
    ensures 0 <= x % p < p && (x - x % p) % p == 0
    ensures 0 <= x < p ==> x % p == x
  {
    DivModPos(x, p);
    assert x - x % p == (x / p) * p + 0;
    DivModUnique(x - x % p, p, x / p, 0);
    if 0 <= x < p {
      DivModUnique(x, p, 0, x);
    }
  }

  /** Adding one period keeps a multiple of the period a multiple. */
  lemma AddPeriod(x: int, p: int)
    requires p > 0 && x % p == 0
    ensures (x + p) % p == 0
  {
    DivModPos(x, p);
    assert x + p == (x / p + 1) * p + 0;
    DivModUnique(x + p, p, x / p + 1, 0);
  }

  /** The frames the script adds before splitting, as written: in the else
      branch only `drop_frames * d`. */
  function Adjustment(n: nat, r: Rates): (adj: nat)
    requires Usable(r)
  {
    DivModNat(n, r.framesPer10Minutes);
    var d: nat := n / r.framesPer10Minutes;
    var m: nat := n % r.framesPer10Minutes;
    if m > r.dropFrames then
      DivModNat(m - r.dropFrames, r.framesPerMinute);
      r.dropFrames * 9 * d + r.dropFrames * ((m - r.dropFrames) / r.framesPerMinute)
    else
      r.dropFrames * d
  }

  /** The adjustment as evidently intended: `9 * drop_frames * d` in both branches. */
  function AdjustmentFixed(n: nat, r: Rates): (adj: nat)
    requires Usable(r)
  {
    DivModNat(n, r.framesPer10Minutes);
    var d: nat := n / r.framesPer10Minutes;
    var m: nat := n % r.framesPer10Minutes;
    if m > r.dropFrames then
      DivModNat(m - r.dropFrames, r.framesPerMinute);
      r.dropFrames * 9 * d + r.dropFrames * ((m - r.dropFrames) / r.framesPerMinute)
    else
      r.dropFrames * 9 * d
  }

  /** The labelled count is never below the frame number. */
  lemma AdjustmentsNonNegative(n: nat, r: Rates)
    requires Usable(r)
    ensures n + Adjustment(n, r) >= n && n + AdjustmentFixed(n, r) >= n
    ensures Adjustment(n, r) <= AdjustmentFixed(n, r)
  {
    DivModNat(n, r.framesPer10Minutes);
    MulLe(0, n / r.framesPer10Minutes, r.dropFrames);
  }

  /** A labelled count split into hours, minutes, seconds and frames at `fr_round`. */
  function Split(x: nat, frRound: int): (l: S.Labels)
    requires frRound > 0
    ensures 0 <= l.frames < frRound && 0 <= l.seconds < 60 && 0 <= l.minutes < 60 && l.hours >= 0
  {
    DivModNat(x, frRound);
    var secs := x / frRound;
    S.Labels(secs / 60 / 60, secs / 60 % 60, secs % 60, x % frRound)
  }

  /** The split spells the count back at `fr_round` frames per second. */
  lemma SplitSpellsCount(x: nat, frRound: int)
    requires frRound > 0
    ensures S.Spelled(Split(x, frRound), frRound) == x
  {
    S.SplitCount(x, frRound);
  }

  /** The returned text: four fields, each zero-padded to two digits, joined by `:`. */
  function Format(l: S.Labels): string
  {
    S.TimecodeText(l, false)
  }

  /** The text reads back into the four fields while hours stay below 100. */
  lemma FormatReadsBack(l: S.Labels, frRound: int)
    requires 0 <= l.hours < 100 && 0 <= l.minutes < 60 && 0 <= l.seconds < 60
    requires 0 <= l.frames < frRound <= 100
    ensures S.ParseTimecode(Format(l)) == Some((l, false))
  {
    S.TimecodeTextReadsBack(l, false);
  }

  /** `calculate_timecode(frame_number, framerate)`, as written. */
  method CalculateTimecode(frameNumber: int, framerate: real) returns (text: string)
    requires Usable(ScriptRates(framerate))
    ensures var r := ScriptRates(framerate);
      text == Format(Split(Normalised(frameNumber, r) + Adjustment(Normalised(frameNumber, r), r), r.frRound))
  {
    var dropFrames := RoundHalfEven(framerate * 0.066666);
    var framesPerHour := RoundHalfEven(framerate * 60.0 * 60.0);
    var framesPer10Minutes := RoundHalfEven(framerate * 60.0 * 10.0);
    var framesPerMinute := RoundHalfEven(framerate * 60.0) - dropFrames;
    var frRound := RoundHalfEven(framerate);
    var r := Rates(dropFrames, framesPerHour, framesPer10Minutes, framesPerMinute, frRound);
    assert r == ScriptRates(framerate);
    var framesPer24Hours := r.framesPerHour * 24;
    var frame := frameNumber;
    while frame < 0
      invariant (frame - frameNumber) % framesPer24Hours == 0
      invariant frameNumber >= 0 ==> frame == frameNumber
      decreases if frame < 0 then -frame else 0
    {
      AddPeriod(frame - frameNumber, framesPer24Hours);
      frame := frame + framesPer24Hours;
    }
    RemainderOfShift(frameNumber, frame, framesPer24Hours);
    frame := frame % framesPer24Hours;
    var n := Normalised(frameNumber, r);
    assert frame == n;
    var d := frame / r.framesPer10Minutes;
    var m := frame % r.framesPer10Minutes;
    if m > r.dropFrames {
      frame := frame + (r.dropFrames * 9 * d) + r.dropFrames * ((m - r.dropFrames) / r.framesPerMinute);
    } else {
      frame := frame + r.dropFrames * d;
    }
    assert frame == n + Adjustment(n, r);
    var frames := frame % r.frRound;
    var seconds := (frame / r.frRound) % 60;
    var minutes := ((frame / r.frRound) / 60) % 60;
    var hours := ((frame / r.frRound) / 60) / 60;
    assert S.Labels(hours, minutes, seconds, frames) == Split(frame, r.frRound);
    text := Pad2(hours) + ":" + Pad2(minutes) + ":" + Pad2(seconds) + ":" + Pad2(frames);
  }

  /** Numbers that differ by a multiple of `k` leave the same remainder. */
  lemma RemainderOfShift(a: int, b: int, k: int)
    requires k > 0 && (b - a) % k == 0
    ensures b % k == a % k
  {
    var j := (b - a) / k;
    assert b - a == j * k;
    assert b == (a / k + j) * k + a % k;
    DivModUnique(b, k, a / k + j, a % k);
  }

  /** The constants the script derives at 29.97 and at 59.94 frames per second. */
  lemma ScriptRatesNtsc()
    ensures ScriptRates(29.97) == Rates(2, 107892, 17982, 1796, 30)
    ensures ScriptRates(59.94) == Rates(4, 215784, 35964, 3592, 60)
  {
  }

  /** Frame 17981 and the next frame at the script's 29.97 constants: as
      written the labels go from 00:10:00:01 back to 00:09:59:14, since the
      tenth minute gets only `drop_frames * d` frames. */
  lemma ElseBranchSteppedBack()
    ensures var r := ScriptRates(29.97);
      Split(17981 + Adjustment(17981, r), 30) == S.Labels(0, 10, 0, 1) &&
      Split(17982 + Adjustment(17982, r), 30) == S.Labels(0, 9, 59, 14)
  {
    ScriptRatesNtsc();
  }

  /** Correcting the else branch alone is not enough: with the script's
      `frames_per_minute` of 1796 at 29.97, frame 17981 still labels
      00:10:00:01 and frame 17982 00:10:00:00, because a minute of labels holds
      1798 frames, not 1796. */
  lemma MinuteConstantSteppedBack()
    ensures var r := ScriptRates(29.97);
      !Consistent(r) &&
      Split(17981 + AdjustmentFixed(17981, r), 30) == S.Labels(0, 10, 0, 1) &&
      Split(17982 + AdjustmentFixed(17982, r), 30) == S.Labels(0, 10, 0, 0) &&
      17981 + AdjustmentFixed(17981, r) > 17982 + AdjustmentFixed(17982, r)
  {
    ScriptRatesNtsc();
  }

  /** With both corrections the same two frames label 00:09:59:29 and
      00:10:00:00. */
  lemma FixedTenthMinute()
    ensures var r := FixedRates(29.97);
      Split(17981 + AdjustmentFixed(17981, r), 30) == S.Labels(0, 9, 59, 29) &&
      Split(17982 + AdjustmentFixed(17982, r), 30) == S.Labels(0, 10, 0, 0)
  {
    FixedRatesNtsc();
  }

  /** Constants whose ten-minute block is ten minutes plus the dropped frames. */
  predicate Consistent(r: Rates)
  {
    Usable(r) && r.framesPer10Minutes == 10 * r.framesPerMinute + r.dropFrames
  }

  /** With the fix and consistent constants the labelled count never steps
      back: the next frame never has a smaller adjustment. */
  lemma AdjustmentFixedStep(n: nat, r: Rates)
    requires Consistent(r)
    ensures AdjustmentFixed(n, r) <= AdjustmentFixed(n + 1, r)
  {
    var k, D, fpm := r.framesPer10Minutes, r.dropFrames, r.framesPerMinute;
    DivModNat(n, k);
    var d, m := n / k, n % k;
    AdjustmentFixedAt(n, r, d, m);
    if m + 1 < k {
      AdjustmentFixedAt(n + 1, r, d, m + 1);
      InBlockStep(m, D, fpm);
    } else {
      AdjustmentFixedAt(n + 1, r, d + 1, 0);
      LastInBlock(m, D, fpm);
      assert D * 9 * (d + 1) == D * 9 * d + D * 9;
    }
  }

  /** `AdjustmentFixed` in terms of the block `d` and the offset `m` in it. */
  lemma AdjustmentFixedAt(n: nat, r: Rates, d: nat, m: nat)
    requires Usable(r) && m < r.framesPer10Minutes && n == d * r.framesPer10Minutes + m
    ensures AdjustmentFixed(n, r) == r.dropFrames * 9 * d + OffsetAdjust(m, r.dropFrames, r.framesPerMinute)
  {
    DivModUnique(n, r.framesPer10Minutes, d, m);
  }

  /** The frames added for the offset within a ten-minute block. */
  function OffsetAdjust(m: nat, D: int, fpm: int): int
    requires fpm > 0
  {
    if m > D then D * ((m - D) / fpm) else 0
  }

  /** Within a block the offset adjustment never decreases. */
  lemma InBlockStep(m: nat, D: int, fpm: int)
    requires fpm > 0 && D >= 0
    ensures 0 <= OffsetAdjust(m, D, fpm) <= OffsetAdjust(m + 1, D, fpm)
  {
    if m + 1 > D {
      DivModNat(m + 1 - D, fpm);
      MulLe(0, (m + 1 - D) / fpm, D);
      if m > D {
        DivModNat(m - D, fpm);
        DivMonotone(m - D, m + 1 - D, fpm);
        MulLe((m - D) / fpm, (m + 1 - D) / fpm, D);
      }
    }
  }

  /** The last offset of a block adds at most nine minutes' worth of drops. */
  lemma LastInBlock(m: nat, D: int, fpm: int)
    requires fpm > 0 && D >= 0 && m + 1 == 10 * fpm + D
    ensures OffsetAdjust(m, D, fpm) <= D * 9
  {
    if m > D {
      assert m - D == 9 * fpm + (fpm - 1);
      DivModUnique(m - D, fpm, 9, fpm - 1);
    }
  }

  /** With the fix and consistent constants, later frames get later labelled counts. */
  lemma {:induction false} LabelledFixedIncreasing(n: nat, n': nat, r: Rates)
    requires Consistent(r) && n < n'
    ensures n + AdjustmentFixed(n, r) < n' + AdjustmentFixed(n', r)
    decreases n' - n
  {
    AdjustmentFixedStep(n, r);
    if n + 1 < n' {
      LabelledFixedIncreasing(n + 1, n', r);
    }
  }

  /** The corrected constants at 29.97 and 59.94: a ten-minute block is ten
      minutes of labels plus the dropped frames. */
  lemma FixedRatesNtsc()
    ensures FixedRates(29.97) == Rates(2, 107892, 17982, 1798, 30) && Consistent(FixedRates(29.97))
    ensures FixedRates(59.94) == Rates(4, 215784, 35964, 3596, 60) && Consistent(FixedRates(59.94))
  {
  }

  /** With both corrections, later frames get later labelled counts at the two
      drop-frame rates. */
  lemma FixedLabelsIncreasing(n: nat, n': nat)
    requires n < n'
    ensures var r := FixedRates(29.97); n + AdjustmentFixed(n, r) < n' + AdjustmentFixed(n', r)
    ensures var r := FixedRates(59.94); n + AdjustmentFixed(n, r) < n' + AdjustmentFixed(n', r)
  {
    FixedRatesNtsc();
    LabelledFixedIncreasing(n, n', FixedRates(29.97));
    LabelledFixedIncreasing(n, n', FixedRates(59.94));
  }
}
