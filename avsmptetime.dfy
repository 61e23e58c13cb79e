/** AVSmpteTime: a time split into hours, minutes, seconds and frames labels,
    and the frame count rebuilt from such labels. The sign of a negative
    timecode is carried as bit 0x80 of `minutes`. */
module AVSmpteTime {
  import opened IntMath
  import opened Text
  import F = AVFps
  import T = AVTime

  /** The bit of `minutes` that marks a negative timecode. */
  const SignBit: int := 0x80

  /** `minutes & 0x80`, on the two's complement representation. */
  predicate HasSignBit(m: int)
  {
    m % 256 >= SignBit
  }

  /** `minutes & ~0x80`. */
  function ClearSign(m: int): (r: int)
    ensures !HasSignBit(r)
    ensures r == m || r == m - SignBit
    ensures 0 <= m < SignBit ==> r == m
  {
    if HasSignBit(m) then m - SignBit else m
  }

  /** `minutes |= 0x80` on minutes that are a count below 60: the bit is set, the count kept. */
  lemma SetSignBit(m: int)
    requires 0 <= m < 60
    ensures HasSignBit(m + SignBit) && ClearSign(m + SignBit) == m && !HasSignBit(m)
  {
  }

  /** The four labels of a timecode. */
  datatype Labels = Labels(hours: int, minutes: int, seconds: int, frames: int)

  /** A rate `update()` can split by: positive on both sides and at least one
      frame per second nominally (it divides by the nominal rate). */
  predicate SplitRate(fps: F.Fps)
  {
    F.Positive(fps) && F.FrameQuanta(fps) >= 1
  }

  /** What `update()` needs: a valid time (its `Q_ASSERT`), a rate it can split
      by, and a time that can be counted in frames of that rate. */
  predicate Ready(time: T.Time, fps: F.Fps)
  {
    T.Valid(time) && SplitRate(fps) && T.TpfAt(time.timescale, fps) != 0
  }

  /** What `frame()` needs: a valid rate (its `Q_ASSERT`) whose nominal rate
      exists, and is not zero where the drop-frame branch divides by it. */
  predicate CountRate(fps: F.Fps)
  {
    F.Valid(fps) && fps.denominator != 0 && (fps.dropFrame ==> F.FrameQuanta(fps) != 0)
  }

  /** The frames `update()` adds to a non-negative count before splitting it
      at a drop-frame rate: 18 per whole block of `600·Q − 18` frames, and, once
      the rest of the block reaches one minute at the rate `n/d`, two more per
      further `60·Q − 2` frames, plus two. Only pairs are added. */
  function DropAdjust(count: nat, fps: F.Fps): (r: nat)
    requires SplitRate(fps)
    ensures r % 2 == 0
    ensures r >= 18 * (count / (600 * F.FrameQuanta(fps) - 18))
  {
    var q := F.FrameQuanta(fps);
    var fpm := q * 60 - 2;
    var fpm10 := q * 10 * 60 - 9 * 2;
    DivModNat(count, fpm10);
    var num10s: nat := count / fpm10;
    var left: nat := count % fpm10;
    if left * fps.denominator >= 60 * fps.numerator then
      var over := left * fps.denominator - 60 * fps.numerator;
      DivModNat(over, fps.denominator);
      var rest: nat := over / fps.denominator;
      DivModNat(rest, fpm);
      var num1s: nat := rest / fpm;
      EvenBlocks(num10s, num1s + 1);
      num10s * 18 + (num1s + 1) * 2
    else
      EvenBlocks(num10s, 0);
      num10s * 18
  }

  lemma EvenBlocks(a: nat, b: nat)
    ensures (a * 18 + b * 2) % 2 == 0 && a * 18 + b * 2 >= 18 * a
  {
    DivModUnique(a * 18 + b * 2, 2, a * 9 + b, 0);
  }

  /** `update()`: the labels for frame `frame`. The magnitude, adjusted for
      dropped labels at a drop-frame rate, gives the frames label modulo the
      nominal rate Q, and the whole seconds by dividing by the rate `n/d`; the
      seconds split into seconds, minutes and hours, hours wrapping at 24
      under `max24Hours`. A negative frame sets the sign bit, except that with
      `max24Hours` and not `allowNegatives` it counts back from hour 23 instead. */
  function Decompose(frame: int, fps: F.Fps, allowNegatives: bool, max24Hours: bool): (l: Labels)
    requires SplitRate(fps)
    ensures 0 <= l.frames < F.FrameQuanta(fps)
    ensures 0 <= l.seconds < 60
    ensures 0 <= ClearSign(l.minutes) < 60
    ensures l.hours >= 0 && (max24Hours ==> l.hours < 24)
    ensures HasSignBit(l.minutes) <==> frame < 0 && !(max24Hours && !allowNegatives)
  {
    var labelled := LabelledCount(Abs(frame), fps);
    DivModNat(labelled, F.FrameQuanta(fps));
    DivModNat(labelled * fps.denominator, fps.numerator);
    Arrange(labelled * fps.denominator / fps.numerator, labelled % F.FrameQuanta(fps),
            frame < 0, allowNegatives, max24Hours)
  }

  /** The magnitude of a frame number with the dropped labels added back. */
  function LabelledCount(count: nat, fps: F.Fps): nat
    requires SplitRate(fps)
  {
    if fps.dropFrame then count + DropAdjust(count, fps) else count
  }

  /** The end of `update()`: whole seconds `total` split into seconds, minutes
      and hours, with the hour wrap and the sign bit the policies ask for. */
  function Arrange(total: nat, frames: int, negative: bool, allowNegatives: bool, max24Hours: bool): (l: Labels)
    ensures l.frames == frames
    ensures 0 <= l.seconds < 60
    ensures 0 <= ClearSign(l.minutes) < 60
    ensures l.hours >= 0 && (max24Hours ==> l.hours < 24)
    ensures HasSignBit(l.minutes) <==> negative && !(max24Hours && !allowNegatives)
    ensures l.seconds == total % 60 && ClearSign(l.minutes) == total / 60 % 60
    ensures max24Hours && negative && !allowNegatives ==> l.hours == 23 - total / 60 / 60 % 24
    ensures max24Hours && !(negative && !allowNegatives) ==> l.hours == total / 60 / 60 % 24
    ensures !max24Hours ==> l.hours == total / 60 / 60
  {
    var seconds := total % 60;
    var minutes := total / 60 % 60;
    var hours := total / 60 / 60;
    SetSignBit(minutes);
    if max24Hours && negative && !allowNegatives then
      Labels(23 - hours % 24, minutes, seconds, frames)
    else if max24Hours then
      Labels(hours % 24, if negative then minutes + SignBit else minutes, seconds, frames)
    else
      Labels(hours, if negative then minutes + SignBit else minutes, seconds, frames)
  }

  /** The count the labels spell at nominal rate Q, with no frames dropped. */
  function Spelled(l: Labels, q: int): int
  {
    l.frames + l.seconds * q + ClearSign(l.minutes) * q * 60 + l.hours * q * 60 * 60
  }

  /** `frame()`'s correction of a spelled count at a drop-frame rate: two
      labels less per minute except every tenth, and at the start of a minute
      the skipped labels 00 and 01 count one or two less. */
  function DropCorrection(frame: int, q: int): int
    requires q != 0
  {
    var fpm := q * 60;
    var fpm10 := fpm * 10;
    var num10s := TruncDiv(frame, fpm10);
    var left := TruncMod(frame, fpm10);
    if left > 1 then
      var num1s := TruncDiv(left, fpm);
      if num1s > 0 then
        var rest := TruncMod(left, fpm);
        -num10s * (9 * 2) - (num1s - 1) * 2 - (if rest > 1 then 2 else rest + 1)
      else
        -num10s * (9 * 2)
    else
      -num10s * (9 * 2)
  }

  /** `frame()`: the frame count the labels stand for; negative when the sign bit is set. */
  function LabelCount(l: Labels, fps: F.Fps): int
    requires CountRate(fps)
  {
    var q := F.FrameQuanta(fps);
    var frame := Spelled(l, q);
    var count := if fps.dropFrame then frame + DropCorrection(frame, q) else frame;
    if HasSignBit(l.minutes) then -count else count
  }

  /** At a drop-frame rate, labels in range (frames 00 and 01 not used at the
      start of a minute other than every tenth) count the spelled frames less
      two for every minute `M = 60·h + m` that is not a multiple of ten. */
  lemma DropFrameCount(l: Labels, fps: F.Fps)
    requires F.Valid(fps) && fps.denominator != 0 && F.FrameQuanta(fps) >= 1 && fps.dropFrame
    requires l.hours >= 0 && 0 <= l.minutes < 60 && 0 <= l.seconds < 60
    requires 0 <= l.frames < F.FrameQuanta(fps)
    requires l.seconds == 0 && l.minutes % 10 != 0 ==> l.frames >= 2
    ensures var M := 60 * l.hours + l.minutes;
      LabelCount(l, fps) == Spelled(l, F.FrameQuanta(fps)) - 2 * (M - M / 10)
  {
    var q := F.FrameQuanta(fps);
    var M := 60 * l.hours + l.minutes;
    var R := l.seconds * q + l.frames;
    MulLe(l.seconds, 59, q);
    if l.seconds >= 1 {
      MulAtLeastFactor(l.seconds, q);
    }
    SpelledByMinute(l, q);
    MinutesInBlock(M, q * 60, R);
    DropCorrectionClosed(Spelled(l, q), q, M / 10, M % 10, R);
    assert !HasSignBit(l.minutes);
    assert LabelCount(l, fps) == Spelled(l, q) + DropCorrection(Spelled(l, q), q);
    assert M == 10 * (M / 10) + M % 10;
  }

  /** `frame()`'s correction of a count of `B` ten-minute blocks, `mm` further
      minutes and `R` frames: 18 per block and 2 per further minute. */
  lemma DropCorrectionClosed(L: int, q: int, B: nat, mm: nat, R: int)
    requires q >= 1 && mm < 10 && 0 <= R < q * 60
    requires L == B * (q * 60 * 10) + (mm * (q * 60) + R)
    requires mm != 0 ==> R >= 1
    ensures DropCorrection(L, q) == -18 * B - 2 * mm
  {
    var fpm := q * 60;
    var left := mm * fpm + R;
    MulLe(mm, 9, fpm);
    MulLe(0, B, fpm * 10);
    DivModUnique(L, fpm * 10, B, left);
    TruncIsEuclidOnNatural(L, fpm * 10);
    DivModUnique(left, fpm, mm, R);
    TruncIsEuclidOnNatural(left, fpm);
  }

  /** The spelled count is whole minutes of `60·Q` frames plus the seconds and frames labels. */
  lemma SpelledByMinute(l: Labels, q: int)
    requires 0 <= l.minutes < 60
    ensures Spelled(l, q) == (60 * l.hours + l.minutes) * (q * 60) + (l.seconds * q + l.frames)
  {
    assert ClearSign(l.minutes) == l.minutes;
    calc {
      (60 * l.hours + l.minutes) * (q * 60);
      l.hours * q * 60 * 60 + l.minutes * q * 60;
    }
  }

  /** Whole minutes split into blocks of ten minutes and the minutes left in the block. */
  lemma MinutesInBlock(M: nat, fpm: int, R: int)
    requires fpm > 0 && 0 <= R < fpm
    ensures M * fpm + R == (M / 10) * (fpm * 10) + ((M % 10) * fpm + R)
    ensures 0 <= (M % 10) * fpm + R < fpm * 10
  {
    assert M == (M / 10) * 10 + M % 10;
    calc {
      M * fpm;
      ((M / 10) * 10 + M % 10) * fpm;
      (M / 10) * (fpm * 10) + (M % 10) * fpm;
    }
    MulLe(M % 10, 9, fpm);
  }

  /** At an integer non-drop rate Q with the default policies, the labels of a
      frame count spell that count back, sign included: for every count when
      hours do not wrap, and for counts within 24 hours when they do. */
  lemma NonDropRoundTrip(frame: int, fps: F.Fps, max24Hours: bool)
    requires fps.denominator == 1 && fps.numerator >= 1 && !fps.dropFrame
    requires max24Hours ==> Abs(frame) < 86400 * fps.numerator
    ensures LabelCount(Decompose(frame, fps, true, max24Hours), fps) == frame
  {
    var q, a := fps.numerator, Abs(frame);
    DivModNat(a, q);
    var total: nat := a / q;
    NonDropLabels(frame, fps, max24Hours);
    if max24Hours {
      DayInSeconds(a, q);
    }
    ArrangeAllowingNegatives(total, a % q, frame < 0, max24Hours);
    var l := Decompose(frame, fps, true, max24Hours);
    SetSignBit(total / 60 % 60);
    assert ClearSign(l.minutes) == total / 60 % 60 && HasSignBit(l.minutes) == (frame < 0);
    SplitCount(a, q);
    assert Spelled(l, q) == a;
    RoundOfExact(q, 1);
  }

  /** At an integer non-drop rate the labels are the count split at Q frames
      per second. */
  lemma NonDropLabels(frame: int, fps: F.Fps, max24Hours: bool)
    requires fps.denominator == 1 && fps.numerator >= 1 && !fps.dropFrame
    ensures var a, q := Abs(frame), fps.numerator;
      Decompose(frame, fps, true, max24Hours) == Arrange(a / q, a % q, frame < 0, true, max24Hours)
  {
    var q, a := fps.numerator, Abs(frame);
    RoundOfExact(q, 1);
    assert LabelledCount(a, fps) == a;
    assert a * fps.denominator == a;
  }

  /** When negatives are allowed the labels are the plain split of the seconds,
      the sign going to the minutes' sign bit. */
  lemma ArrangeAllowingNegatives(total: nat, frames: int, negative: bool, max24Hours: bool)
    requires max24Hours ==> total < 86400
    ensures Arrange(total, frames, negative, true, max24Hours) ==
      Labels(total / 60 / 60, total / 60 % 60 + (if negative then SignBit else 0), total % 60, frames)
  {
  }

  /** With hours wrapping at 24 and negatives not allowed, a negative frame
      gets the labels of its magnitude with the hours mirrored to `23 - h`,
      and no sign bit. */
  lemma WrapBackMirrorsHours(frame: int, fps: F.Fps)
    requires SplitRate(fps) && frame < 0
    ensures var l, p := Decompose(frame, fps, false, true), Decompose(-frame, fps, false, true);
      l == p.(hours := 23 - p.hours) && 0 <= l.hours < 24 && !HasSignBit(l.minutes)
  {
    var l, p := Decompose(frame, fps, false, true), Decompose(-frame, fps, false, true);
    SetSignBit(l.minutes);
    SetSignBit(p.minutes);
  }

  /** Frame -1 at 24 fps under the wrap-back policy is labelled 23:00:00:01:
      only the hours count back from the end of the day. */
  lemma NegativeFrameWrapsBack()
    ensures Decompose(-1, F.Fps24, false, true) == Labels(23, 0, 0, 1)
    ensures TimecodeText(Labels(23, 0, 0, 1), false) == "23:00:00:01"
  {
    RoundOfExact(24, 1);
    assert LabelledCount(1, F.Fps24) == 1;
  }

  /** Fewer than 86400 seconds of frames. */
  lemma DayInSeconds(a: nat, q: int)
    requires q >= 1 && a < 86400 * q
    ensures a / q < 86400
  {
    DivModNat(a, q);
    if a / q >= 86400 {
      MulLe(86400, a / q, q);
    }
  }

  /** A count at integer rate Q is its frames, seconds, minutes and hours labels spelled out. */
  lemma SplitCount(a: nat, q: int)
    requires q >= 1
    ensures var total := a / q;
      a == a % q + (total % 60) * q + (total / 60 % 60) * q * 60 + (total / 60 / 60) * q * 60 * 60
  {
    var total := a / q;
    DivModNat(a, q);
    var s, m, h := total % 60, total / 60 % 60, total / 60 / 60;
    assert total == s + 60 * m + 3600 * h;
    calc {
      total * q;
      (s + 60 * m + 3600 * h) * q;
      s * q + m * q * 60 + h * q * 60 * 60;
    }
  }

  /** Labels for the common 24 fps offset: frame 86496 is 01:00:04:00 and back. */
  lemma HourOffsetExample()
    ensures Decompose(86496, F.Fps24, true, true) == Labels(1, 0, 4, 0)
    ensures LabelCount(Labels(1, 0, 4, 0), F.Fps24) == 86496
    ensures TimecodeText(Labels(1, 0, 4, 0), false) == "01:00:04:00"
  {
    NonDropLabels(86496, F.Fps24, true);
    ArrangeAllowingNegatives(3604, 0, false, true);
    RoundOfExact(24, 1);
  }

  /** The same instant at 30 fps (frame 108120) is labelled 01:00:04:00 too. */
  lemma HourOffsetAt30()
    ensures F.Convert(86496, F.Fps24, F.Fps30) == 108120
    ensures Decompose(108120, F.Fps30, true, true) == Labels(1, 0, 4, 0)
  {
    F.ConvertExample();
    NonDropLabels(108120, F.Fps30, true);
    ArrangeAllowingNegatives(3604, 0, false, true);
  }

  /** `update()` at 29.97 fps as written: frame 1799 is labelled 00:01:00.01,
      the second label that minute skips. */
  lemma DropFrameSkippedLabel()
    ensures Decompose(1799, F.Fps29_97, true, true) == Labels(0, 1, 0, 1)
    ensures TimecodeText(Labels(0, 1, 0, 1), true) == "00:01:00.01"
  {
    assert F.FrameQuanta(F.Fps29_97) == 30;
    assert DropAdjust(1799, F.Fps29_97) == 2;
  }

  /** `update()` at 29.97 fps as written: frames 17981 and 17982 are labelled
      00:10:00.01 and then 00:10:00.00, so the labels step backwards. */
  lemma DropFrameLabelsStepBack()
    ensures Decompose(17981, F.Fps29_97, true, true) == Labels(0, 10, 0, 1)
    ensures Decompose(17982, F.Fps29_97, true, true) == Labels(0, 10, 0, 0)
  {
    assert F.FrameQuanta(F.Fps29_97) == 30;
    assert DropAdjust(17981, F.Fps29_97) == 20;
    assert DropAdjust(17982, F.Fps29_97) == 18;
  }

  /** `to_string()`: the four labels, each at least two digits, joined by `:`;
      the last separator is `.` at a drop-frame rate. */
  function TimecodeText(l: Labels, dropFrame: bool): string
  {
    Pad2(l.hours) + ":" + Pad2(l.minutes) + ":" + Pad2(l.seconds) + (if dropFrame then "." else ":") + Pad2(l.frames)
  }

  /** Reads `HH:MM:SS:FF` or `HH:MM:SS.FF` back into labels and the drop flag. */
  function ParseTimecode(s: string): Option<(Labels, bool)>
  {
    if |s| == 11 && s[2] == ':' && s[5] == ':' && (s[8] == ':' || s[8] == '.')
      && AllDigits(s[0..2]) && AllDigits(s[3..5]) && AllDigits(s[6..8]) && AllDigits(s[9..11]) then
      Some((Labels(ParseNat(s[0..2]), ParseNat(s[3..5]), ParseNat(s[6..8]), ParseNat(s[9..11])), s[8] == '.'))
    else
      None
  }

  /** Two-digit labels and the drop flag read back from the text unchanged. */
  lemma TimecodeTextReadsBack(l: Labels, dropFrame: bool)
    requires 0 <= l.hours < 100 && 0 <= l.minutes < 100 && 0 <= l.seconds < 100 && 0 <= l.frames < 100
    ensures ParseTimecode(TimecodeText(l, dropFrame)) == Some((l, dropFrame))
  {
    var s := TimecodeText(l, dropFrame);
    assert s[0..2] == Pad2(l.hours);
    assert s[3..5] == Pad2(l.minutes);
    assert s[6..8] == Pad2(l.seconds);
    assert s[9..11] == Pad2(l.frames);
  }

  /** `valid()`: hours, minutes and seconds in range, frames and subframes not
      negative, and a positive subframe divisor. */
  predicate ValidFields(l: Labels, subframes: int, subframeDivisor: int)
  {
    0 <= l.hours < 24 && 0 <= l.minutes < 60 && 0 <= l.seconds < 60 &&
    l.frames >= 0 && subframes >= 0 && subframeDivisor > 0
  }

  /** A timecode carrying the sign bit is never valid. */
  lemma NegativeNotValid(l: Labels, subframes: int, subframeDivisor: int)
    requires HasSignBit(l.minutes)
    ensures !ValidFields(l, subframes, subframeDivisor)
  {
  }

  /** An AVSmpteTime object: the private record's fields, updated in place. */
  class SmpteTime {
    var time: T.Time
    var fps: F.Fps
    var counter: int
    var hours: int
    var minutes: int
    var seconds: int
    var frames: int
    var subframes: int
    var subframeDivisor: int
    var allowNegatives: bool
    var max24Hours: bool

    function Fields(): Labels
      reads this
    {
      Labels(hours, minutes, seconds, frames)
    }

    /** `valid()`. */
    predicate Valid()
      reads this
    {
      ValidFields(Fields(), subframes, subframeDivisor)
    }

    /** `AVSmpteTime()`: the private record's defaults. */
    constructor Default()
      ensures time == T.FromFrame(0, F.Fps24) && fps == F.Fps24
      ensures counter == 0 && Fields() == Labels(0, 0, 0, 0)
      ensures subframes == 1 && subframeDivisor == 0 && allowNegatives && max24Hours
      ensures !Valid()
    {
      time := T.Time(0 * T.TpfAt(T.DefaultTimescale, F.Fps24), T.DefaultTimescale, F.Fps24);
      fps := F.Fps24;
      counter := 0;
      hours, minutes, seconds, frames := 0, 0, 0, 0;
      subframes := 1;
      subframeDivisor := 0;
      allowNegatives := true;
      max24Hours := true;
    }

    /** `AVSmpteTime(time, fps)`: the defaults, then `update()`. Since the
        subframe divisor stays 0, the result is never `valid()`. */
    constructor (time: T.Time, fps: F.Fps)
      requires Ready(time, fps)
      ensures this.time == time && this.fps == fps
      ensures Fields() == Decompose(T.FrameAt(time, fps), fps, true, true)
      ensures counter == 0 && subframes == 1 && subframeDivisor == 0 && allowNegatives && max24Hours
      ensures !Valid()
    {
      this.time := time;
      this.fps := fps;
      counter := 0;
      hours, minutes, seconds, frames := 0, 0, 0, 0;
      subframes := 1;
      subframeDivisor := 0;
      allowNegatives := true;
      max24Hours := true;
      new;
      Update();
    }

    /** `AVSmpteTimePrivate::update()`: recomputes the four labels from the
        time's frame at `fps`; nothing else changes. */
    method Update()
      requires Ready(time, fps)
      modifies this
      ensures time == old(time) && fps == old(fps) && counter == old(counter)
      ensures Fields() == Decompose(T.FrameAt(time, fps), fps, allowNegatives, max24Hours)
      ensures subframes == old(subframes) && subframeDivisor == old(subframeDivisor)
      ensures allowNegatives == old(allowNegatives) && max24Hours == old(max24Hours)
    {
      var frame := T.FrameAt(time, fps);
      ghost var count := Abs(frame);
      var framequanta := F.FrameQuanta(fps);
      var isNegative := false;
      if frame < 0 {
        isNegative := true;
        frame := -frame;
      }
      if fps.dropFrame {
        var fpm := framequanta * 60 - 2;
        var fpm10 := framequanta * 10 * 60 - 9 * 2;
        var num10s := frame / fpm10;
        var frameadjust := num10s * (9 * 2);
        var framesleft := frame % fpm10;
        if framesleft * fps.denominator >= 60 * fps.numerator {
          framesleft := (framesleft * fps.denominator - 60 * fps.numerator) / fps.denominator;
          var num1s := framesleft / fpm;
          frameadjust := frameadjust + (num1s + 1) * 2;
        }
        frame := frame + frameadjust;
      }
      assert frame == LabelledCount(count, fps);
      frames := frame % framequanta;
      frame := frame * fps.denominator / fps.numerator;
      seconds := frame % 60;
      frame := frame / 60;
      minutes := frame % 60;
      frame := frame / 60;
      if max24Hours {
        frame := frame % 24;
        if isNegative && !allowNegatives {
          isNegative := false;
          frame := 23 - frame;
        }
      }
      hours := frame;
      if isNegative {
        minutes := minutes + SignBit;
      }
    }

    /** `AVSmpteTimePrivate::frame()`: the frame count the labels stand for. */
    method Frame() returns (frame: int)
      requires T.Valid(time) && CountRate(fps)
      ensures frame == LabelCount(Fields(), fps)
    {
      var framequanta := F.FrameQuanta(fps);
      frame := frames;
      frame := frame + seconds * framequanta;
      frame := frame + ClearSign(minutes) * framequanta * 60;
      frame := frame + hours * framequanta * 60 * 60;
      var fpm := framequanta * 60;
      if fps.dropFrame {
        var fpm10 := fpm * 10;
        var num10s := TruncDiv(frame, fpm10);
        var frameadjust := -num10s * (9 * 2);
        var framesleft := TruncMod(frame, fpm10);
        if framesleft > 1 {
          var num1s := TruncDiv(framesleft, fpm);
          if num1s > 0 {
            frameadjust := frameadjust - (num1s - 1) * 2;
            framesleft := TruncMod(framesleft, fpm);
            if framesleft > 1 {
              frameadjust := frameadjust - 2;
            } else {
              frameadjust := frameadjust - (framesleft + 1);
            }
          }
        }
        frame := frame + frameadjust;
      }
      if HasSignBit(minutes) {
        frame := -frame;
      }
    }

    /** `set_counter`. */
    method SetCounter(counter: int)
      modifies this
      ensures this.counter == counter && Fields() == old(Fields())
      ensures time == old(time) && fps == old(fps)
      ensures subframes == old(subframes) && subframeDivisor == old(subframeDivisor)
      ensures allowNegatives == old(allowNegatives) && max24Hours == old(max24Hours)
    {
      this.counter := counter;
    }

    /** `set_hours`. */
    method SetHours(hours: int)
      modifies this
      ensures Fields() == old(Fields()).(hours := hours) && counter == old(counter)
      ensures time == old(time) && fps == old(fps)
      ensures subframes == old(subframes) && subframeDivisor == old(subframeDivisor)
      ensures allowNegatives == old(allowNegatives) && max24Hours == old(max24Hours)
    {
      this.hours := hours;
    }

    /** `set_minutes`. */
    method SetMinutes(minutes: int)
      modifies this
      ensures Fields() == old(Fields()).(minutes := minutes) && counter == old(counter)
      ensures time == old(time) && fps == old(fps)
      ensures subframes == old(subframes) && subframeDivisor == old(subframeDivisor)
      ensures allowNegatives == old(allowNegatives) && max24Hours == old(max24Hours)
    {
      this.minutes := minutes;
    }

    /** `set_seconds`. */
    method SetSeconds(seconds: int)
      modifies this
      ensures Fields() == old(Fields()).(seconds := seconds) && counter == old(counter)
      ensures time == old(time) && fps == old(fps)
      ensures subframes == old(subframes) && subframeDivisor == old(subframeDivisor)
      ensures allowNegatives == old(allowNegatives) && max24Hours == old(max24Hours)
    {
      this.seconds := seconds;
    }

    /** `set_frames`. */
    method SetFrames(frames: int)
      modifies this
      ensures Fields() == old(Fields()).(frames := frames) && counter == old(counter)
      ensures time == old(time) && fps == old(fps)
      ensures subframes == old(subframes) && subframeDivisor == old(subframeDivisor)
      ensures allowNegatives == old(allowNegatives) && max24Hours == old(max24Hours)
    {
      this.frames := frames;
    }

    /** `set_subframes`. */
    method SetSubframes(subframes: int)
      modifies this
      ensures this.subframes == subframes && Fields() == old(Fields())
      ensures subframeDivisor == old(subframeDivisor)
      ensures time == old(time) && fps == old(fps) && counter == old(counter)
      ensures allowNegatives == old(allowNegatives) && max24Hours == old(max24Hours)
    {
      this.subframes := subframes;
    }

    /** `set_subframe_divisor`: the only way to make a timecode valid. */
    method SetSubframeDivisor(subframeDivisor: int)
      modifies this
      ensures this.subframeDivisor == subframeDivisor && Fields() == old(Fields())
      ensures subframes == old(subframes)
      ensures time == old(time) && fps == old(fps) && counter == old(counter)
      ensures allowNegatives == old(allowNegatives) && max24Hours == old(max24Hours)
    {
      this.subframeDivisor := subframeDivisor;
    }

    /** `set_time(time, fps)`: stores both and recomputes the labels. */
    method SetTime(time: T.Time, fps: F.Fps)
      requires Ready(time, fps)
      modifies this
      ensures this.time == time && this.fps == fps
      ensures Fields() == Decompose(T.FrameAt(time, fps), fps, allowNegatives, max24Hours)
      ensures allowNegatives == old(allowNegatives) && max24Hours == old(max24Hours)
      ensures counter == old(counter) && subframes == old(subframes) && subframeDivisor == old(subframeDivisor)
    {
      this.time := time;
      this.fps := fps;
      Update();
    }

    /** `set_allow_negatives`: recomputes the labels only when the policy changes. */
    method SetAllowNegatives(allowNegatives: bool)
      requires allowNegatives != this.allowNegatives ==> Ready(time, fps)
      modifies this
      ensures this.allowNegatives == allowNegatives && max24Hours == old(max24Hours)
      ensures time == old(time) && fps == old(fps) && counter == old(counter)
      ensures subframes == old(subframes) && subframeDivisor == old(subframeDivisor)
      ensures old(this.allowNegatives) == allowNegatives ==> Fields() == old(Fields())
      ensures old(this.allowNegatives) != allowNegatives ==>
        Fields() == Decompose(T.FrameAt(time, fps), fps, allowNegatives, max24Hours)
    {
      if this.allowNegatives != allowNegatives {
        this.allowNegatives := allowNegatives;
        Update();
      }
    }

    /** `set_max24hours`: recomputes the labels only when the policy changes. */
    method SetMax24Hours(max24Hours: bool)
      requires max24Hours != this.max24Hours ==> Ready(time, fps)
      modifies this
      ensures this.max24Hours == max24Hours && allowNegatives == old(allowNegatives)
      ensures time == old(time) && fps == old(fps) && counter == old(counter)
      ensures subframes == old(subframes) && subframeDivisor == old(subframeDivisor)
      ensures old(this.max24Hours) == max24Hours ==> Fields() == old(Fields())
      ensures old(this.max24Hours) != max24Hours ==>
        Fields() == Decompose(T.FrameAt(time, fps), fps, allowNegatives, max24Hours)
    {
      if this.max24Hours != max24Hours {
        this.max24Hours := max24Hours;
        Update();
      }
    }

    /** `to_string()`. */
    function ToString(): string
      reads this
    {
      TimecodeText(Fields(), fps.dropFrame)
    }

    /** `to_time()`: the start of the labelled frame, at the timecode's rate. */
    method ToTime() returns (t: T.Time)
      requires T.Valid(time) && CountRate(fps)
      ensures t == T.FromFrame(LabelCount(Fields(), fps), fps)
    {
      var frame := Frame();
      t := T.FromFrame(frame, fps);
    }

    /** `operator==`: counter and the labels; neither the time nor the rate is compared. */
    predicate Equal(other: SmpteTime)
      reads this, other
    {
      counter == other.counter && Fields() == other.Fields() &&
      subframes == other.subframes && subframeDivisor == other.subframeDivisor
    }

    /** `operator<`: by `frame()`. */
    predicate Less(other: SmpteTime)
      reads this, other
      requires CountRate(fps) && CountRate(other.fps)
    {
      LabelCount(Fields(), fps) < LabelCount(other.Fields(), other.fps)
    }

    /** `operator+`: the sum of the two frame counts, as a new timecode at this rate. */
    method Add(other: SmpteTime) returns (r: SmpteTime)
      requires T.Valid(time) && T.Valid(other.time) && CountRate(other.fps)
      requires Ready(T.Time(0, T.DefaultTimescale, fps), fps)
      ensures fresh(r) && r.fps == fps
      ensures r.counter == 0 && r.subframes == 1 && r.subframeDivisor == 0 && r.allowNegatives && r.max24Hours
      ensures !r.Valid()
      ensures var total := LabelCount(Fields(), fps) + LabelCount(other.Fields(), other.fps);
        r.time == T.FromFrame(total, fps) && r.Fields() == Decompose(total, fps, true, true)
    {
      var a := Frame();
      var b := other.Frame();
      var time := T.FromFrame(a + b, fps);
      T.FromFrameRoundTrip(a + b, fps);
      r := new SmpteTime(time, fps);
    }

    /** `operator-`: the difference of the two frame counts, as a new timecode at this rate. */
    method Sub(other: SmpteTime) returns (r: SmpteTime)
      requires T.Valid(time) && T.Valid(other.time) && CountRate(other.fps)
      requires Ready(T.Time(0, T.DefaultTimescale, fps), fps)
      ensures fresh(r) && r.fps == fps
      ensures r.counter == 0 && r.subframes == 1 && r.subframeDivisor == 0 && r.allowNegatives && r.max24Hours
      ensures !r.Valid()
      ensures var total := LabelCount(Fields(), fps) - LabelCount(other.Fields(), other.fps);
        r.time == T.FromFrame(total, fps) && r.Fields() == Decompose(total, fps, true, true)
    {
      var a := Frame();
      var b := other.Frame();
      var time := T.FromFrame(a - b, fps);
      T.FromFrameRoundTrip(a - b, fps);
      r := new SmpteTime(time, fps);
    }
  }

  /** Equal timecodes at one rate are unordered. */
  lemma EqualIsUnordered(a: SmpteTime, b: SmpteTime)
    requires CountRate(a.fps) && a.fps == b.fps && a.Equal(b)
    ensures !a.Less(b) && !b.Less(a)
  {
  }

  /** A timecode built from frame `f` of an integer non-drop rate, within 24
      hours, rebuilds `f`: the time at the default timescale counts `f` frames,
      and the labels spell it back. */
  lemma TimecodeRoundTrip(f: int, fps: F.Fps)
    requires fps.denominator == 1 && fps.numerator >= 1 && !fps.dropFrame
    requires T.TpfAt(T.DefaultTimescale, fps) != 0 && Abs(f) < 86400 * fps.numerator
    ensures T.FrameAt(T.FromFrame(f, fps), fps) == f
    ensures LabelCount(Decompose(T.FrameAt(T.FromFrame(f, fps), fps), fps, true, true), fps) == f
  {
    T.FromFrameRoundTrip(f, fps);
    NonDropRoundTrip(f, fps, true);
  }
}
