/** AVTime: a position or duration counted in ticks of a timescale (ticks per
    second), carrying the frame rate its frames are counted at. */
module AVTime {
  import opened IntMath
  import opened Text
  import F = AVFps

  /** The value an AVTime holds (the source's private record). */
  datatype Time = Time(ticks: int, timescale: int, fps: F.Fps)

  /** The timescale `AVTime()` and the frame and seconds constructors use. */
  const DefaultTimescale: int := 24000

  /** `AVTime()`: zero ticks at 24000 ticks per second, 24 fps. */
  const Default: Time := Time(0, DefaultTimescale, F.Fps24)

  /** The state `invalidate()` leaves. */
  const Invalid: Time := Time(0, 0, F.Default)

  /** A rate `tpf` can divide by: `fps.real()` exists and is not zero. */
  predicate RateUsable(fps: F.Fps)
  {
    fps.numerator != 0 && fps.denominator != 0
  }

  /** Ticks per frame at `timescale` and `fps`: `std::round(timescale / fps.real())`. */
  function TpfAt(timescale: int, fps: F.Fps): (r: int)
    requires RateUsable(fps)
    ensures 2 * Abs(timescale * fps.denominator - r * fps.numerator) <= Abs(fps.numerator)
    ensures 2 * Abs(timescale * fps.denominator - r * fps.numerator) == Abs(fps.numerator) ==>
              Abs(r) * Abs(fps.numerator) > Abs(timescale * fps.denominator)
  {
    RoundHalfAway(timescale * fps.denominator, fps.numerator)
  }

  /** `tpf()`. */
  function Tpf(t: Time): int
    requires RateUsable(t.fps)
  {
    TpfAt(t.timescale, t.fps)
  }

  /** `ticks(frame)`: the tick at which frame `frame` starts. */
  function TicksAt(t: Time, frame: int): (r: int)
    requires RateUsable(t.fps)
    ensures Tpf(t) != 0 ==> TruncDiv(r, Tpf(t)) == frame
  {
    if Tpf(t) != 0 then
      TruncDivOfExact(frame, Tpf(t));
      frame * Tpf(t)
    else
      frame * Tpf(t)
  }

  /** `frames()`: whole frames in the tick count, truncated toward zero. */
  function Frames(t: Time): (r: int)
    requires RateUsable(t.fps) && Tpf(t) != 0
    ensures Abs(r) * Abs(Tpf(t)) <= Abs(t.ticks) < (Abs(r) + 1) * Abs(Tpf(t))
    ensures r == 0 || ((r > 0) <==> ((t.ticks > 0) == (Tpf(t) > 0)))
  {
    TruncDiv(t.ticks, Tpf(t))
  }

  /** `frame(fps)`: the frame the time falls in when counted at `fps` instead
      of its own rate. */
  function FrameAt(t: Time, fps: F.Fps): (r: int)
    requires RateUsable(fps) && TpfAt(t.timescale, fps) != 0
    ensures r == Frames(t.(fps := fps))
  {
    TruncDiv(t.ticks, TpfAt(t.timescale, fps))
  }

  /** `seconds()`. */
  function Seconds(t: Time): real
    requires t.timescale != 0
  {
    t.ticks as real / t.timescale as real
  }

  /** `AVTime(ticks, timescale, fps)`. */
  function Make(ticks: int, timescale: int, fps: F.Fps): (r: Time)
    ensures r.ticks == ticks && r.timescale == timescale && r.fps == fps
  {
    Time(ticks, timescale, fps)
  }

  /** `AVTime(frame, fps)`: the start of frame `frame` at the default timescale. */
  function FromFrame(frame: int, fps: F.Fps): (r: Time)
    requires RateUsable(fps)
    ensures r.timescale == DefaultTimescale && r.fps == fps
    ensures r.ticks == TicksAt(Time(0, DefaultTimescale, fps), frame)
  {
    Time(frame * TpfAt(DefaultTimescale, fps), DefaultTimescale, fps)
  }

  /** A whole number of seconds is stored exactly, and reads back as those seconds. */
  lemma FromSecondsWhole(k: int, fps: F.Fps)
    ensures FromSeconds(k as real, fps).ticks == k * DefaultTimescale
    ensures Seconds(FromSeconds(k as real, fps)) == k as real
  {
    assert DefaultTimescale as real * k as real == (k * DefaultTimescale) as real;
  }

  /** `AVTime(seconds, fps)`: `seconds` at the default timescale, truncated to a tick. */
  function FromSeconds(seconds: real, fps: F.Fps): (r: Time)
    ensures r.timescale == DefaultTimescale && r.fps == fps
    ensures Abs(r.ticks) as real <= Abs'(seconds * DefaultTimescale as real) < (Abs(r.ticks) + 1) as real
    ensures r.ticks == 0 || ((r.ticks < 0) <==> (seconds < 0.0))
  {
    Time(TruncReal(DefaultTimescale as real * seconds), DefaultTimescale, fps)
  }

  function Abs'(x: real): real
  {
    if x < 0.0 then -x else x
  }

  /** `AVTime(other, fps)`: `other`'s ticks and timescale at another rate. */
  function WithFps(t: Time, fps: F.Fps): (r: Time)
    ensures r.ticks == t.ticks && r.timescale == t.timescale && r.fps == fps
  {
    t.(fps := fps)
  }

  /** `valid()`. */
  predicate Valid(t: Time)
  {
    t.timescale > 0
  }

  /** `operator==`: ticks and timescale; the rate is not compared. */
  predicate Equal(a: Time, b: Time)
  {
    a.ticks == b.ticks && a.timescale == b.timescale
  }

  /** `operator<`: compares seconds. */
  predicate Less(a: Time, b: Time)
    requires a.timescale != 0 && b.timescale != 0
  {
    Seconds(a) < Seconds(b)
  }

  /** `operator>`. */
  predicate Greater(a: Time, b: Time)
    requires a.timescale != 0 && b.timescale != 0
    ensures Greater(a, b) <==> Less(b, a)
  {
    Seconds(a) > Seconds(b)
  }

  /** `operator<=`. */
  predicate LessOrEqual(a: Time, b: Time)
    requires a.timescale != 0 && b.timescale != 0
    ensures LessOrEqual(a, b) <==> !Less(b, a)
  {
    Seconds(a) <= Seconds(b)
  }

  /** `operator>=`. */
  predicate GreaterOrEqual(a: Time, b: Time)
    requires a.timescale != 0 && b.timescale != 0
    ensures GreaterOrEqual(a, b) <==> !Less(a, b)
  {
    Seconds(a) >= Seconds(b)
  }

  /** `operator+`: the caller must give equal timescales; the left rate is kept. */
  function Add(a: Time, b: Time): (r: Time)
    requires a.timescale == b.timescale
    ensures r.timescale == a.timescale && r.fps == a.fps
    ensures b.ticks >= 0 ==> r.ticks >= a.ticks
  {
    Time(a.ticks + b.ticks, a.timescale, a.fps)
  }

  /** `operator-`: the caller must give equal timescales; the left rate is kept. */
  function Sub(a: Time, b: Time): (r: Time)
    requires a.timescale == b.timescale
    ensures r.timescale == a.timescale && r.fps == a.fps
    ensures b.ticks >= 0 ==> r.ticks <= a.ticks
  {
    Time(a.ticks - b.ticks, a.timescale, a.fps)
  }

  /** Subtracting what was added gives back the original time. */
  lemma SubUndoesAdd(a: Time, b: Time)
    requires a.timescale == b.timescale
    ensures Sub(Add(a, b), b) == a
    ensures Add(Sub(a, b), b) == a
  {
  }

  /** Addition agrees with the ordering: adding a positive duration moves later. */
  lemma AddMovesLater(a: Time, b: Time)
    requires a.timescale == b.timescale && a.timescale > 0 && b.ticks > 0
    ensures Less(a, Add(a, b))
  {
    SameTimescaleOrder(a, Add(a, b));
  }

  /** `AVTime::convert(time, from, to)`: the tick count converted as a frame count. */
  function Convert(t: Time, from: F.Fps, to: F.Fps): (r: Time)
    requires RateUsable(from) && to.denominator != 0
    ensures r.timescale == t.timescale && r.fps == to
    ensures r.ticks == F.Convert(t.ticks, from, to)
  {
    Time(F.Convert(t.ticks, from, to), t.timescale, to)
  }

  /** Converting between a rate and itself keeps the ticks. */
  lemma ConvertSameRate(t: Time, fps: F.Fps)
    requires RateUsable(fps)
    ensures Convert(t, fps, fps) == t.(fps := fps)
  {
    F.ConvertSameRate(t.ticks, fps);
  }

  /** `AVTime::scale(time, timescale)`: ticks rescaled to `timescale`; a
      fractional result moves to the next whole tick away from zero. */
  function Scale(t: Time, timescale: int): (r: Time)
    requires t.timescale != 0
    ensures r.timescale == timescale && r.fps == t.fps
    ensures t.timescale > 0 && timescale > 0 && t.ticks >= 0 ==>
      (r.ticks - 1) * t.timescale < t.ticks * timescale <= r.ticks * t.timescale
    ensures t.timescale > 0 && timescale > 0 && t.ticks < 0 ==>
      r.ticks * t.timescale <= t.ticks * timescale < (r.ticks + 1) * t.timescale
  {
    var numerator := t.ticks * timescale;
    var remainder := TruncMod(numerator, t.timescale);
    var q := TruncDiv(numerator, t.timescale);
    var ticks := if remainder == 0 then q else if t.ticks > 0 then q + 1 else q - 1;
    ScaleBounds(t.ticks, timescale, t.timescale, q, remainder, ticks);
    Time(ticks, timescale, t.fps)
  }

  lemma ScaleBounds(ticks: int, timescale: int, from: int, q: int, remainder: int, r: int)
    requires from != 0
    requires q == TruncDiv(ticks * timescale, from) && remainder == TruncMod(ticks * timescale, from)
    requires r == if remainder == 0 then q else if ticks > 0 then q + 1 else q - 1
    ensures from > 0 && timescale > 0 && ticks >= 0 ==> (r - 1) * from < ticks * timescale <= r * from
    ensures from > 0 && timescale > 0 && ticks < 0 ==> r * from <= ticks * timescale < (r + 1) * from
  {
    if from > 0 && timescale > 0 {
      var n := ticks * timescale;
      SignOfProduct(ticks, timescale);
      TruncIsEuclidOnNatural(0, from);
      StepAway(n, from, q, remainder, r, ticks > 0);
    }
  }

  lemma SignOfProduct(a: int, k: int)
    requires k > 0
    ensures a > 0 ==> a * k > 0
    ensures a < 0 ==> a * k < 0
    ensures a == 0 ==> a * k == 0
  {
  }

  /** `n = q·from + remainder` with the remainder taking `n`'s sign: stepping
      the quotient one away from zero when there is a remainder brackets `n`. */
  lemma StepAway(n: int, from: int, q: int, remainder: int, r: int, up: bool)
    requires from > 0 && n == q * from + remainder && Abs(remainder) < from
    requires remainder == 0 || ((remainder < 0) <==> (n < 0))
    requires up ==> n > 0
    requires !up ==> n <= 0
    requires n == 0 ==> remainder == 0
    requires r == if remainder == 0 then q else if up then q + 1 else q - 1
    ensures n >= 0 ==> (r - 1) * from < n <= r * from
    ensures n < 0 ==> r * from <= n < (r + 1) * from
  {
    var p := q * from;
    NextMultiples(r, from);
    if remainder == 0 {
      assert r * from == p;
    } else if up {
      NextMultiples(q, from);
      assert r * from == p + from;
    } else {
      NextMultiples(q, from);
      assert r * from == p - from;
    }
  }

  lemma NextMultiples(r: int, k: int)
    ensures (r - 1) * k == r * k - k && (r + 1) * k == r * k + k
  {
  }

  /** Scaling to a timescale `k` times finer is exact, and scaling back restores the ticks. */
  lemma ScaleRoundTrip(t: Time, k: int)
    requires t.timescale > 0 && k >= 1
    ensures Scale(t, k * t.timescale).ticks == t.ticks * k
    ensures Scale(Scale(t, k * t.timescale), t.timescale) == t
  {
    MulAssoc(t.ticks, k, t.timescale);
    ScaleExact(t, k * t.timescale, t.ticks * k);
    ScaleExact(Time(t.ticks * k, k * t.timescale, t.fps), t.timescale, t.ticks);
  }

  /** When the rescaled tick count is a whole number, `scale` gives exactly that number. */
  lemma ScaleExact(t: Time, timescale: int, q: int)
    requires t.timescale != 0 && t.ticks * timescale == q * t.timescale
    ensures Scale(t, timescale) == Time(q, timescale, t.fps)
  {
    TruncDivOfExact(q, t.timescale);
    var rem := TruncMod(t.ticks * timescale, t.timescale);
    assert t.ticks * timescale == q * t.timescale + rem;
  }

  /** `to_string()`: whole seconds (truncated) as `HH:MM:SS` when there are hours, otherwise `MM:SS`. */
  function ToString(t: Time): string
    requires t.timescale != 0
  {
    ClockText(TruncReal(Seconds(t)))
  }

  /** The clock text of a whole number of seconds. */
  function ClockText(secs: int): string
  {
    var minutes := TruncDiv(secs, 60);
    var hours := TruncDiv(minutes, 60);
    if hours > 0 then
      Pad2(hours) + ":" + Pad2(TruncMod(minutes, 60)) + ":" + Pad2(TruncMod(secs, 60))
    else
      Pad2(TruncMod(minutes, 60)) + ":" + Pad2(TruncMod(secs, 60))
  }

  /** Reads `MM:SS` or `H..H:MM:SS` back to a count of seconds. */
  function ParseClock(s: string): Option<nat>
  {
    if |s| == 5 then
      ParseMinutesSeconds(s)
    else if |s| >= 8 && s[|s| - 6] == ':' && AllDigits(s[..|s| - 6]) then
      match ParseMinutesSeconds(s[|s| - 5..])
      case Some(v) => Some(3600 * ParseNat(s[..|s| - 6]) + v)
      case None => None
    else
      None
  }

  /** Reads `MM:SS` back to a count of seconds. */
  function ParseMinutesSeconds(s: string): Option<nat>
  {
    if |s| == 5 && s[2] == ':' && AllDigits(s[..2]) && AllDigits(s[3..]) then
      Some(60 * ParseNat(s[..2]) + ParseNat(s[3..]))
    else
      None
  }

  /** The text of a non-negative time reads back as its whole seconds: hours,
      minutes and seconds lose nothing. */
  lemma ToStringReadsBack(t: Time)
    requires t.timescale != 0 && Seconds(t) >= 0.0
    ensures ParseClock(ToString(t)) == Some(TruncReal(Seconds(t)))
  {
    ClockTextReadsBack(TruncReal(Seconds(t)));
  }

  lemma ClockTextReadsBack(secs: nat)
    ensures ParseClock(ClockText(secs)) == Some(secs)
  {
    var minutes := TruncDiv(secs, 60);
    var hours := TruncDiv(minutes, 60);
    TruncIsEuclidOnNatural(secs, 60);
    TruncIsEuclidOnNatural(minutes, 60);
    var m: nat, sec: nat := minutes % 60, secs % 60;
    var long: nat, short: nat := 3600 * hours + 60 * m + sec, 60 * m + sec;
    if hours > 0 {
      calc {
        ParseClock(ClockText(secs));
        ParseClock(Pad2(hours) + ":" + Pad2(m) + ":" + Pad2(sec));
        { LongClockReadsBack(hours, m, sec); }
        Some(long);
        Some(secs);
      }
    } else {
      calc {
        ParseClock(ClockText(secs));
        ParseClock(Pad2(m) + ":" + Pad2(sec));
        { ShortClockReadsBack(m, sec); }
        Some(short);
        Some(secs);
      }
    }
  }

  lemma LongClockReadsBack(h: nat, m: nat, sec: nat)
    requires m < 60 && sec < 60
    ensures ParseClock(Pad2(h) + ":" + Pad2(m) + ":" + Pad2(sec)) == Some(3600 * h + 60 * m + sec)
  {
    ClockPieces(Pad2(h), Pad2(m), Pad2(sec));
    ParseShortClock(Pad2(m), Pad2(sec));
    ParseHoursThenClock(Pad2(h) + ":" + Pad2(m) + ":" + Pad2(sec), Pad2(h), 60 * m + sec);
  }

  lemma ShortClockReadsBack(m: nat, sec: nat)
    requires m < 60 && sec < 60
    ensures ParseClock(Pad2(m) + ":" + Pad2(sec)) == Some(60 * m + sec)
  {
    ParseShortClock(Pad2(m), Pad2(sec));
  }

  lemma ParseShortClock(mm: string, ss: string)
    requires |mm| == 2 && |ss| == 2 && AllDigits(mm) && AllDigits(ss)
    ensures var r := ParseMinutesSeconds(mm + ":" + ss);
      r.Some? && r.value == 60 * ParseNat(mm) + ParseNat(ss)
  {
    var s := mm + ":" + ss;
    assert s[..2] == mm && s[3..] == ss;
  }

  /** Where the hours, minutes and seconds sit in `hh:mm:ss`. */
  lemma ClockPieces(hh: string, mm: string, ss: string)
    requires |mm| == 2 && |ss| == 2
    ensures var s := hh + ":" + mm + ":" + ss;
      |s| == |hh| + 6 && s[|s| - 6] == ':' && s[..|s| - 6] == hh && s[|s| - 5..] == mm + ":" + ss
  {
    var s := hh + ":" + mm + ":" + ss;
    var u, t := hh + ":", mm + ":" + ss;
    assert s == u + t;
    assert s[|s| - 5..] == t;
    assert s[..|s| - 6] == hh;
  }

  lemma ParseHoursThenClock(s: string, hh: string, v: nat)
    requires |s| >= 8 && s[|s| - 6] == ':' && s[..|s| - 6] == hh && AllDigits(hh)
    requires ParseMinutesSeconds(s[|s| - 5..]) == Some(v)
    ensures ParseClock(s) == Some(3600 * ParseNat(hh) + v)
  {
  }

  /** The clock text holds digits, colons and minus signs only. */
  lemma ToStringHasNoSlash(t: Time)
    requires t.timescale != 0
    ensures forall i :: 0 <= i < |ToString(t)| ==> ToString(t)[i] != '/'
  {
    ClockTextHasNoSlash(TruncReal(Seconds(t)));
  }

  lemma ClockTextHasNoSlash(secs: int)
    ensures forall i :: 0 <= i < |ClockText(secs)| ==> ClockText(secs)[i] != '/'
  {
    var minutes := TruncDiv(secs, 60);
    Pad2Chars(TruncDiv(minutes, 60));
    Pad2Chars(TruncMod(minutes, 60));
    Pad2Chars(TruncMod(secs, 60));
  }

  /** With one timescale, the ordering is the ordering of ticks. */
  lemma SameTimescaleOrder(a: Time, b: Time)
    requires a.timescale == b.timescale && a.timescale > 0
    ensures Less(a, b) <==> a.ticks < b.ticks
  {
    RatioLess(a.ticks, a.timescale, b.ticks, b.timescale);
  }

  /** Across timescales the ordering is decided by cross-multiplication, and
      times that are `==` are never ordered. */
  lemma LessByCrossProduct(a: Time, b: Time)
    requires a.timescale > 0 && b.timescale > 0
    ensures Less(a, b) <==> a.ticks * b.timescale < b.ticks * a.timescale
    ensures Equal(a, b) ==> !Less(a, b) && !Less(b, a)
  {
    RatioLess(a.ticks, a.timescale, b.ticks, b.timescale);
  }

  /** `==` is finer than the ordering: the same instant at two timescales is
      neither less nor greater, yet not equal. */
  lemma EqualIsFinerThanOrder(a: Time)
    requires a.timescale > 0
    ensures var b := Time(2 * a.ticks, 2 * a.timescale, a.fps);
      !Less(a, b) && !Less(b, a) && !Equal(a, b)
  {
    var b := Time(2 * a.ticks, 2 * a.timescale, a.fps);
    LessByCrossProduct(a, b);
    LessByCrossProduct(b, a);
  }

  /** The frame a time falls in, converted back to ticks, is the start of that
      frame, and a frame's start falls in that frame. */
  lemma FramesOfFrameStart(t: Time, frame: int)
    requires RateUsable(t.fps) && Tpf(t) != 0
    ensures Frames(t.(ticks := TicksAt(t, frame))) == frame
    ensures t.ticks >= 0 && Tpf(t) > 0 ==> TicksAt(t, Frames(t)) <= t.ticks < TicksAt(t, Frames(t) + 1)
  {
    if t.ticks >= 0 && Tpf(t) > 0 {
      var f := Frames(t);
      assert (f + 1) * Tpf(t) == f * Tpf(t) + Tpf(t);
    }
  }

  /** A time made from a frame number counts that many frames. */
  lemma FromFrameRoundTrip(frame: int, fps: F.Fps)
    requires RateUsable(fps) && TpfAt(DefaultTimescale, fps) != 0
    ensures Frames(FromFrame(frame, fps)) == frame
  {
    FramesOfFrameStart(Time(0, DefaultTimescale, fps), frame);
  }

  /** The source's examples at 24 fps and 24000 ticks per second: 1000 ticks
      per frame, and frame 12 starts at tick 12000. */
  lemma Examples24()
    ensures Tpf(Time(12000, 24000, F.Fps24)) == 1000
    ensures Frames(Time(12000, 24000, F.Fps24)) == 12
    ensures TicksAt(Time(12000, 24000, F.Fps24), 12) == 12000
  {
  }

  /** At 47.952 fps and timescale 24000 a frame is 500.5 ticks, which
      `std::round` makes 501. */
  lemma TpfTieExample()
    ensures TpfAt(24000, F.Fps47_952) == 501
  {
  }

  /** The source's examples at 23.976 fps: 1001 ticks per frame; 2544542 ticks
      are frame 2542 and read `01:46`; frame 2541 round-trips. */
  lemma Examples23_976()
    ensures Tpf(Time(0, 24000, F.Fps23_976)) == 1001
    ensures Frames(Time(2544542, 24000, F.Fps23_976)) == 2542
    ensures ToString(Time(2544542, 24000, F.Fps23_976)) == "01:46"
    ensures Frames(FromFrame(2541, F.Fps23_976)) == 2541
  {
    assert TruncReal(Seconds(Time(2544542, 24000, F.Fps23_976))) == 106;
    FromFrameRoundTrip(2541, F.Fps23_976);
  }

  /** The source's examples at 29.97 fps: 16016 ticks at 30000 are frame 16; at
      24000 ticks per second a frame is 801 ticks, so five frames are 4005 ticks. */
  lemma Examples29_97()
    ensures Frames(Time(16016, 30000, F.Fps29_97)) == 16
    ensures TicksAt(Time(2400000, 24000, F.Fps29_97), 2) == 1602
    ensures TicksAt(Time(2400000, 24000, F.Fps29_97), 5) == 4005
  {
  }

  /** `AVTime::scale` on the source's examples: 384000 ticks at 48000 become
      192000 at 24000; 16016 at 30000 goes to 12813 at 24000 and comes back as
      16017, one tick late, since each step rounds away from zero. */
  lemma ScaleExamples()
    ensures Scale(Time(384000, 48000, F.Fps24), 24000).ticks == 192000
    ensures Scale(Time(16016, 30000, F.Fps29_97), 24000).ticks == 12813
    ensures Scale(Scale(Time(16016, 30000, F.Fps29_97), 24000), 30000).ticks == 16017
  {
  }

  /** An AVTime object: its setters write the record in place. */
  class TimeHandle {
    var value: Time

    /** `AVTime()`. */
    constructor Default()
      ensures value == Time(0, DefaultTimescale, F.Fps24)
    {
      value := Time(0, DefaultTimescale, F.Fps24);
    }

    /** `AVTime(ticks, timescale, fps)`. */
    constructor (ticks: int, timescale: int, fps: F.Fps)
      ensures value == Time(ticks, timescale, fps)
    {
      value := Time(ticks, timescale, fps);
    }

    /** `set_ticks`. */
    method SetTicks(ticks: int)
      modifies this
      ensures value == old(value).(ticks := ticks)
    {
      if value.ticks != ticks {
        value := value.(ticks := ticks);
      }
    }

    /** `set_timescale`. */
    method SetTimescale(timescale: int)
      modifies this
      ensures value == old(value).(timescale := timescale)
      ensures Valid(value) <==> timescale > 0
    {
      if value.timescale != timescale {
        value := value.(timescale := timescale);
      }
    }

    /** `set_fps`. */
    method SetFps(fps: F.Fps)
      modifies this
      ensures value == old(value).(fps := fps)
    {
      if !F.Equal(value.fps, fps) {
        value := value.(fps := fps);
      }
    }

    /** `invalidate()`. */
    method Invalidate()
      modifies this
      ensures value == Invalid && !Valid(value)
    {
      value := Time(0, 0, F.Default);
    }
  }
}
