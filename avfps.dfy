/** AVFps: a frame rate held as an exact ratio numerator/denominator frames per
    second, with a flag saying whether its timecode uses drop-frame labels. */
module AVFps {
  import opened IntMath

  /** The value an AVFps holds (the source's private record). */
  datatype Fps = Fps(numerator: int, denominator: int, dropFrame: bool)

  /** `AVFps()`: numerator 0 and denominator 1. The source leaves `drop_frame`
      uninitialised; it is taken as false here. */
  const Default: Fps := Fps(0, 1, false)

  const Fps23_976: Fps := Fps(24000, 1001, true)
  const Fps24: Fps := Fps(24, 1, false)
  const Fps25: Fps := Fps(25, 1, false)
  const Fps29_97: Fps := Fps(30000, 1001, true)
  const Fps30: Fps := Fps(30, 1, false)
  const Fps47_952: Fps := Fps(48000, 1001, true)
  const Fps48: Fps := Fps(48, 1, false)
  const Fps50: Fps := Fps(50, 1, false)
  const Fps59_94: Fps := Fps(60000, 1001, true)
  const Fps60: Fps := Fps(60, 1, false)

  /** The standard rates, in the order `guess` tries them. */
  const Presets: seq<Fps> :=
    [Fps23_976, Fps24, Fps25, Fps29_97, Fps30, Fps47_952, Fps48, Fps50, Fps59_94, Fps60]

  /** `valid()`: only the numerator is checked. */
  predicate Valid(f: Fps)
  {
    f.numerator > 0
  }

  /** A rate the arithmetic below can divide by: positive on both sides. */
  predicate Positive(f: Fps)
  {
    f.numerator > 0 && f.denominator > 0
  }

  /** A rate whose seconds per frame exist: neither part is zero. Either may be
      negative, since the constructor stores the parts unchecked. */
  predicate NonZero(f: Fps)
  {
    f.numerator != 0 && f.denominator != 0
  }

  /** `to_real()`: frames per second. */
  function Real(f: Fps): real
    requires f.denominator != 0
  {
    f.numerator as real / f.denominator as real
  }

  /** `to_seconds()`: seconds per frame, `1 / to_real()`. */
  function Seconds(f: Fps): real
    requires NonZero(f)
  {
    1.0 / Real(f)
  }

  /** `to_frame_quanta()`: the nominal integer rate, `std::round(to_real())`. */
  function FrameQuanta(f: Fps): (q: int)
    requires f.denominator != 0
    ensures 2 * Abs(f.numerator - q * f.denominator) <= Abs(f.denominator)
    ensures 2 * Abs(f.numerator - q * f.denominator) == Abs(f.denominator) ==>
              Abs(q) * Abs(f.denominator) > Abs(f.numerator)
    ensures q == 0 || ((q < 0) <==> ((f.numerator < 0) != (f.denominator < 0)))
  {
    RoundHalfAway(f.numerator, f.denominator)
  }

  /** A positive rate has a positive nominal rate exactly when it is at least half a frame per second. */
  lemma FrameQuantaPositive(f: Fps)
    requires Positive(f)
    ensures FrameQuanta(f) >= 0
    ensures FrameQuanta(f) > 0 <==> 2 * f.numerator >= f.denominator
  {
    var q := FrameQuanta(f);
    if q >= 1 {
      MulAtLeastFactor(q, f.denominator);
    }
  }

  /** `to_fps(frame, other)`: the frame count `frame` rescaled by the ratio of this
      rate to `other`, rounded half away from zero. */
  function ToFps(f: Fps, frame: int, other: Fps): (r: int)
    requires f.denominator != 0 && other.numerator != 0 && other.denominator != 0
    ensures 2 * Abs(frame * f.numerator * other.denominator - r * (f.denominator * other.numerator))
              <= Abs(f.denominator * other.numerator)
    ensures 2 * Abs(frame * f.numerator * other.denominator - r * (f.denominator * other.numerator))
              == Abs(f.denominator * other.numerator) ==>
              Abs(r) * Abs(f.denominator * other.numerator) > Abs(frame * f.numerator * other.denominator)
  {
    RoundHalfAway(frame * f.numerator * other.denominator, f.denominator * other.numerator)
  }

  /** `AVFps::convert(frame, from, to)`: a frame count at `from` rescaled to `to`. */
  function Convert(frame: int, from: Fps, to: Fps): int
    requires to.denominator != 0 && from.numerator != 0 && from.denominator != 0
  {
    ToFps(to, frame, from)
  }

  /** Converting between a rate and itself changes nothing. */
  lemma ConvertSameRate(frame: int, f: Fps)
    requires f.numerator != 0 && f.denominator != 0
    ensures Convert(frame, f, f) == frame
  {
    assert frame * f.numerator * f.denominator == frame * (f.denominator * f.numerator);
    RoundOfExact(frame, f.denominator * f.numerator);
  }

  /** When `to` is exactly `k` times `from`, converting up is exact and
      converting back restores the frame count. */
  lemma ConvertRoundTrip(frame: int, from: Fps, to: Fps, k: int)
    requires Positive(from) && Positive(to) && k >= 1
    requires to.numerator * from.denominator == k * to.denominator * from.numerator
    ensures Convert(frame, from, to) == frame * k
    ensures Convert(Convert(frame, from, to), to, from) == frame
  {
    Regroup(frame, k, to.numerator, from.denominator, to.denominator, from.numerator);
    ConvertExact(frame, from, to, frame * k);
    ConvertExact(frame * k, to, from, frame);
  }

  /** A conversion whose exact result is a whole number gives that number. */
  lemma ConvertExact(frame: int, from: Fps, to: Fps, q: int)
    requires to.denominator != 0 && from.numerator != 0 && from.denominator != 0
    requires frame * to.numerator * from.denominator == q * (to.denominator * from.numerator)
    ensures Convert(frame, from, to) == q
  {
    RoundOfExact(q, to.denominator * from.numerator);
  }

  lemma Regroup(f: int, k: int, tn: int, fd: int, td: int, fn: int)
    requires tn * fd == k * td * fn
    ensures f * tn * fd == (f * k) * (td * fn)
    ensures (f * k) * fn * td == f * (fd * tn)
  {
    MulAssoc(f, tn, fd);
    MulAssoc(k, td, fn);
    MulAssoc(f, k, td * fn);
    MulAssoc(f * k, fn, td);
  }

  /** `operator==`: numerator, denominator and drop flag all equal. */
  predicate Equal(a: Fps, b: Fps)
  {
    a.numerator == b.numerator && a.denominator == b.denominator && a.dropFrame == b.dropFrame
  }

  /** `operator<`: compares seconds per frame, so the faster rate is the lesser. */
  predicate Less(a: Fps, b: Fps)
    requires NonZero(a) && NonZero(b)
  {
    Seconds(a) < Seconds(b)
  }

  /** `operator>`. */
  predicate Greater(a: Fps, b: Fps)
    requires NonZero(a) && NonZero(b)
    ensures Greater(a, b) <==> Less(b, a)
  {
    Seconds(a) > Seconds(b)
  }

  /** `operator<=`. */
  predicate LessOrEqual(a: Fps, b: Fps)
    requires NonZero(a) && NonZero(b)
    ensures LessOrEqual(a, b) <==> !Less(b, a)
  {
    Seconds(a) <= Seconds(b)
  }

  /** `operator>=`. */
  predicate GreaterOrEqual(a: Fps, b: Fps)
    requires NonZero(a) && NonZero(b)
    ensures GreaterOrEqual(a, b) <==> !Less(a, b)
  {
    Seconds(a) >= Seconds(b)
  }

  /** Seconds per frame of a positive rate, as the exact ratio denominator / numerator. */
  lemma SecondsIsInverseRate(f: Fps)
    requires Positive(f)
    ensures Seconds(f) == f.denominator as real / f.numerator as real
    ensures Seconds(f) > 0.0
  {
    var n, d := f.numerator as real, f.denominator as real;
    assert Real(f) * d == n;
    assert (d / n) * Real(f) == 1.0;
  }

  /** The ordering on seconds per frame, decided by cross-multiplication:
      `a < b` exactly when `a` is the faster rate. */
  lemma LessByCrossProduct(a: Fps, b: Fps)
    requires Positive(a) && Positive(b)
    ensures Less(a, b) <==> a.denominator * b.numerator < b.denominator * a.numerator
    ensures Less(a, b) <==> Real(b) < Real(a)
  {
    SecondsIsInverseRate(a);
    SecondsIsInverseRate(b);
    RatioLess(a.denominator, a.numerator, b.denominator, b.numerator);
    RatioLess(b.numerator, b.denominator, a.numerator, a.denominator);
  }

  /** The ordering is transitive. */
  lemma LessTransitive(a: Fps, b: Fps, c: Fps)
    requires Positive(a) && Positive(b) && Positive(c)
    requires Less(a, b) && Less(b, c)
    ensures Less(a, c)
  {
  }

  /** Equal rates are unordered; but the ordering is coarser than equality:
      scaling both sides of the ratio, or changing the drop flag, gives a rate
      that is neither less nor greater, yet not equal. */
  lemma OrderCoarserThanEquality(a: Fps, k: int, drop: bool)
    requires Positive(a) && k >= 1
    ensures var b := Fps(a.numerator * k, a.denominator * k, drop);
      Positive(b) && !Less(a, b) && !Less(b, a) &&
      (Equal(a, b) <==> k == 1 && drop == a.dropFrame)
  {
    var b := Fps(a.numerator * k, a.denominator * k, drop);
    LessByCrossProduct(a, b);
    LessByCrossProduct(b, a);
    assert a.denominator * b.numerator == b.denominator * a.numerator;
    if k != 1 {
      assert a.numerator * k != a.numerator;
    }
  }

  /** A rate whose parts have opposite signs has negative seconds per frame, so it
      is less than every positive rate. */
  lemma SignedRateBelowPositive(a: Fps, b: Fps)
    requires NonZero(a) && (a.numerator < 0) != (a.denominator < 0) && Positive(b)
    ensures Seconds(a) < 0.0 && Less(a, b) && Greater(b, a) && !LessOrEqual(b, a)
  {
    SecondsIsInverseRate(b);
    var n, d := a.numerator as real, a.denominator as real;
    assert Real(a) < 0.0 by {
      if n < 0.0 {
        assert -n / d == -(n / d);
      } else {
        assert n / -d == -(n / d);
      }
    }
  }

  /** `guess`'s tolerance: `qAbs(standard.to_real() - fps) < 0.002`. */
  predicate Close(p: Fps, x: real)
    requires p.denominator != 0
  {
    var e := Real(p) - x;
    -0.002 < e < 0.002
  }

  /** The position in `ps` of the first rate close to `x`, or `|ps|` when none is. */
  function FirstClose(ps: seq<Fps>, x: real): (k: nat)
    requires forall i :: 0 <= i < |ps| ==> ps[i].denominator != 0
    ensures k <= |ps|
    ensures k < |ps| ==> Close(ps[k], x)
    ensures forall j :: 0 <= j < k ==> !Close(ps[j], x)
  {
    if ps == [] then 0
    else if Close(ps[0], x) then 0
    else 1 + FirstClose(ps[1..], x)
  }

  /** What `guess(x)` returns: the first standard rate within the tolerance,
      otherwise a non-drop rate of `x` in thousandths of a frame per second. */
  function GuessOf(x: real): (r: Fps)
    ensures (exists i :: 0 <= i < |Presets| && Close(Presets[i], x)) ==>
              exists i :: 0 <= i < |Presets| && r == Presets[i] && Close(r, x) &&
                forall j :: 0 <= j < i ==> !Close(Presets[j], x)
    ensures (forall i :: 0 <= i < |Presets| ==> !Close(Presets[i], x)) ==>
              r == Fps(TruncReal(x * 1000.0), 1000, false)
  {
    var k := FirstClose(Presets, x);
    if k < |Presets| then Presets[k] else Fps(TruncReal(x * 1000.0), 1000, false)
  }

  /** `AVFps::guess`: a search over the standard rates, first match wins. */
  method Guess(x: real) returns (r: Fps)
    ensures r == GuessOf(x)
  {
    var i := 0;
    while i < |Presets|
      invariant 0 <= i <= |Presets|
      invariant forall j :: 0 <= j < i ==> !Close(Presets[j], x)
    {
      if Close(Presets[i], x) {
        return Presets[i];
      }
      i := i + 1;
    }
    return Fps(TruncReal(x * 1000.0), 1000, false);
  }

  /** The ten presets: the /1001 rates are exactly the drop-frame ones, all are
      valid, and their nominal rates are 24, 24, 25, 30, 30, 48, 48, 50, 60, 60. */
  lemma PresetsTable()
    ensures |Presets| == 10
    ensures forall i :: 0 <= i < |Presets| ==>
      Positive(Presets[i]) && (Presets[i].dropFrame <==> Presets[i].denominator == 1001)
    ensures forall i :: 0 <= i < |Presets| ==> Presets[i].denominator == 1 || Presets[i].denominator == 1001
    ensures FrameQuanta(Fps23_976) == 24 && FrameQuanta(Fps24) == 24 && FrameQuanta(Fps25) == 25
    ensures FrameQuanta(Fps29_97) == 30 && FrameQuanta(Fps30) == 30 && FrameQuanta(Fps47_952) == 48
    ensures FrameQuanta(Fps48) == 48 && FrameQuanta(Fps50) == 50 && FrameQuanta(Fps59_94) == 60
    ensures FrameQuanta(Fps60) == 60
    ensures !Valid(Default)
  {
  }

  /** `fps_24() == AVFps(24, 1)`; `guess(23.976)` gives the drop-frame
      preset and `guess(24)` the non-drop one. */
  lemma GuessExamples()
    ensures Equal(Fps24, Fps(24, 1, false))
    ensures GuessOf(23.976) == Fps23_976 && GuessOf(23.976).dropFrame
    ensures GuessOf(24.0) == Fps24 && !GuessOf(24.0).dropFrame
  {
    assert Close(Presets[0], 23.976);
    assert !Close(Presets[0], 24.0) && Close(Presets[1], 24.0);
  }

  /** `guess(10)`: no preset is near, so the rate is 10000/1000, non-drop. */
  lemma GuessFallbackExample()
    ensures GuessOf(10.0) == Fps(10000, 1000, false) && !GuessOf(10.0).dropFrame
  {
    forall j | 0 <= j < |Presets| ensures !Close(Presets[j], 10.0) {
      if j > 0 {
        PresetsSpread(0, j);
      }
    }
  }

  /** Each preset is more than 0.02 frames per second below the next. */
  lemma PresetsAscending()
    ensures forall j :: 0 <= j < |Presets| - 1 ==> Real(Presets[j]) + 0.02 < Real(Presets[j + 1])
  {
  }

  lemma {:induction false} PresetsSpread(i: int, j: int)
    requires 0 <= i < j < |Presets|
    ensures Real(Presets[i]) + 0.02 < Real(Presets[j])
    decreases j - i
  {
    PresetsAscending();
    if i + 1 < j {
      PresetsSpread(i + 1, j);
    }
  }

  /** Guessing the rate of any preset gives that preset back. */
  lemma GuessRecoversPresets(i: int)
    requires 0 <= i < |Presets|
    ensures GuessOf(Real(Presets[i])) == Presets[i]
  {
    var x := Real(Presets[i]);
    assert Close(Presets[i], x);
    forall j | 0 <= j < |Presets| && j != i ensures !Close(Presets[j], x) {
      if j < i {
        PresetsSpread(j, i);
      } else {
        PresetsSpread(i, j);
      }
    }
  }

  /** `AVFps::convert(86496, fps_24(), fps_30())` is 108120, exactly one hour and four seconds at 30 fps. */
  lemma ConvertExample()
    ensures Convert(86496, Fps24, Fps30) == 108120
  {
  }

  /** An exact half rounds away from zero: one frame at 48 fps is half a frame
      at 24 fps, which `std::round` makes one frame. */
  lemma ConvertTieExample()
    ensures Convert(1, Fps48, Fps24) == 1
  {
  }

  /** A rate whose numerator is positive and whose denominator is negative,
      which `valid()` accepts, has a nominal rate of zero or less. */
  lemma NegativeDenominatorQuanta(f: Fps)
    requires Valid(f) && f.denominator < 0
    ensures FrameQuanta(f) <= 0
  {
  }

  /** An AVFps object: the setters change its value in place. */
  class FpsHandle {
    var value: Fps

    /** `AVFps()`. */
    constructor Default()
      ensures value == Fps(0, 1, false) && !Valid(value)
    {
      value := Fps(0, 1, false);
    }

    /** `AVFps(numerator, denominator, drop_frame)`: no check on either part. */
    constructor (numerator: int, denominator: int, dropFrame: bool)
      ensures value == Fps(numerator, denominator, dropFrame)
    {
      value := Fps(numerator, denominator, dropFrame);
    }

    /** `set_numerator`. */
    method SetNumerator(numerator: int)
      modifies this
      ensures value == old(value).(numerator := numerator)
      ensures Valid(value) <==> numerator > 0
    {
      if value.numerator != numerator {
        value := value.(numerator := numerator);
      }
    }

    /** `set_denominator`: values that are not positive are ignored, so a
        positive denominator stays positive. */
    method SetDenominator(denominator: int)
      modifies this
      ensures value == if denominator > 0 then old(value).(denominator := denominator) else old(value)
      ensures old(value).denominator > 0 ==> value.denominator > 0
    {
      if value.denominator != denominator {
        if denominator > 0 {
          value := value.(denominator := denominator);
        }
      }
    }

    /** `set_dropframe`. */
    method SetDropFrame(dropFrame: bool)
      modifies this
      ensures value == old(value).(dropFrame := dropFrame)
    {
      if value.dropFrame != dropFrame {
        value := value.(dropFrame := dropFrame);
      }
    }
  }
}
