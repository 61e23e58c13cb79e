/** AVTimeRange: a span of time given by its start and its duration, both in
    one timescale. */
module AVTimeRange {
  import opened IntMath
  import opened Text
  import F = AVFps
  import T = AVTime

  /** The value an AVTimeRange holds (the source's private record). */
  datatype TimeRange = TimeRange(start: T.Time, duration: T.Time)

  /** `AVTimeRange()`: default start and duration. */
  const Default: TimeRange := TimeRange(T.Default, T.Default)

  /** Start and duration share a timescale, as the constructor asserts. */
  predicate Aligned(r: TimeRange)
  {
    r.start.timescale == r.duration.timescale
  }

  /** `AVTimeRange(start, duration)`: the caller must give equal timescales. */
  function Make(start: T.Time, duration: T.Time): (r: TimeRange)
    requires start.timescale == duration.timescale
    ensures Aligned(r) && r.start == start && r.duration == duration
  {
    TimeRange(start, duration)
  }

  /** `end()`: start plus duration, one past the last instant of the range. */
  function End(r: TimeRange): (e: T.Time)
    requires Aligned(r)
    ensures e.timescale == r.start.timescale && e.fps == r.start.fps
    ensures e.ticks - r.start.ticks == r.duration.ticks
  {
    T.Add(r.start, r.duration)
  }

  function Min(a: int, b: int): int
  {
    if a <= b then a else b
  }

  function Max(a: int, b: int): int
  {
    if a >= b then a else b
  }

  /** `qBound(min, value, max)`: `qMax(min, qMin(max, value))`. */
  function Clamp(lo: int, x: int, hi: int): (r: int)
    ensures lo <= hi ==> lo <= r <= hi
    ensures lo <= x <= hi ==> r == x
    ensures lo <= hi && x < lo ==> r == lo
    ensures lo <= hi && hi < x ==> r == hi
    ensures hi < lo ==> r == lo
  {
    Max(lo, Min(hi, x))
  }

  /** `bound(time)`: the tick count clamped into `[start, end]`, at `time`'s
      timescale and the default rate. The caller must give `time` the range's timescale. */
  function Bound(r: TimeRange, t: T.Time): (b: T.Time)
    requires Aligned(r) && t.timescale == r.start.timescale
    ensures b.timescale == t.timescale && b.fps == F.Fps24
    ensures r.duration.ticks >= 0 ==> r.start.ticks <= b.ticks <= End(r).ticks
    ensures r.start.ticks <= t.ticks <= End(r).ticks ==> b.ticks == t.ticks
    ensures r.duration.ticks >= 0 && t.ticks < r.start.ticks ==> b.ticks == r.start.ticks
    ensures r.duration.ticks >= 0 && t.ticks > End(r).ticks ==> b.ticks == End(r).ticks
    ensures r.duration.ticks < 0 ==> b.ticks == r.start.ticks
  {
    T.Time(Clamp(r.start.ticks, t.ticks, End(r).ticks), t.timescale, F.Fps24)
  }

  /** Bounding twice is bounding once. */
  lemma BoundIdempotent(r: TimeRange, t: T.Time)
    requires Aligned(r) && t.timescale == r.start.timescale
    ensures Bound(r, Bound(r, t)) == Bound(r, t)
  {
  }

  /** A bounded time of a non-empty, positive-timescale range lies in the range
      or at its end; a time the range contains is left where it is. */
  lemma BoundAndContains(r: TimeRange, t: T.Time)
    requires Aligned(r) && t.timescale == r.start.timescale && r.start.timescale > 0
    requires r.duration.ticks >= 0
    ensures Contains(r, t) ==> Bound(r, t).ticks == t.ticks
    ensures Contains(r, Bound(r, t)) || Bound(r, t).ticks == End(r).ticks
  {
    ContainsSameTimescale(r, t);
    ContainsSameTimescale(r, Bound(r, t));
  }

  /** `contains(time)`: `start <= time < end`, compared in seconds. */
  predicate Contains(r: TimeRange, t: T.Time)
    requires Aligned(r) && r.start.timescale != 0 && t.timescale != 0
  {
    T.LessOrEqual(r.start, t) && T.Less(t, End(r))
  }

  /** At the range's own timescale, containment is the half-open interval of ticks. */
  lemma ContainsSameTimescale(r: TimeRange, t: T.Time)
    requires Aligned(r) && t.timescale == r.start.timescale && r.start.timescale > 0
    ensures Contains(r, t) <==> r.start.ticks <= t.ticks < End(r).ticks
  {
    T.SameTimescaleOrder(t, r.start);
    T.SameTimescaleOrder(t, End(r));
  }

  /** `overlaps(other)`: neither range ends before the other starts. */
  predicate Overlaps(a: TimeRange, b: TimeRange)
    requires Aligned(a) && Aligned(b) && a.start.timescale != 0 && b.start.timescale != 0
  {
    !(T.LessOrEqual(End(a), b.start) || T.LessOrEqual(End(b), a.start))
  }

  /** Overlapping is symmetric. */
  lemma OverlapsSymmetric(a: TimeRange, b: TimeRange)
    requires Aligned(a) && Aligned(b) && a.start.timescale != 0 && b.start.timescale != 0
    ensures Overlaps(a, b) <==> Overlaps(b, a)
  {
  }

  /** Two valid ranges at one timescale overlap exactly when some tick lies in both. */
  lemma OverlapsIffCommonTick(a: TimeRange, b: TimeRange)
    requires Valid(a) && Valid(b) && Aligned(a) && Aligned(b)
    requires a.start.timescale == b.start.timescale
    ensures Overlaps(a, b) <==>
      exists k :: Contains(a, T.Time(k, a.start.timescale, F.Fps24)) &&
                  Contains(b, T.Time(k, a.start.timescale, F.Fps24))
  {
    var ts := a.start.timescale;
    T.SameTimescaleOrder(End(a), b.start);
    T.SameTimescaleOrder(End(b), a.start);
    if Overlaps(a, b) {
      var k := Max(a.start.ticks, b.start.ticks);
      ContainsSameTimescale(a, T.Time(k, ts, F.Fps24));
      ContainsSameTimescale(b, T.Time(k, ts, F.Fps24));
    }
    forall k | Contains(a, T.Time(k, ts, F.Fps24)) && Contains(b, T.Time(k, ts, F.Fps24))
      ensures Overlaps(a, b)
    {
      ContainsSameTimescale(a, T.Time(k, ts, F.Fps24));
      ContainsSameTimescale(b, T.Time(k, ts, F.Fps24));
    }
  }

  /** `valid()`: both times valid and a positive duration. */
  predicate Valid(r: TimeRange)
  {
    T.Valid(r.start) && T.Valid(r.duration) && r.duration.ticks > 0
  }

  /** A valid range contains its start and not its end. */
  lemma ValidRangeBounds(r: TimeRange)
    requires Valid(r) && Aligned(r)
    ensures Contains(r, r.start) && !Contains(r, End(r))
  {
    ContainsSameTimescale(r, r.start);
    ContainsSameTimescale(r, End(r));
  }

  /** `operator==`: starts and durations equal as times (ticks and timescale). */
  predicate Equal(a: TimeRange, b: TimeRange)
  {
    T.Equal(a.start, b.start) && T.Equal(a.duration, b.duration)
  }

  /** Equal aligned ranges contain the same times. */
  lemma EqualRangesContainAlike(a: TimeRange, b: TimeRange, t: T.Time)
    requires Aligned(a) && Aligned(b) && Equal(a, b)
    requires a.start.timescale > 0 && t.timescale > 0
    ensures Contains(a, t) <==> Contains(b, t)
  {
  }

  /** The first position of `c` in `s`, or `|s|` when it does not occur. */
  function IndexOf(s: string, c: char): (i: nat)
    ensures i <= |s|
    ensures i < |s| ==> s[i] == c
    ensures forall j :: 0 <= j < i ==> s[j] != c
  {
    if s == [] then 0 else if s[0] == c then 0 else 1 + IndexOf(s[1..], c)
  }

  /** `to_string()`: `"<start> / <duration>"`. */
  function ToString(r: TimeRange): string
    requires r.start.timescale != 0 && r.duration.timescale != 0
  {
    T.ToString(r.start) + " / " + T.ToString(r.duration)
  }

  /** Reads `"<clock> / <clock>"` back to two counts of seconds. */
  function ParseRange(s: string): Option<(nat, nat)>
  {
    var i := IndexOf(s, '/');
    if 1 <= i && i + 1 < |s| && s[i - 1] == ' ' && s[i + 1] == ' ' then
      match (T.ParseClock(s[..i - 1]), T.ParseClock(s[i + 2..]))
      case (Some(a), Some(b)) => Some((a, b))
      case _ => None
    else
      None
  }

  /** The text of a range with non-negative start and duration reads back as
      the whole seconds of each. */
  lemma ToStringReadsBack(r: TimeRange)
    requires r.start.timescale != 0 && r.duration.timescale != 0
    requires T.Seconds(r.start) >= 0.0 && T.Seconds(r.duration) >= 0.0
    ensures ParseRange(ToString(r)) ==
      Some((TruncReal(T.Seconds(r.start)), TruncReal(T.Seconds(r.duration))))
  {
    T.ToStringHasNoSlash(r.start);
    T.ToStringReadsBack(r.start);
    T.ToStringReadsBack(r.duration);
    SplitAtSlash(T.ToString(r.start), T.ToString(r.duration));
  }

  /** `"<a> / <b>"` splits back into `a` and `b` when `a` has no slash. */
  lemma SplitAtSlash(a: string, b: string)
    requires forall j :: 0 <= j < |a| ==> a[j] != '/'
    ensures var s := a + " / " + b; var i := |a| + 1;
      IndexOf(s, '/') == i && i + 1 < |s| && s[i - 1] == ' ' && s[i + 1] == ' ' &&
      s[..i - 1] == a && s[i + 2..] == b
  {
    var s := a + " / " + b;
    assert s[|a| + 1] == '/';
    forall j | 0 <= j < |a| + 1 ensures s[j] != '/' {
      if j < |a| {
        assert s[j] == a[j];
      }
    }
    assert s[..|a|] == a;
    assert s[|a| + 3..] == b;
  }

  /** The source's example: a range starting at 12000 ticks at 24000 whose
      duration is 384000 ticks at 48000 scaled to 24000 (192000) ends at 204000. */
  lemma Example()
    ensures var d := T.Scale(T.Time(384000, 48000, F.Fps24), 24000);
      d.ticks == 192000 && End(Make(T.Time(12000, 24000, F.Fps24), d)).ticks == 204000
  {
    T.ScaleExamples();
  }

  /** An AVTimeRange object whose private record is not shared. */
  class TimeRangeHandle {
    var value: TimeRange

    /** `AVTimeRange()`. */
    constructor Default()
      ensures value == TimeRange(T.Default, T.Default)
    {
      value := TimeRange(T.Default, T.Default);
    }

    /** `AVTimeRange(start, duration)`. */
    constructor (start: T.Time, duration: T.Time)
      requires start.timescale == duration.timescale
      ensures value == Make(start, duration) && Aligned(value)
    {
      value := TimeRange(start, duration);
    }

    /** `set_start`: replaces the start, keeps the duration. */
    method SetStart(start: T.Time)
      modifies this
      ensures value == old(value).(start := start)
    {
      value := value.(start := start);
    }

    /** `set_duration`: replaces the duration, keeps the start. */
    method SetDuration(duration: T.Time)
      modifies this
      ensures value == old(value).(duration := duration)
      ensures T.Valid(value.start) && T.Valid(duration) ==> (Valid(value) <==> duration.ticks > 0)
    {
      value := value.(duration := duration);
    }
  }
}
