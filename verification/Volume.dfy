/** The volume chart: bucket size, range check and zero-fill (backend/internal/api/query.go).
    Times are nanoseconds since the Unix epoch. */
module Volume {
  import opened Common

  const DAY := 24 * 3600 * 1_000_000_000
  const MAX_BUCKETS := 2000
  const DEFAULT_STEP := 5 * 60 * 1_000_000_000

  /** Days from 1 January of year 1, where Truncate counts from, to the epoch. */
  const DAYS_BEFORE_EPOCH := 719_162
  const ZERO_TIME := DAYS_BEFORE_EPOCH * DAY

  datatype Bucket = Bucket(time: int, count: nat)

  // ----- division -----

  /** Moving by one step. */
  lemma DivStep(x: int, d: int)
    requires d > 0
    ensures (x + d) / d == x / d + 1 && (x + d) % d == x % d
  {
    DivIs(x + d, d, x / d + 1, x % d);
  }

  lemma {:induction false} DivMonotone(x: int, y: int, d: int)
    requires d > 0 && x <= y
    ensures x / d <= y / d
    decreases y - x
  {
    if x + d <= y {
      DivStep(x, d);
      DivMonotone(x + d, y, d);
    } else if x % d + (y - x) < d {
      DivIs(y, d, x / d, x % d + (y - x));
    } else {
      DivIs(y, d, x / d + 1, x % d + (y - x) - d);
    }
  }

  lemma ModAdd(x: int, y: int, d: int)
    requires d > 0 && x % d == 0
    ensures (x + y) % d == y % d
  {
    DivIs(x + y, d, x / d + y / d, y % d);
  }

  // ----- the grid -----

  /** Truncate: the last multiple of step since year 1, not after t. */
  function Truncate(t: int, step: int): int
    requires step > 0
  {
    t - (t + ZERO_TIME) % step
  }

  /** first, first + step, ... up to end. */
  function Grid(first: int, end: int, step: int): seq<int>
    requires step > 0
    decreases end - first
  {
    if first > end then [] else [first] + Grid(first + step, end, step)
  }

  lemma {:induction false} GridIs(first: int, end: int, step: int, t: int)
    requires step > 0
    ensures t in Grid(first, end, step) <==> first <= t <= end && (t - first) % step == 0
    decreases end - first
  {
    if first > end {
    } else {
      GridIs(first + step, end, step, t);
      DivStep(t - first - step, step);
      if first < t && (t - first) % step == 0 {
        DivIs(t - first, step, (t - first) / step, 0);
        assert (t - first) / step >= 1;
        assert t - first >= step;
      }
    }
  }

  lemma {:induction false} GridSpacing(first: int, end: int, step: int)
    requires step > 0
    ensures var g := Grid(first, end, step);
            && (g != [] ==> g[0] == first)
            && (forall k :: 0 < k < |g| ==> g[k] == g[k - 1] + step)
    decreases end - first
  {
    if first > end {
    } else {
      GridSpacing(first + step, end, step);
    }
  }

  lemma {:induction false} GridLength(first: int, end: int, step: int)
    requires step > 0 && first <= end + step
    ensures |Grid(first, end, step)| == (end - first + step) / step
    decreases end - first
  {
    if first <= end {
      GridLength(first + step, end, step);
      DivStep(end - first, step);
    } else {
      DivIs(end - first + step, step, 0, end - first + step);
    }
  }

  // ----- counts -----

  type Counts = map<int, nat>

  function At(m: Counts, t: int): nat {
    if t in m then m[t] else 0
  }

  /** Later entries for the same time win. */
  function CountsOf(bs: seq<Bucket>): Counts {
    if bs == [] then map[]
    else CountsOf(bs[..|bs| - 1])[bs[|bs| - 1].time := bs[|bs| - 1].count]
  }

  function Total(bs: seq<Bucket>): nat {
    if bs == [] then 0 else Total(bs[..|bs| - 1]) + bs[|bs| - 1].count
  }

  function TotalAt(m: Counts, g: seq<int>): nat {
    if g == [] then 0 else At(m, g[0]) + TotalAt(m, g[1..])
  }

  function Series(m: Counts, g: seq<int>): seq<Bucket> {
    seq(|g|, k requires 0 <= k < |g| => Bucket(g[k], At(m, g[k])))
  }

  /** What zeroFill returns. */
  function Filled(bs: seq<Bucket>, start: int, end: int, step: int): seq<Bucket>
    requires step > 0
  {
    Series(CountsOf(bs), Grid(Truncate(start, step), end, step))
  }

  method ZeroFill(bs: seq<Bucket>, start: int, end: int, step: int) returns (out: seq<Bucket>)
    requires step > 0
    ensures out == Filled(bs, start, end, step)
  {
    var counts: Counts := map[];
    for k := 0 to |bs|
      invariant counts == CountsOf(bs[..k])
    {
      assert bs[..k + 1][..k] == bs[..k];
      counts := counts[bs[k].time := bs[k].count];
    }
    assert bs[..|bs|] == bs;
    out := [];
    var t := Truncate(start, step);
    ghost var all := Grid(t, end, step);
    assert all[0..] == all;
    while t <= end
      invariant |out| <= |all| && Grid(t, end, step) == all[|out|..]
      invariant out == Series(counts, all[..|out|])
      decreases end - t
    {
      assert all[|out|..][1..] == all[|out| + 1..];
      assert all[..|out| + 1] == all[..|out|] + [t];
      out := out + [Bucket(t, At(counts, t))];
      t := t + step;
    }
    assert all[..|all|] == all;
  }

  // ----- what handleVolume promises -----

  datatype Outcome = TooMany | Rejected | Stopped | Chart(series: seq<Bucket>)

  /** The duration division of Go, towards zero; its divisor is not 0. */
  function Quotient(x: nat, d: int): int
    requires d != 0
  {
    if d > 0 then x / d else -(x / -d)
  }

  /** The chart of some buckets over a range: it starts less than a step before the
      range, at a multiple of the step since year 1, is evenly spaced, reaches into the
      last step of the range, and shows each point's count. */
  predicate IsChart(out: seq<Bucket>, bs: seq<Bucket>, start: int, end: int, step: int)
    requires step > 0
  {
    && out != [] && start - step < out[0].time <= start
    && (out[0].time + 719_162 * 86_400_000_000_000) % step == 0
    && (forall k :: 0 < k < |out| ==> out[k].time == out[k - 1].time + step)
    && out[|out| - 1].time <= end < out[|out| - 1].time + step
    && (forall k :: 0 <= k < |out| ==> out[k].count == At(CountsOf(bs), out[k].time))
  }

  /** Zero-fill makes that chart, and after the range check it has at most 2002 points. */
  lemma ChartShape(bs: seq<Bucket>, start: int, end: int, step: int)
    requires start < end && step > 0
    ensures var out := Filled(bs, start, end, step);
            && IsChart(out, bs, start, end, step)
            && ((end - start) / step <= MAX_BUCKETS ==> |out| <= MAX_BUCKETS + 2)
  {
    var first := Truncate(start, step);
    var g := Grid(first, end, step);
    GridSpacing(first, end, step);
    GridLength(first, end, step);
    OnZeroGrid(start, step);
    LastPoint(first, end, step);
    DivMonotone(end - first + step, end - start + step + step, step);
    DivStep(end - start, step);
    DivStep(end - start + step, step);
  }

  /** Grid points less than a step apart are the same. */
  lemma SamePoint(x: int, y: int, step: int)
    requires step > 0 && x % step == 0 && y % step == 0 && -step < x - y < step
    ensures x == y
  {
    var e := x / step - y / step;
    assert e * step == x - y;
    if e != 0 {
      MultipleIsFar(e, step);
      assert false;
    }
  }

  lemma {:induction false} TimesAgree(a: seq<Bucket>, b: seq<Bucket>, step: int, k: nat)
    requires a != [] && b != [] && a[0].time == b[0].time && k < |a| && k < |b|
    requires forall j :: 0 < j < |a| ==> a[j].time == a[j - 1].time + step
    requires forall j :: 0 < j < |b| ==> b[j].time == b[j - 1].time + step
    ensures a[k].time == b[k].time
  {
    if k == 0 {
    } else {
      TimesAgree(a, b, step, k - 1);
    }
  }

  lemma NoLonger(a: seq<Bucket>, b: seq<Bucket>, bs: seq<Bucket>, start: int, end: int, step: int)
    requires step > 0 && IsChart(a, bs, start, end, step) && IsChart(b, bs, start, end, step)
    requires a[0].time == b[0].time
    ensures |a| <= |b|
  {
    if |b| < |a| {
      TimesAgree(a, b, step, |b| - 1);
      assert a[|b|].time > end;
      Upward(a, step, |b|);
      assert false;
    }
  }

  lemma {:induction false} Upward(a: seq<Bucket>, step: int, k: nat)
    requires step > 0 && k < |a| && forall j :: 0 < j < |a| ==> a[j].time == a[j - 1].time + step
    ensures a[k].time <= a[|a| - 1].time
    decreases |a| - k
  {
    if k == |a| - 1 {
    } else {
      Upward(a, step, k + 1);
    }
  }

  /** There is only one chart of given buckets over a range. */
  lemma ChartDetermined(a: seq<Bucket>, b: seq<Bucket>, bs: seq<Bucket>, start: int, end: int, step: int)
    requires step > 0 && IsChart(a, bs, start, end, step) && IsChart(b, bs, start, end, step)
    ensures a == b
  {
    SamePoint(a[0].time + ZERO_TIME, b[0].time + ZERO_TIME, step);
    NoLonger(a, b, bs, start, end, step);
    NoLonger(b, a, bs, start, end, step);
    forall k | 0 <= k < |a|
      ensures a[k] == b[k]
    {
      TimesAgree(a, b, step, k);
    }
  }

  lemma OnZeroGrid(t: int, step: int)
    requires step > 0
    ensures (Truncate(t, step) + ZERO_TIME) % step == 0 && t - step < Truncate(t, step) <= t
  {
    var x := t + ZERO_TIME;
    DivIs(Truncate(t, step) + ZERO_TIME, step, x / step, 0);
  }

  lemma {:induction false} LastPoint(first: int, end: int, step: int)
    requires step > 0 && first <= end
    ensures var g := Grid(first, end, step);
            g != [] && g[|g| - 1] <= end < g[|g| - 1] + step
    decreases end - first
  {
    if first + step <= end {
      LastPoint(first + step, end, step);
    } else {
      assert Grid(first + step, end, step) == [];
    }
  }

  // ----- conservation -----

  /** A bucket the chart has a point for. */
  predicate Charted(b: Bucket, start: int, end: int, step: int)
    requires step > 0
  {
    Truncate(start, step) <= b.time <= end && (b.time + ZERO_TIME) % step == 0
  }

  function Missed(bs: seq<Bucket>, start: int, end: int, step: int): nat
    requires step > 0
  {
    if bs == [] then 0
    else Missed(bs[..|bs| - 1], start, end, step)
         + if Charted(bs[|bs| - 1], start, end, step) then 0 else bs[|bs| - 1].count
  }

  predicate Distinct(bs: seq<Bucket>) {
    forall i, j :: 0 <= i < j < |bs| ==> bs[i].time != bs[j].time
  }

  lemma {:induction false} CountsKnow(bs: seq<Bucket>, t: int)
    ensures t in CountsOf(bs) <==> exists k :: 0 <= k < |bs| && bs[k].time == t
  {
    if bs == [] {
    } else {
      CountsKnow(bs[..|bs| - 1], t);
    }
  }

  /** The count at a time is the last bucket's with that time, and 0 if there is none. */
  lemma {:induction false} CountsMean(bs: seq<Bucket>, t: int, j: nat)
    ensures j < |bs| && bs[j].time == t && (forall k :: j < k < |bs| ==> bs[k].time != t) ==>
              At(CountsOf(bs), t) == bs[j].count
    ensures (forall k :: 0 <= k < |bs| ==> bs[k].time != t) ==> At(CountsOf(bs), t) == 0
  {
    if bs == [] {
    } else {
      CountsMean(bs[..|bs| - 1], t, j);
    }
  }

  predicate Increasing(g: seq<int>) {
    forall i, j :: 0 <= i < j < |g| ==> g[i] < g[j]
  }

  lemma {:induction false} TotalUpdate(m: Counts, t: int, n: nat, g: seq<int>)
    requires Increasing(g) && t !in m
    ensures TotalAt(m[t := n], g) == TotalAt(m, g) + if t in g then n else 0
  {
    if g == [] {
    } else {
      TotalUpdate(m, t, n, g[1..]);
      assert t in g <==> t == g[0] || t in g[1..];
    }
  }

  lemma {:induction false} GridIncreasing(first: int, end: int, step: int)
    requires step > 0
    ensures Increasing(Grid(first, end, step))
    decreases end - first
  {
    if first > end {
    } else {
      GridIncreasing(first + step, end, step);
      var g := Grid(first + step, end, step);
      forall j | 0 <= j < |g|
        ensures first < g[j]
      {
        GridIs(first + step, end, step, g[j]);
      }
    }
  }

  lemma ChartedIsOnGrid(b: Bucket, start: int, end: int, step: int)
    requires step > 0
    ensures Charted(b, start, end, step) <==> b.time in Grid(Truncate(start, step), end, step)
  {
    var first := Truncate(start, step);
    GridIs(first, end, step, b.time);
    OnZeroGrid(start, step);
    ModAdd(first + ZERO_TIME, b.time - first, step);
  }

  lemma {:induction false} TotalOnGrid(bs: seq<Bucket>, start: int, end: int, step: int)
    requires step > 0 && Distinct(bs)
    ensures TotalAt(CountsOf(bs), Grid(Truncate(start, step), end, step)) + Missed(bs, start, end, step) == Total(bs)
  {
    var g := Grid(Truncate(start, step), end, step);
    if bs == [] {
      TotalOfNone(g);
    } else {
      var front, last := bs[..|bs| - 1], bs[|bs| - 1];
      TotalOnGrid(front, start, end, step);
      CountsKnow(front, last.time);
      GridIncreasing(Truncate(start, step), end, step);
      TotalUpdate(CountsOf(front), last.time, last.count, g);
      ChartedIsOnGrid(last, start, end, step);
    }
  }

  lemma {:induction false} TotalOfNone(g: seq<int>)
    ensures TotalAt(map[], g) == 0
  {
    if g == [] {
    } else {
      TotalOfNone(g[1..]);
    }
  }

  lemma {:induction false} SeriesTotal(m: Counts, g: seq<int>)
    ensures Total(Series(m, g)) == TotalAt(m, g)
    decreases |g|
  {
    if g == [] {
    } else {
      var n := |g| - 1;
      SeriesTotal(m, g[..n]);
      assert Series(m, g)[..n] == Series(m, g[..n]);
      TotalAtAppend(m, g[..n], g[n]);
      assert g[..n] + [g[n]] == g;
    }
  }

  lemma {:induction false} TotalAtAppend(m: Counts, g: seq<int>, t: int)
    ensures TotalAt(m, g + [t]) == TotalAt(m, g) + At(m, t)
  {
    if g == [] {
      assert [t][1..] == [];
    } else {
      TotalAtAppend(m, g[1..], t);
      assert (g + [t])[1..] == g[1..] + [t];
    }
  }

  /** For buckets at distinct times, what the chart shows and what it misses add up to
      the input: the total is kept exactly if every bucket that is out of range or
      off the year-1 grid is empty. */
  lemma Conserves(bs: seq<Bucket>, start: int, end: int, step: int)
    requires step > 0 && Distinct(bs)
    ensures Total(Filled(bs, start, end, step)) + Missed(bs, start, end, step) == Total(bs)
    ensures Total(Filled(bs, start, end, step)) == Total(bs) <==>
            forall k :: 0 <= k < |bs| && !Charted(bs[k], start, end, step) ==> bs[k].count == 0
  {
    SeriesTotal(CountsOf(bs), Grid(Truncate(start, step), end, step));
    TotalOnGrid(bs, start, end, step);
    MissedIs(bs, start, end, step);
  }

  lemma {:induction false} MissedIs(bs: seq<Bucket>, start: int, end: int, step: int)
    requires step > 0
    ensures Missed(bs, start, end, step) == 0 <==>
            forall k :: 0 <= k < |bs| && !Charted(bs[k], start, end, step) ==> bs[k].count == 0
  {
    if bs == [] {
    } else {
      MissedIs(bs[..|bs| - 1], start, end, step);
    }
  }

  /** More than n steps fit in x. */
  lemma MoreSteps(x: nat, step: int, n: nat)
    requires step > 0
    ensures x / step > n <==> x >= (n + 1) * step
  {
    DivIs((n + 1) * step, step, n + 1, 0);
    if x >= (n + 1) * step {
      DivMonotone((n + 1) * step, x, step);
    } else {
      DivMonotone(x, (n + 1) * step - 1, step);
      DivIs((n + 1) * step - 1, step, n, step - 1);
    }
  }

  /** handleVolume from the parsed range and bucket size on; a zero step stops at the
      division and a negative one is refused by the storage adapter. A range of more
      than 2000 whole steps is refused; otherwise the caller gets the chart of the
      buckets, bounded, and with every count but the missed ones in it. */
  method Volume(bs: seq<Bucket>, start: int, end: int, step: int) returns (o: Outcome)
    requires start < end
    ensures o.Stopped? <==> step == 0
    ensures o.Rejected? <==> step < 0
    ensures o.TooMany? <==> step > 0 && end - start >= 2001 * step
    ensures o.Chart? ==> IsChart(o.series, bs, start, end, step) && |o.series| <= 2002
    ensures o.Chart? && Distinct(bs) ==> Total(o.series) + Missed(bs, start, end, step) == Total(bs)
  {
    if step == 0 {
      return Stopped;
    }
    if step > 0 {
      MoreSteps(end - start, step, MAX_BUCKETS);
    }
    if Quotient(end - start, step) > MAX_BUCKETS {
      return TooMany;
    }
    if step < 0 {
      return Rejected;
    }
    var series := ZeroFill(bs, start, end, step);
    ChartShape(bs, start, end, step);
    if Distinct(bs) {
      Conserves(bs, start, end, step);
    }
    return Chart(series);
  }

  // ----- the storage contract's grid -----

  /** What storage promises: buckets at epoch multiples of step, here those from the one
      that holds start. */
  predicate EpochAligned(bs: seq<Bucket>, start: int, end: int, step: int)
    requires step > 0
  {
    forall k :: 0 <= k < |bs| ==> bs[k].time % step == 0 && start - step < bs[k].time <= end
  }

  lemma EpochCharted(b: Bucket, start: int, end: int, step: int)
    requires step > 0 && b.time % step == 0 && start - step < b.time <= end
    ensures Charted(b, start, end, step) <==> ZERO_TIME % step == 0
  {
    ModAdd(b.time, ZERO_TIME, step);
    if ZERO_TIME % step == 0 {
      OnZeroGrid(start, step);
      var first := Truncate(start, step);
      // two grid points less than a step apart are the same
      ModAdd(first + ZERO_TIME, b.time - first, step);
      if b.time < first {
        DivIs(b.time - first, step, -1, b.time - first + step);
      }
    }
  }

  /** On the buckets storage promises, zero-fill keeps the total exactly if the step
      divides the 719162 days from year 1 to the epoch, or there is nothing to keep:
      otherwise the two grids have no point in common and the chart is all zero. */
  lemma EpochBuckets(bs: seq<Bucket>, start: int, end: int, step: int)
    requires step > 0 && Distinct(bs) && EpochAligned(bs, start, end, step)
    ensures ZERO_TIME % step == 0 ==> Total(Filled(bs, start, end, step)) == Total(bs)
    ensures ZERO_TIME % step != 0 ==> Total(Filled(bs, start, end, step)) == 0
  {
    Conserves(bs, start, end, step);
    MissesAll(bs, start, end, step);
  }

  lemma {:induction false} MissesAll(bs: seq<Bucket>, start: int, end: int, step: int)
    requires step > 0 && EpochAligned(bs, start, end, step)
    ensures Missed(bs, start, end, step) == if ZERO_TIME % step == 0 then 0 else Total(bs)
  {
    if bs == [] {
    } else {
      MissesAll(bs[..|bs| - 1], start, end, step);
      EpochCharted(bs[|bs| - 1], start, end, step);
    }
  }

  /** Buckets of a day, an hour or five minutes are kept; a week's are lost. */
  lemma CommonSteps()
    ensures ZERO_TIME % DAY == 0 && ZERO_TIME % (DAY / 24) == 0 && ZERO_TIME % DEFAULT_STEP == 0
    ensures ZERO_TIME % (7 * DAY) == 3 * DAY && DAY == 86_400_000_000_000
  {
  }

  /** One week's bucket of n messages, at an epoch multiple of seven days inside the range
      as storage promises it: the chart is all zero. The same over days shows all n. */
  lemma WeekIsAllZero(n: nat)
    ensures var b := [Bucket(7 * DAY, n)];
            && EpochAligned(b, 0, 14 * DAY, 7 * DAY) && Total(b) == n
            && Total(Filled(b, 0, 14 * DAY, 7 * DAY)) == 0
            && Total(Filled(b, 0, 14 * DAY, DAY)) == n
  {
    var b := [Bucket(7 * DAY, n)];
    CommonSteps();
    assert b[..0] == [];
    assert Total(b) == n;
    EpochBuckets(b, 0, 14 * DAY, 7 * DAY);
    Conserves(b, 0, 14 * DAY, DAY);
    OnZeroGrid(0, DAY);
    assert Charted(b[0], 0, 14 * DAY, DAY);
    hide Filled;
  }

  // ----- bucket sizes -----

  /** The parameter once read: nothing, a whole number of days, or a duration if it is
      one. */
  datatype Size = Blank | Days(n: int) | Duration(d: Option<int>)

  const TWO_64 := 0x1_0000_0000_0000_0000

  function Wrap64(x: int): int {
    (x + TWO_64 / 2) % TWO_64 - TWO_64 / 2
  }

  function ParseBucket(s: Size): Option<int> {
    match s
    case Blank => Some(DEFAULT_STEP)
    case Days(n) => Some(Wrap64(n * DAY))
    case Duration(d) => if d.None? || d.value <= 0 then None else d
  }

  /** Nothing is five minutes, N days are N times 24 hours as far as 64 bits reach, and a
      duration is itself if it is positive. */
  lemma BucketIs(n: int, d: int)
    ensures ParseBucket(Blank) == Some(300_000_000_000)
    ensures -106_751 <= n <= 106_751 ==> ParseBucket(Days(n)) == Some(n * 86_400_000_000_000)
    ensures ParseBucket(Duration(Some(d))) == (if d > 0 then Some(d) else None) && ParseBucket(Duration(None)) == None
  {
    WrapIs(n * DAY);
  }

  /** The documented promise is a positive step. Only the day form can break it: with a
      number below 1, or one so large that the product overflows; between, it counts
      days exactly. */
  lemma BucketIsPositive(s: Size)
    requires ParseBucket(s).Some?
    ensures ParseBucket(s).value > 0 <==> (s.Days? ==> 0 < (s.n * DAY) % TWO_64 < TWO_64 / 2)
    ensures ParseBucket(s).value <= 0 ==> s.Days? && !(1 <= s.n <= 106_751)
    ensures s.Days? && -106_751 <= s.n <= 106_751 ==> ParseBucket(s).value == s.n * DAY
    ensures s.Days? && -106_751 <= s.n <= 106_751 ==> (ParseBucket(s).value > 0 <==> s.n >= 1)
  {
    if s.Days? {
      WrapIs(s.n * DAY);
    }
  }

  lemma WrapIs(x: int)
    ensures Wrap64(x) == if x % TWO_64 < TWO_64 / 2 then x % TWO_64 else x % TWO_64 - TWO_64
  {
  }
}
