/** The near-flat detector: an incremental run and its list-based meaning
    (NearFlatRun and build_near_flat_suspect_intervals in rust/src/segments.rs). */
module SegmentNearFlat {
  import opened SegmentTypes
  import opened SegmentMerge
  import opened SegmentDetectors

  const SUSPECT_NEAR_FLAT_MIN_ONLINE := 100
  const SUSPECT_NEAR_FLAT_MIN_DURATION_SECS := 12 * 60 * 60
  const SUSPECT_NEAR_FLAT_MAX_GAP_SECS := 30 * 60
  const SUSPECT_NEAR_FLAT_MAX_RANGE_RATIO := 0.12
  const SUSPECT_NEAR_FLAT_MAX_MEAN_DELTA_RATIO := 0.015
  const SUSPECT_NEAR_FLAT_MIN_SMALL_DELTA_RATIO := 0.85
  const SUSPECT_NEAR_FLAT_SMALL_DELTA_ABS := 3

  /** An accepted sample of a run. */
  datatype Point = Point(ts: Time, online: int)

  // ---- folds over the accepted samples ----

  function MinOnline(run: seq<Point>): int
    requires run != []
  {
    var last := run[|run| - 1].online;
    if |run| == 1 then last
    else
      var m := MinOnline(run[..|run| - 1]);
      if last < m then last else m
  }

  function MaxOnline(run: seq<Point>): int
    requires run != []
  {
    var last := run[|run| - 1].online;
    if |run| == 1 then last
    else
      var m := MaxOnline(run[..|run| - 1]);
      if last > m then last else m
  }

  function SumOnline(run: seq<Point>): int {
    if run == [] then 0 else SumOnline(run[..|run| - 1]) + run[|run| - 1].online
  }

  /** The total of the absolute changes between neighbours. */
  function SumDelta(run: seq<Point>): int {
    if |run| <= 1 then 0
    else SumDelta(run[..|run| - 1]) + Abs(run[|run| - 1].online - run[|run| - 2].online)
  }

  /** The number of neighbours that differ by at most three players. */
  function SmallDeltas(run: seq<Point>): int {
    if |run| <= 1 then 0
    else
      SmallDeltas(run[..|run| - 1])
      + if Abs(run[|run| - 1].online - run[|run| - 2].online) <= SUSPECT_NEAR_FLAT_SMALL_DELTA_ABS then 1 else 0
  }

  function Mean(run: seq<Point>): real
    requires run != []
  {
    SumOnline(run) as real / |run| as real
  }

  /** What one more sample does to the extremes and the sum. */
  lemma ExtremesSnoc(run: seq<Point>, p: Point)
    requires run != []
    ensures MinOnline(run + [p]) == (if p.online < MinOnline(run) then p.online else MinOnline(run))
    ensures MaxOnline(run + [p]) == (if p.online > MaxOnline(run) then p.online else MaxOnline(run))
    ensures SumOnline(run + [p]) == SumOnline(run) + p.online
  {
    assert (run + [p])[..|run|] == run;
  }

  /** What one more sample does to the folds over the changes. */
  lemma DeltasSnoc(run: seq<Point>, p: Point)
    requires run != []
    ensures var delta := Abs(p.online - run[|run| - 1].online);
      && SumDelta(run + [p]) == SumDelta(run) + delta
      && SmallDeltas(run + [p]) == SmallDeltas(run) + if delta <= SUSPECT_NEAR_FLAT_SMALL_DELTA_ABS then 1 else 0
  {
    assert (run + [p])[..|run|] == run && (run + [p])[|run| - 1] == run[|run| - 1];
  }

  /** One more sample, and what it does to every fold. */
  lemma Snoc(run: seq<Point>, p: Point) returns (longer: seq<Point>)
    requires run != []
    ensures longer == run + [p]
    ensures MinOnline(longer) == (if p.online < MinOnline(run) then p.online else MinOnline(run))
    ensures MaxOnline(longer) == (if p.online > MaxOnline(run) then p.online else MaxOnline(run))
    ensures SumOnline(longer) == SumOnline(run) + p.online
    ensures var delta := Abs(p.online - run[|run| - 1].online);
      && SumDelta(longer) == SumDelta(run) + delta
      && SmallDeltas(longer) == SmallDeltas(run) + if delta <= SUSPECT_NEAR_FLAT_SMALL_DELTA_ABS then 1 else 0
  {
    longer := run + [p];
    ExtremesSnoc(run, p);
    DeltasSnoc(run, p);
  }

  lemma {:induction false} ExtremesBoundRun(run: seq<Point>)
    requires run != []
    ensures forall p :: p in run ==> MinOnline(run) <= p.online <= MaxOnline(run)
    ensures exists p :: p in run && p.online == MinOnline(run)
    ensures exists p :: p in run && p.online == MaxOnline(run)
  {
    var n := |run| - 1;
    assert run == run[..n] + [run[n]];
    if n > 0 {
      ExtremesBoundRun(run[..n]);
      assert run[n] in run;
      var lo :| lo in run[..n] && lo.online == MinOnline(run[..n]);
      var hi :| hi in run[..n] && hi.online == MaxOnline(run[..n]);
      assert lo in run && hi in run;
    } else {
      assert run[0] in run;
    }
  }

  lemma {:induction false} SumAtLeast(run: seq<Point>, least: int)
    requires forall p :: p in run ==> least <= p.online
    ensures SumOnline(run) >= least * |run|
  {
    if run != [] {
      var n := |run| - 1;
      SumAtLeast(run[..n], least);
      assert least * |run| == least * n + least;
    }
  }

  lemma DivideBound(sum: real, least: real, n: real)
    requires n > 0.0 && sum >= least * n
    ensures sum / n >= least
  {
    var q := sum / n;
    assert q * n == sum;
    assert (q - least) * n >= 0.0;
  }

  /** The mean of a run is at least every lower bound of its counts. */
  lemma MeanAtLeast(run: seq<Point>, least: int)
    requires run != [] && forall p :: p in run ==> least <= p.online
    ensures Mean(run) >= least as real
  {
    SumAtLeast(run, least);
    var n := |run| as real;
    assert SumOnline(run) as real >= (least * |run|) as real == least as real * n;
    DivideBound(SumOnline(run) as real, least as real, n);
  }

  /** At least twelve hours of at least two samples that stay within 12% of their mean, change by
      1.5% of it on average, and by at most three players in 85% of the steps. */
  predicate NearFlat(run: seq<Point>, runEnd: Time)
    requires run != [] && Mean(run) > 0.0
  {
    && runEnd - run[0].ts >= SUSPECT_NEAR_FLAT_MIN_DURATION_SECS
    && |run| >= 2
    && (MaxOnline(run) - MinOnline(run)) as real / Mean(run) <= SUSPECT_NEAR_FLAT_MAX_RANGE_RATIO
    && (SumDelta(run) as real / (|run| - 1) as real) / Mean(run) <= SUSPECT_NEAR_FLAT_MAX_MEAN_DELTA_RATIO
    && SmallDeltas(run) as real / (|run| - 1) as real >= SUSPECT_NEAR_FLAT_MIN_SMALL_DELTA_RATIO
  }

  /** A run changes in total at least by what lies between any two of its counts. */
  lemma {:induction false} DeltasSpan(run: seq<Point>, i: nat, j: nat)
    requires i <= j < |run|
    ensures -SumDelta(run) <= run[j].online - run[i].online <= SumDelta(run)
    decreases |run|
  {
    var n := |run| - 1;
    if n > 0 {
      var front := run[..n];
      if j < n {
        DeltasSpan(front, i, j);
      } else if i < n {
        DeltasSpan(front, i, n - 1);
      } else {
        DeltasSpan(front, 0, 0);
      }
    }
  }

  /** The steps of at most three players. */
  predicate IsSmallStep(run: seq<Point>, i: int) {
    0 < i < |run| && -3 <= run[i].online - run[i - 1].online <= 3
  }

  function SmallSteps(run: seq<Point>): set<int> {
    set i | 0 < i < |run| && IsSmallStep(run, i)
  }

  lemma {:induction false} SmallDeltasCount(run: seq<Point>)
    ensures SmallDeltas(run) == |SmallSteps(run)|
  {
    if |run| <= 1 {
      assert SmallSteps(run) == {};
    } else {
      var n := |run| - 1;
      SmallDeltasCount(run[..n]);
      var before := SmallSteps(run[..n]);
      assert forall i :: 0 < i < n ==> (IsSmallStep(run, i) <==> IsSmallStep(run[..n], i));
      assert SmallSteps(run) == if IsSmallStep(run, n) then before + {n} else before;
    }
  }

  lemma QuotientAtMost(x: real, y: real, c: real)
    requires y > 0.0
    ensures x / y <= c <==> x <= c * y
  {
    var q := x / y;
    assert q * y == x;
    assert (c - q) * y == c * y - x;
    if q <= c {
      assert (c - q) * y >= 0.0;
    } else {
      assert (q - c) * y > 0.0;
    }
  }

  lemma ScaledOrder(a: real, b: real, n: real)
    requires n > 0.0
    ensures a <= b <==> a * n <= b * n
  {
    assert (b - a) * n == b * n - a * n;
    if a <= b {
      assert (b - a) * n >= 0.0;
    } else {
      assert (a - b) * n > 0.0;
    }
  }

  lemma PositiveMean(run: seq<Point>)
    requires run != [] && Mean(run) > 0.0
    ensures SumOnline(run) > 0
  {
    var n := |run| as real;
    assert Mean(run) * n == SumOnline(run) as real;
    assert Mean(run) * n > 0.0;
  }

  /** The mean of a positive sum, and the ratio to it as a comparison of products. */
  lemma RatioToMean(x: real, sum: int, n: int, c: real)
    requires n > 0 && sum > 0
    ensures sum as real / n as real > 0.0
    ensures x / (sum as real / n as real) <= c <==> x * n as real <= c * sum as real
  {
    var mean := sum as real / n as real;
    assert mean * n as real == sum as real;
    ScaledOrder(mean, 0.0, n as real);
    QuotientAtMost(x, mean, c);
    ScaledOrder(x, c * mean, n as real);
    assert (c * mean) * n as real == c * (mean * n as real);
  }

  lemma RangeInWholeNumbers(range: int, sum: int, n: int)
    requires n > 0 && sum > 0
    ensures range as real / (sum as real / n as real) <= 0.12 <==> 25 * (range * n) <= 3 * sum
  {
    RatioToMean(range as real, sum, n, 0.12);
    assert (range * n) as real == range as real * n as real;
  }

  lemma DeltasInWholeNumbers(deltas: int, steps: int, sum: int, n: int)
    requires n > 0 && steps > 0 && sum > 0
    ensures (deltas as real / steps as real) / (sum as real / n as real) <= 0.015
       <==> 200 * (deltas * n) <= 3 * (sum * steps)
  {
    var d, k, s := deltas as real, steps as real, sum as real;
    RatioToMean(d / k, sum, n, 0.015);
    assert (d / k) * k == d;
    ScaledOrder((d / k) * n as real, 0.015 * s, k);
    assert ((d / k) * n as real) * k == ((d / k) * k) * n as real;
    assert (deltas * n) as real == d * n as real && (sum * steps) as real == s * k;
    assert (0.015 * s) * k == 0.015 * (s * k);
  }

  lemma SharesInWholeNumbers(small: int, steps: int)
    requires steps > 0
    ensures small as real / steps as real >= 0.85 <==> 20 * small >= 17 * steps
  {
    var q, k := small as real / steps as real, steps as real;
    assert q * k == small as real;
    ScaledOrder(0.85, q, k);
  }

  /** Counts that differ by `range` differ by at most 12% of the mean of n counts with this sum. */
  predicate InBand(range: int, sum: int, n: nat) {
    25 * (range * n) <= 3 * sum
  }

  lemma NarrowerInBand(narrow: int, range: int, sum: int, n: nat)
    requires narrow <= range && InBand(range, sum, n)
    ensures InBand(narrow, sum, n)
  {
    assert (range - narrow) * n == range * n - narrow * n;
    assert (range - narrow) * n >= 0;
  }

  /** No two counts of the run are further apart than 12% of their mean, the sum of the counts given. */
  predicate KeepsBand(run: seq<Point>, sum: int) {
    forall p, q :: p in run && q in run ==> InBand(p.online - q.online, sum, |run|)
  }

  lemma RangeKeepsBand(run: seq<Point>, least: int, most: int, sum: int)
    requires forall p :: p in run ==> least <= p.online <= most
    requires InBand(most - least, sum, |run|)
    ensures KeepsBand(run, sum)
  {
    forall p, q | p in run && q in run ensures InBand(p.online - q.online, sum, |run|) {
      NarrowerInBand(p.online - q.online, most - least, sum, |run|);
    }
  }

  /** Counts between two of the run's own, taken in it, keep the band exactly when those two do. */
  lemma BandOfExtremes(run: seq<Point>, lo: Point, hi: Point, sum: int)
    requires lo in run && hi in run && forall p :: p in run ==> lo.online <= p.online <= hi.online
    ensures KeepsBand(run, sum) <==> InBand(hi.online - lo.online, sum, |run|)
  {
    if InBand(hi.online - lo.online, sum, |run|) {
      RangeKeepsBand(run, lo.online, hi.online, sum);
    }
  }

  lemma BandIsRange(run: seq<Point>, sum: int)
    requires run != []
    ensures KeepsBand(run, sum) <==> InBand(MaxOnline(run) - MinOnline(run), sum, |run|)
  {
    ExtremesBoundRun(run);
    var lo :| lo in run && lo.online == MinOnline(run);
    var hi :| hi in run && hi.online == MaxOnline(run);
    BandOfExtremes(run, lo, hi, sum);
  }

  /** What qualifies, in whole numbers and on the samples themselves: twelve hours, two samples, a band of
      12% of the mean, changes of 1.5% of it on average, and 85% of the steps small. */
  lemma NearFlatExactly(run: seq<Point>, runEnd: Time)
    requires run != [] && Mean(run) > 0.0
    ensures NearFlat(run, runEnd) <==>
      && runEnd - run[0].ts >= 43200 && |run| >= 2 && KeepsBand(run, SumOnline(run))
      && 200 * (SumDelta(run) * |run|) <= 3 * (SumOnline(run) * (|run| - 1))
      && 20 * |SmallSteps(run)| >= 17 * (|run| - 1)
  {
    var n, sum := |run|, SumOnline(run);
    PositiveMean(run);
    SmallDeltasCount(run);
    assert KeepsBand(run, sum) <==> (MaxOnline(run) - MinOnline(run)) as real / Mean(run) <= 0.12 by {
      BandIsRange(run, sum);
      RangeInWholeNumbers(MaxOnline(run) - MinOnline(run), sum, n);
    }
    if n >= 2 {
      assert (SumDelta(run) as real / (n - 1) as real) / Mean(run) <= 0.015
        <==> 200 * (SumDelta(run) * n) <= 3 * (sum * (n - 1)) by {
        DeltasInWholeNumbers(SumDelta(run), n - 1, sum, n);
      }
      SharesInWholeNumbers(SmallDeltas(run), n - 1);
    }
  }

  /** The run as the detector keeps it: running totals instead of the list. The two sums are whole
      numbers that the source keeps in floating point. */
  class NearFlatRun {
    var start: Time
    var previousTs: Time
    var previousOnline: int
    var minOnline: int
    var maxOnline: int
    var sumOnline: int
    var sampleCount: int
    var sumDelta: int
    var smallDeltaCount: int
    var transitionCount: int
    ghost var accepted: seq<Point>

    /** Every total equals its recomputation from the accepted samples. */
    ghost predicate Valid()
      reads this
    {
      && accepted != []
      && start == accepted[0].ts
      && previousTs == accepted[|accepted| - 1].ts
      && previousOnline == accepted[|accepted| - 1].online
      && minOnline == MinOnline(accepted)
      && maxOnline == MaxOnline(accepted)
      && sumOnline == SumOnline(accepted)
      && sampleCount == |accepted|
      && sumDelta == SumDelta(accepted)
      && smallDeltaCount == SmallDeltas(accepted)
      && transitionCount == |accepted| - 1
    }

    constructor (ts: Time, online: int)
      ensures Valid() && accepted == [Point(ts, online)]
    {
      start, previousTs, previousOnline := ts, ts, online;
      minOnline, maxOnline, sumOnline, sampleCount := online, online, online, 1;
      sumDelta, smallDeltaCount, transitionCount := 0, 0, 0;
      accepted := [Point(ts, online)];
    }

    method Push(ts: Time, online: int)
      requires Valid()
      modifies this
      ensures Valid() && accepted == old(accepted) + [Point(ts, online)]
    {
      ghost var longer := Snoc(accepted, Point(ts, online));
      var delta := Abs(online - previousOnline);
      minOnline := if online < minOnline then online else minOnline;
      maxOnline := if online > maxOnline then online else maxOnline;
      sumOnline := sumOnline + online;
      sampleCount := sampleCount + 1;
      sumDelta := sumDelta + delta;
      if delta <= SUSPECT_NEAR_FLAT_SMALL_DELTA_ABS {
        smallDeltaCount := smallDeltaCount + 1;
      }
      transitionCount := transitionCount + 1;
      previousTs := ts;
      previousOnline := online;
      accepted := longer;
    }

    /** With positive counts the guards on the mean and on the transitions never decide. */
    method Qualifies(runEnd: Time) returns (b: bool)
      requires Valid() && forall p :: p in accepted ==> p.online >= 1
      ensures Mean(accepted) >= 1.0
      ensures b == NearFlat(accepted, runEnd)
    {
      MeanAtLeast(accepted, 1);
      if runEnd - start < SUSPECT_NEAR_FLAT_MIN_DURATION_SECS {
        return false;
      }
      var meanOnline := sumOnline as real / sampleCount as real;
      if sampleCount < 2 || transitionCount <= 0 || meanOnline <= 0.0 {
        return false;
      }
      var rangeRatio := (maxOnline - minOnline) as real / meanOnline;
      if rangeRatio > SUSPECT_NEAR_FLAT_MAX_RANGE_RATIO {
        return false;
      }
      var meanDeltaRatio := (sumDelta as real / transitionCount as real) / meanOnline;
      if meanDeltaRatio > SUSPECT_NEAR_FLAT_MAX_MEAN_DELTA_RATIO {
        return false;
      }
      var smallDeltaRatio := smallDeltaCount as real / transitionCount as real;
      b := smallDeltaRatio >= SUSPECT_NEAR_FLAT_MIN_SMALL_DELTA_RATIO;
    }
  }

  // ---- splitting the samples into runs ----

  /** A run that has ended, and where it is taken to end. */
  datatype Ended = Ended(run: seq<Point>, end: Time)

  /** The ended runs and the run in progress; the latter is empty when there is none. */
  datatype Scan = Scan(ended: seq<Ended>, run: seq<Point>)

  function End(scan: Scan, end: Time): Scan {
    if scan.run == [] then scan else Scan(scan.ended + [Ended(scan.run, end)], [])
  }

  function Accept(scan: Scan, p: Point): Scan {
    if scan.run == [] then scan.(run := [p])
    else
      var previous := scan.run[|scan.run| - 1].ts;
      if p.ts <= previous then scan
      else if p.ts - previous > SUSPECT_NEAR_FLAT_MAX_GAP_SECS then End(scan, previous).(run := [p])
      else scan.(run := scan.run + [p])
  }

  /** A run goes on while samples report at least `minOnline` players and no gap exceeds half an
      hour; samples not later than the one before are passed over. */
  function ScanRuns(samples: seq<Sample>, minOnline: int): Scan {
    if samples == [] then Scan([], [])
    else
      var before := ScanRuns(samples[..|samples| - 1], minOnline);
      var sample := samples[|samples| - 1];
      if sample.online.None? || sample.online.value < minOnline then End(before, sample.ts)
      else Accept(before, Point(sample.ts, sample.online.value))
  }

  /** All runs, the last one extended to the end of the window when that is near. */
  function AllRuns(samples: seq<Sample>, minOnline: int, windowEnd: Time): seq<Ended> {
    var scan := ScanRuns(samples, minOnline);
    if scan.run == [] then scan.ended
    else
      var previous := scan.run[|scan.run| - 1].ts;
      End(scan, if windowEnd - previous > SUSPECT_NEAR_FLAT_MAX_GAP_SECS then previous else windowEnd).ended
  }

  /** The shape of a run: counts at or above the minimum, strictly later samples, short gaps. */
  predicate WellShaped(run: seq<Point>, minOnline: int) {
    && (forall p :: p in run ==> p.online >= minOnline)
    && (forall i :: 0 < i < |run| ==> 0 < run[i].ts - run[i - 1].ts <= 1800)
  }

  lemma WellShapedSnoc(run: seq<Point>, p: Point, minOnline: int)
    requires WellShaped(run, minOnline) && run != [] && p.online >= minOnline
    requires 0 < p.ts - run[|run| - 1].ts <= SUSPECT_NEAR_FLAT_MAX_GAP_SECS
    ensures WellShaped(run + [p], minOnline)
  {
    var longer := run + [p];
    forall i | 0 < i < |longer| ensures 0 < longer[i].ts - longer[i - 1].ts <= SUSPECT_NEAR_FLAT_MAX_GAP_SECS {
      if i < |run| {
        assert longer[i] == run[i] && longer[i - 1] == run[i - 1];
      }
    }
  }

  /** A scan all of whose runs are well shaped. */
  ghost predicate WellScanned(scan: Scan, minOnline: int) {
    && WellShaped(scan.run, minOnline)
    && forall e :: e in scan.ended ==> e.run != [] && WellShaped(e.run, minOnline)
  }

  lemma EndWellScanned(scan: Scan, end: Time, minOnline: int)
    requires WellScanned(scan, minOnline)
    ensures WellScanned(End(scan, end), minOnline)
  {
  }

  lemma AcceptWellScanned(scan: Scan, p: Point, minOnline: int)
    requires WellScanned(scan, minOnline) && p.online >= minOnline
    ensures WellScanned(Accept(scan, p), minOnline)
  {
    if scan.run != [] {
      var previous := scan.run[|scan.run| - 1].ts;
      if p.ts - previous > SUSPECT_NEAR_FLAT_MAX_GAP_SECS {
        EndWellScanned(scan, previous, minOnline);
      } else if p.ts > previous {
        WellShapedSnoc(scan.run, p, minOnline);
      }
    }
  }

  /** Every run, ended or in progress, is well shaped. */
  lemma {:induction false} RunsAreWellShaped(samples: seq<Sample>, minOnline: int)
    ensures WellScanned(ScanRuns(samples, minOnline), minOnline)
  {
    if samples != [] {
      var n := |samples| - 1;
      RunsAreWellShaped(samples[..n], minOnline);
      var before, sample := ScanRuns(samples[..n], minOnline), samples[n];
      if sample.online.Some? && sample.online.value >= minOnline {
        AcceptWellScanned(before, Point(sample.ts, sample.online.value), minOnline);
      } else {
        EndWellScanned(before, sample.ts, minOnline);
      }
    }
  }

  // ---- the runs are the maximal stretches ----

  /** The sample reports at least the minimum. */
  predicate High(samples: seq<Sample>, minOnline: int, k: int) {
    0 <= k < |samples| && samples[k].online.Some? && samples[k].online.value >= minOnline
  }

  /** The sample and the one before it are high, and no long gap lies between them. */
  predicate Linked(samples: seq<Sample>, minOnline: int, k: int) {
    && High(samples, minOnline, k - 1) && High(samples, minOnline, k)
    && samples[k].ts - samples[k - 1].ts <= 1800
  }

  /** High samples from a up to b, each linked to the one before, which nothing before them joins. */
  predicate Chain(samples: seq<Sample>, minOnline: int, a: int, b: int) {
    && 0 <= a < b <= |samples|
    && (forall k :: a <= k < b ==> High(samples, minOnline, k))
    && (forall k :: a < k < b ==> Linked(samples, minOnline, k))
    && !Linked(samples, minOnline, a)
  }

  /** A maximal stretch: nothing after it joins it either. */
  predicate Stretch(samples: seq<Sample>, minOnline: int, a: int, b: int) {
    Chain(samples, minOnline, a, b) && !Linked(samples, minOnline, b)
  }

  /** The samples of a stretch; of several at one time only the first counts. */
  function Points(samples: seq<Sample>, minOnline: int, a: nat, b: nat): seq<Point>
    requires a <= b <= |samples| && forall k :: a <= k < b ==> High(samples, minOnline, k)
  {
    if a == b then []
    else
      assert High(samples, minOnline, b - 1);
      var before, last := Points(samples, minOnline, a, b - 1), samples[b - 1];
      if a < b - 1 && last.ts == samples[b - 2].ts then before else before + [Point(last.ts, last.online.value)]
  }

  /** Where a stretch ends: at the low sample that breaks it, at its own last sample when a long gap
      follows, and at the end of the window when that is near and nothing follows. */
  function StretchEnd(samples: seq<Sample>, minOnline: int, windowEnd: Time, b: nat): Time
    requires 0 < b <= |samples|
  {
    var last := samples[b - 1].ts;
    if b < |samples| then (if High(samples, minOnline, b) then last else samples[b].ts)
    else if windowEnd - last > 1800 then last else windowEnd
  }

  function RunOf(samples: seq<Sample>, minOnline: int, windowEnd: Time, a: nat, b: nat): Ended
    requires Chain(samples, minOnline, a, b)
  {
    Ended(Points(samples, minOnline, a, b), StretchEnd(samples, minOnline, windowEnd, b))
  }

  /** Where the chain that sample k belongs to starts. */
  function ChainStart(samples: seq<Sample>, minOnline: int, k: nat): (a: nat)
    ensures a <= k
  {
    if k > 0 && Linked(samples, minOnline, k) then ChainStart(samples, minOnline, k - 1) else k
  }

  lemma {:induction false} ChainStartCorrect(samples: seq<Sample>, minOnline: int, k: nat)
    requires High(samples, minOnline, k)
    ensures Chain(samples, minOnline, ChainStart(samples, minOnline, k), k + 1)
  {
    if k > 0 && Linked(samples, minOnline, k) {
      ChainStartCorrect(samples, minOnline, k - 1);
    }
  }

  lemma {:induction false} ChainStartUnique(samples: seq<Sample>, minOnline: int, a: nat, b: nat)
    requires Chain(samples, minOnline, a, b)
    ensures a == ChainStart(samples, minOnline, b - 1)
  {
    if a < b - 1 {
      ChainStartUnique(samples, minOnline, a, b - 1);
    }
  }

  lemma {:induction false} PointsEndLast(samples: seq<Sample>, minOnline: int, a: nat, b: nat)
    requires a < b <= |samples| && forall k :: a <= k < b ==> High(samples, minOnline, k)
    ensures Points(samples, minOnline, a, b) != []
    ensures Points(samples, minOnline, a, b)[|Points(samples, minOnline, a, b)| - 1].ts == samples[b - 1].ts
    ensures Points(samples, minOnline, a, b)[0].ts == samples[a].ts
  {
    if a < b - 1 {
      PointsEndLast(samples, minOnline, a, b - 1);
    }
  }

  /** Sample b - 1 is the last of its stretch. */
  predicate Closes(samples: seq<Sample>, minOnline: int, b: int) {
    High(samples, minOnline, b - 1) && !Linked(samples, minOnline, b)
  }

  /** The run of that stretch. */
  function RunTo(samples: seq<Sample>, minOnline: int, windowEnd: Time, b: nat): Ended
    requires b > 0 && High(samples, minOnline, b - 1)
  {
    ChainStartCorrect(samples, minOnline, b - 1);
    RunOf(samples, minOnline, windowEnd, ChainStart(samples, minOnline, b - 1), b)
  }

  /** The run of a stretch that ends before index n. */
  predicate ClosedBefore(samples: seq<Sample>, minOnline: int, windowEnd: Time, n: nat, e: Ended) {
    exists b :: 0 < b < n && Closes(samples, minOnline, b) && e == RunTo(samples, minOnline, windowEnd, b)
  }

  /** The scan after n samples: the stretches that have ended, and the chain in progress. */
  ghost predicate ScannedTo(samples: seq<Sample>, minOnline: int, windowEnd: Time, n: nat, scan: Scan)
    requires n <= |samples|
  {
    && (forall e :: e in scan.ended <==> ClosedBefore(samples, minOnline, windowEnd, n, e))
    && (if n > 0 && High(samples, minOnline, n - 1)
        then scan.run == RunTo(samples, minOnline, windowEnd, n).run
        else scan.run == [])
  }

  lemma ClosedOneMore(samples: seq<Sample>, minOnline: int, windowEnd: Time, n: nat, e: Ended)
    ensures ClosedBefore(samples, minOnline, windowEnd, n + 1, e) <==>
            || ClosedBefore(samples, minOnline, windowEnd, n, e)
            || (0 < n && Closes(samples, minOnline, n) && e == RunTo(samples, minOnline, windowEnd, n))
  {
  }

  /** The chain in progress ends before sample n. */
  lemma EndsStretch(samples: seq<Sample>, minOnline: int, windowEnd: Time, n: nat, scan: Scan)
    requires n < |samples| && ScannedTo(samples, minOnline, windowEnd, n, scan)
    requires !Linked(samples, minOnline, n)
    ensures var end := if n > 0 && High(samples, minOnline, n) then samples[n - 1].ts else samples[n].ts;
            forall e :: e in End(scan, end).ended <==> ClosedBefore(samples, minOnline, windowEnd, n + 1, e)
  {
    var end := if n > 0 && High(samples, minOnline, n) then samples[n - 1].ts else samples[n].ts;
    if n > 0 && High(samples, minOnline, n - 1) {
      var run := RunTo(samples, minOnline, windowEnd, n);
      ChainStartCorrect(samples, minOnline, n - 1);
      PointsEndLast(samples, minOnline, ChainStart(samples, minOnline, n - 1), n);
      assert run == Ended(scan.run, end) && End(scan, end).ended == scan.ended + [run];
    }
    forall e ensures e in End(scan, end).ended <==> ClosedBefore(samples, minOnline, windowEnd, n + 1, e) {
      ClosedOneMore(samples, minOnline, windowEnd, n, e);
    }
  }

  /** The chain in progress goes on with sample n. */
  lemma ExtendsStretch(samples: seq<Sample>, minOnline: int, windowEnd: Time, n: nat, scan: Scan)
    requires n < |samples| && Ordered(samples) && ScannedTo(samples, minOnline, windowEnd, n, scan)
    requires Linked(samples, minOnline, n)
    ensures ScannedTo(samples, minOnline, windowEnd, n + 1,
              Accept(scan, Point(samples[n].ts, samples[n].online.value)))
  {
    var a := ChainStart(samples, minOnline, n - 1);
    ChainStartCorrect(samples, minOnline, n - 1);
    ChainStartCorrect(samples, minOnline, n);
    PointsEndLast(samples, minOnline, a, n);
    assert samples[n - 1].ts <= samples[n].ts;
    forall e ensures ClosedBefore(samples, minOnline, windowEnd, n + 1, e)
                <==> ClosedBefore(samples, minOnline, windowEnd, n, e)
    {
      ClosedOneMore(samples, minOnline, windowEnd, n, e);
    }
  }

  lemma StretchOfOne(samples: seq<Sample>, minOnline: int, windowEnd: Time, n: nat)
    requires High(samples, minOnline, n) && !Linked(samples, minOnline, n)
    ensures RunTo(samples, minOnline, windowEnd, n + 1).run == [Point(samples[n].ts, samples[n].online.value)]
  {
    ChainStartCorrect(samples, minOnline, n);
    assert ChainStart(samples, minOnline, n) == n && Points(samples, minOnline, n, n) == [];
  }

  /** Sample n starts a chain of its own. */
  lemma StartsStretch(samples: seq<Sample>, minOnline: int, windowEnd: Time, n: nat, scan: Scan)
    requires n < |samples| && Ordered(samples) && ScannedTo(samples, minOnline, windowEnd, n, scan)
    requires High(samples, minOnline, n) && !Linked(samples, minOnline, n)
    ensures ScannedTo(samples, minOnline, windowEnd, n + 1,
              Accept(scan, Point(samples[n].ts, samples[n].online.value)))
  {
    var p := Point(samples[n].ts, samples[n].online.value);
    EndsStretch(samples, minOnline, windowEnd, n, scan);
    StretchOfOne(samples, minOnline, windowEnd, n);
    if n > 0 && High(samples, minOnline, n - 1) {
      ChainStartCorrect(samples, minOnline, n - 1);
      PointsEndLast(samples, minOnline, ChainStart(samples, minOnline, n - 1), n);
      assert Accept(scan, p) == End(scan, samples[n - 1].ts).(run := [p]);
    } else {
      assert Accept(scan, p) == scan.(run := [p]);
    }
  }

  lemma {:induction false} ScanFindsStretches(samples: seq<Sample>, minOnline: int, windowEnd: Time, n: nat)
    requires Ordered(samples) && n <= |samples|
    ensures ScannedTo(samples, minOnline, windowEnd, n, ScanRuns(samples[..n], minOnline))
  {
    if n > 0 {
      var k := n - 1;
      ScanFindsStretches(samples, minOnline, windowEnd, k);
      assert samples[..n][..k] == samples[..k];
      var scan := ScanRuns(samples[..k], minOnline);
      if !High(samples, minOnline, k) {
        EndsStretch(samples, minOnline, windowEnd, k, scan);
      } else if Linked(samples, minOnline, k) {
        ExtendsStretch(samples, minOnline, windowEnd, k, scan);
      } else {
        StartsStretch(samples, minOnline, windowEnd, k, scan);
      }
    }
  }

  /** The run of some maximal stretch. */
  ghost predicate IsStretchRun(samples: seq<Sample>, minOnline: int, windowEnd: Time, e: Ended) {
    exists a, b :: Stretch(samples, minOnline, a, b) && e == RunOf(samples, minOnline, windowEnd, a, b)
  }

  lemma StretchesAreClosed(samples: seq<Sample>, minOnline: int, windowEnd: Time, e: Ended)
    ensures IsStretchRun(samples, minOnline, windowEnd, e)
       <==> ClosedBefore(samples, minOnline, windowEnd, |samples| + 1, e)
  {
    if IsStretchRun(samples, minOnline, windowEnd, e) {
      var a, b :| Stretch(samples, minOnline, a, b) && e == RunOf(samples, minOnline, windowEnd, a, b);
      ChainStartUnique(samples, minOnline, a, b);
      assert Closes(samples, minOnline, b);
    }
    if ClosedBefore(samples, minOnline, windowEnd, |samples| + 1, e) {
      var b :| 0 < b < |samples| + 1 && Closes(samples, minOnline, b) && e == RunTo(samples, minOnline, windowEnd, b);
      ChainStartCorrect(samples, minOnline, b - 1);
      assert Stretch(samples, minOnline, ChainStart(samples, minOnline, b - 1), b);
    }
  }

  /** For samples in time order the runs are exactly the maximal stretches: none is missed and none
      is cut short. */
  lemma RunsAreStretches(samples: seq<Sample>, minOnline: int, windowEnd: Time, e: Ended)
    requires Ordered(samples)
    ensures e in AllRuns(samples, minOnline, windowEnd) <==> IsStretchRun(samples, minOnline, windowEnd, e)
  {
    var n := |samples|;
    var scan := ScanRuns(samples, minOnline);
    ScanFindsStretches(samples, minOnline, windowEnd, n);
    assert samples[..n] == samples;
    StretchesAreClosed(samples, minOnline, windowEnd, e);
    ClosedOneMore(samples, minOnline, windowEnd, n, e);
    if n > 0 && High(samples, minOnline, n - 1) {
      ChainStartCorrect(samples, minOnline, n - 1);
      PointsEndLast(samples, minOnline, ChainStart(samples, minOnline, n - 1), n);
      ChainStartCorrect(samples, minOnline, n - 1);
      assert AllRuns(samples, minOnline, windowEnd) == scan.ended + [RunTo(samples, minOnline, windowEnd, n)];
    }
  }

  /** An ended run with positive counts that qualifies and covers the instant. */
  predicate FlatCovers(e: Ended, t: Time) {
    && e.run != [] && Mean(e.run) > 0.0
    && NearFlat(e.run, e.end) && e.run[0].ts <= t < e.end
  }

  predicate SomeFlatCovers(runs: seq<Ended>, t: Time) {
    exists e :: e in runs && FlatCovers(e, t)
  }

  lemma SomeFlatCoversSnoc(runs: seq<Ended>, e: Ended, t: Time)
    ensures SomeFlatCovers(runs + [e], t) <==> SomeFlatCovers(runs, t) || FlatCovers(e, t)
  {
    assert forall x :: x in runs + [e] <==> x in runs || x == e;
  }

  function NearFlatMinimum(stagnantMinOnline: int): int {
    if stagnantMinOnline > SUSPECT_NEAR_FLAT_MIN_ONLINE then stagnantMinOnline else SUSPECT_NEAR_FLAT_MIN_ONLINE
  }

  /** The instant lies in a run of the scan that is nearly flat. */
  predicate ScannedFlatAt(samples: seq<Sample>, windowEnd: Time, stagnantMinOnline: int, t: Time) {
    && |samples| >= 2 && stagnantMinOnline > 0
    && SomeFlatCovers(AllRuns(samples, NearFlatMinimum(stagnantMinOnline), windowEnd), t)
  }

  predicate SomeStretchCovers(samples: seq<Sample>, windowEnd: Time, minOnline: int, t: Time) {
    exists a, b :: 0 <= a < b <= |samples| && Stretch(samples, minOnline, a, b)
                   && FlatCovers(RunOf(samples, minOnline, windowEnd, a, b), t)
  }

  /** The instant lies in a maximal stretch of high samples that is nearly flat. */
  predicate NearFlatAt(samples: seq<Sample>, windowEnd: Time, stagnantMinOnline: int, t: Time) {
    && |samples| >= 2 && stagnantMinOnline > 0
    && SomeStretchCovers(samples, windowEnd, if stagnantMinOnline > 100 then stagnantMinOnline else 100, t)
  }

  lemma StretchesCoverAlike(samples: seq<Sample>, windowEnd: Time, minOnline: int, t: Time)
    requires Ordered(samples)
    ensures SomeFlatCovers(AllRuns(samples, minOnline, windowEnd), t)
       <==> SomeStretchCovers(samples, windowEnd, minOnline, t)
  {
    forall e ensures e in AllRuns(samples, minOnline, windowEnd) <==> IsStretchRun(samples, minOnline, windowEnd, e) {
      RunsAreStretches(samples, minOnline, windowEnd, e);
    }
    if SomeStretchCovers(samples, windowEnd, minOnline, t) {
      var a, b :| 0 <= a < b <= |samples| && Stretch(samples, minOnline, a, b)
                  && FlatCovers(RunOf(samples, minOnline, windowEnd, a, b), t);
      assert IsStretchRun(samples, minOnline, windowEnd, RunOf(samples, minOnline, windowEnd, a, b));
    }
  }

  /** For samples in time order the two are the same. */
  lemma ScanMeansStretches(samples: seq<Sample>, windowEnd: Time, stagnantMinOnline: int, t: Time)
    requires Ordered(samples)
    ensures ScannedFlatAt(samples, windowEnd, stagnantMinOnline, t)
       <==> NearFlatAt(samples, windowEnd, stagnantMinOnline, t)
  {
    StretchesCoverAlike(samples, windowEnd, NearFlatMinimum(stagnantMinOnline), t);
  }

  /** The intervals pushed so far cover what the ended runs cover inside the window. */
  ghost predicate FlatScanned(intervals: seq<Interval>, runs: seq<Ended>, windowStart: Time, windowEnd: Time) {
    && Detected(intervals, AutoSuspect, windowStart, windowEnd)
    && forall t: Time :: Covered(intervals, TagOf(AutoSuspect), t) <==>
         windowStart <= t < windowEnd && SomeFlatCovers(runs, t)
  }

  method PushNearFlatSuspectRun(intervals: seq<Interval>, run: NearFlatRun?, runEnd: Time,
                                windowStart: Time, windowEnd: Time, ghost scan: Scan)
    returns (pushed: seq<Interval>)
    requires FlatScanned(intervals, scan.ended, windowStart, windowEnd)
    requires run == null <==> scan.run == []
    requires run != null ==> run.Valid() && run.accepted == scan.run
    requires forall p :: p in scan.run ==> p.online >= 1
    ensures FlatScanned(pushed, End(scan, runEnd).ended, windowStart, windowEnd)
  {
    if run == null {
      return intervals;
    }
    ghost var e := Ended(scan.run, runEnd);
    forall t: Time
      ensures SomeFlatCovers(scan.ended + [e], t) <==> SomeFlatCovers(scan.ended, t) || FlatCovers(e, t)
    {
      SomeFlatCoversSnoc(scan.ended, e, t);
    }
    var qualifies := run.Qualifies(runEnd);
    if !qualifies {
      return intervals;
    }
    pushed := PushClamped(intervals, AutoSuspect, run.start, runEnd, windowStart, windowEnd);
    PushClampedDetected(intervals, AutoSuspect, run.start, runEnd, windowStart, windowEnd);
    forall t: Time
      ensures Covered(pushed, TagOf(AutoSuspect), t) <==>
              Covered(intervals, TagOf(AutoSuspect), t)
              || (run.start <= t < runEnd && windowStart <= t < windowEnd)
    {
      PushClampedCovers(intervals, AutoSuspect, run.start, runEnd, windowStart, windowEnd, TagOf(AutoSuspect), t);
    }
  }

  /** A sample at or above the minimum: it starts a run, is passed over, ends the run, or joins it. */
  method AcceptSample(intervals: seq<Interval>, run: NearFlatRun?, ts: Time, online: int,
                      windowStart: Time, windowEnd: Time, ghost scan: Scan)
    returns (pushed: seq<Interval>, next: NearFlatRun)
    requires FlatScanned(intervals, scan.ended, windowStart, windowEnd)
    requires run == null <==> scan.run == []
    requires run != null ==> run.Valid() && run.accepted == scan.run
    requires forall p :: p in scan.run ==> p.online >= 1
    modifies run
    ensures next == run || fresh(next)
    ensures next.Valid() && next.accepted == Accept(scan, Point(ts, online)).run
    ensures FlatScanned(pushed, Accept(scan, Point(ts, online)).ended, windowStart, windowEnd)
  {
    pushed := intervals;
    if run == null {
      next := new NearFlatRun(ts, online);
    } else if ts <= run.previousTs {
      next := run;
    } else if ts - run.previousTs > SUSPECT_NEAR_FLAT_MAX_GAP_SECS {
      pushed := PushNearFlatSuspectRun(intervals, run, run.previousTs, windowStart, windowEnd, scan);
      next := new NearFlatRun(ts, online);
    } else {
      run.Push(ts, online);
      next := run;
    }
  }

  /** The loop over the samples, and the push of what is left after it. */
  method PushNearFlatSuspectRuns(samples: seq<Sample>, windowStart: Time, windowEnd: Time, minOnline: int)
    returns (intervals: seq<Interval>)
    requires minOnline >= 1
    ensures FlatScanned(intervals, AllRuns(samples, minOnline, windowEnd), windowStart, windowEnd)
  {
    intervals := [];
    var run: NearFlatRun? := null;
    ghost var scan := ScanRuns(samples[..0], minOnline);
    for n := 0 to |samples|
      invariant run != null ==> fresh(run) && run.Valid() && run.accepted == scan.run
      invariant run == null <==> scan.run == []
      invariant scan == ScanRuns(samples[..n], minOnline)
      invariant FlatScanned(intervals, scan.ended, windowStart, windowEnd)
    {
      var sample := samples[n];
      RunsAreWellShaped(samples[..n], minOnline);
      assert samples[..n + 1][..n] == samples[..n];
      if sample.online.None? || sample.online.value < minOnline {
        intervals := PushNearFlatSuspectRun(intervals, run, sample.ts, windowStart, windowEnd, scan);
        run := null;
        scan := End(scan, sample.ts);
      } else {
        intervals, run := AcceptSample(intervals, run, sample.ts, sample.online.value, windowStart, windowEnd, scan);
        scan := Accept(scan, Point(sample.ts, sample.online.value));
      }
    }
    assert samples[..|samples|] == samples;
    RunsAreWellShaped(samples, minOnline);
    if run != null {
      var runEnd := if windowEnd - run.previousTs > SUSPECT_NEAR_FLAT_MAX_GAP_SECS then run.previousTs else windowEnd;
      intervals := PushNearFlatSuspectRun(intervals, run, runEnd, windowStart, windowEnd, scan);
    }
  }

  method BuildNearFlatSuspectIntervals(samples: seq<Sample>, windowStart: Time, windowEnd: Time,
                                       stagnantMinOnline: int) returns (result: seq<Interval>)
    ensures Detected(result, AutoSuspect, windowStart, windowEnd)
    ensures forall t: Time :: windowStart <= t < windowEnd ==>
      (Covered(result, TagOf(AutoSuspect), t) <==> ScannedFlatAt(samples, windowEnd, stagnantMinOnline, t))
    ensures Ordered(samples) ==> forall t: Time :: windowStart <= t < windowEnd ==>
      (Covered(result, TagOf(AutoSuspect), t) <==> NearFlatAt(samples, windowEnd, stagnantMinOnline, t))
  {
    if Ordered(samples) {
      forall t: Time ensures ScannedFlatAt(samples, windowEnd, stagnantMinOnline, t)
                        <==> NearFlatAt(samples, windowEnd, stagnantMinOnline, t)
      {
        ScanMeansStretches(samples, windowEnd, stagnantMinOnline, t);
      }
    }
    if |samples| < 2 || stagnantMinOnline <= 0 {
      return [];
    }
    var minOnline := NearFlatMinimum(stagnantMinOnline);
    var intervals := PushNearFlatSuspectRuns(samples, windowStart, windowEnd, minOnline);
    MergeDetected(intervals, AutoSuspect, windowStart, windowEnd);
    result := MergeIntervals(intervals);
  }
}
