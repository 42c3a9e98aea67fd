/** The two halves of the segmentation joined: the average over the intervals it builds
    (rust/src/segments.rs). */
module SegmentStats {
  import opened SegmentTypes
  import opened SegmentResolve
  import opened SegmentDetectors
  import opened SegmentNearFlat
  import opened SegmentBuild
  import opened SegmentSweep

  /** What one instant contributes, said without intervals: its count and one second, unless the
      strongest thing that applies there is left out of the score. */
  ghost function Scored(samples: seq<Sample>, overrides: seq<Override>, windowStart: Time, windowEnd: Time,
                        stagnantMinOnline: int, pairs: seq<Pair>): Time -> Totals
  {
    (t: Time) =>
      var online := OnlineAt(pairs, t);
      if Ranked(k => AppliesAt(samples, overrides, windowStart, windowEnd, stagnantMinOnline, k, t)).excludeFromScore
         || online.None?
      then Totals(0, 0) else Totals(online.value, 1)
  }

  /** An instant counts exactly when its count is known and an override forces it normal or nothing
      else applies there. */
  lemma CountsExactly(samples: seq<Sample>, overrides: seq<Override>, windowStart: Time, windowEnd: Time,
                      stagnantMinOnline: int, pairs: seq<Pair>, t: Time)
    ensures var suspicious :=
        || OverrideAt(overrides, ForceSuspect, t) || OverrideAt(overrides, ForceMaintenance, t)
        || FlagAt(samples, (s: Sample) => s.pluginMaintenance, t)
        || FlagAt(samples, (s: Sample) => s.motdMaintenance, t)
        || SwingAt(samples, windowStart, windowEnd, t)
        || StagnantAt(samples, windowEnd, stagnantMinOnline, t)
        || NearFlatAt(samples, windowEnd, stagnantMinOnline, t);
      Scored(samples, overrides, windowStart, windowEnd, stagnantMinOnline, pairs)(t)
      == if OnlineAt(pairs, t).Some? && (OverrideAt(overrides, ForceNormal, t) || !suspicious)
         then Totals(OnlineAt(pairs, t).value, 1) else Totals(0, 0)
  {
  }

  lemma {:induction false} SumAgrees(f: Time -> Totals, g: Time -> Totals, lo: Time, hi: Time)
    requires forall t: Time :: lo <= t < hi ==> f(t) == g(t)
    ensures Sum(f, lo, hi) == Sum(g, lo, hi)
    decreases hi
  {
    if lo < hi {
      SumAgrees(f, g, lo, hi - 1);
    }
  }

  /** Sweeping the built intervals sums what the instants of the window contribute. */
  lemma SweepOfBuilt(samples: seq<Sample>, overrides: seq<Override>, windowStart: Time, windowEnd: Time,
                     stagnantMinOnline: int, pairs: seq<Pair>, intervals: seq<Interval>)
    requires windowStart < windowEnd && AllBuilt(intervals) && AllWithin(intervals, windowStart, windowEnd)
    requires forall t: Time :: windowStart <= t < windowEnd ==>
      ResolveAt(t, intervals)
      == Ranked(k => AppliesAt(samples, overrides, windowStart, windowEnd, stagnantMinOnline, k, t))
    ensures SweepTotals(pairs, windowStart, windowEnd, intervals)
         == Sum(Scored(samples, overrides, windowStart, windowEnd, stagnantMinOnline, pairs), windowStart, windowEnd)
  {
    ReachingIntervalsAreExact(pairs, windowStart, windowEnd, intervals);
    SumAgrees(Instant(pairs, intervals),
              Scored(samples, overrides, windowStart, windowEnd, stagnantMinOnline, pairs), windowStart, windowEnd);
  }

  /** The trusted part of built intervals is no more than the window. */
  lemma BuiltCoverage(pairs: seq<Pair>, windowStart: Time, windowEnd: Time, intervals: seq<Interval>)
    requires windowStart < windowEnd && AllBuilt(intervals) && AllWithin(intervals, windowStart, windowEnd)
    ensures var totals := SweepTotals(pairs, windowStart, windowEnd, intervals);
      Coverage(totals, windowStart, windowEnd) == totals.trusted as real / (windowEnd - windowStart) as real
  {
    ReachingIntervalsAreExact(pairs, windowStart, windowEnd, intervals);
    SecondsAreConserved(pairs, intervals, windowStart, windowEnd);
    PlainCoverage(SweepTotals(pairs, windowStart, windowEnd, intervals), windowStart, windowEnd);
  }

  /** Building the intervals and then averaging over them: the average and the coverage of exactly
      the instants of the window that count. */
  method EffectiveAverageStats(samples: seq<Sample>, overrides: seq<Override>, windowStart: Time, windowEnd: Time,
                               stagnantMinOnline: int, pairs: seq<Pair>) returns (average: real, coverage: real)
    ensures windowEnd <= windowStart ==> average == 0.0 && coverage == 0.0
    ensures windowStart < windowEnd && Ordered(samples) && OrderedPairs(pairs) ==>
      var totals := Sum(Scored(samples, overrides, windowStart, windowEnd, stagnantMinOnline, pairs), windowStart, windowEnd);
      && IsMean(average, totals)
      && coverage == totals.trusted as real / (windowEnd - windowStart) as real
  {
    var intervals := BuildSegmentIntervals(samples, overrides, windowStart, windowEnd, stagnantMinOnline);
    average, coverage := ComputeEffectiveAverageStats(pairs, windowStart, windowEnd, intervals);
    if windowStart < windowEnd && Ordered(samples) && OrderedPairs(pairs) {
      SweepOfBuilt(samples, overrides, windowStart, windowEnd, stagnantMinOnline, pairs, intervals);
      BuiltCoverage(pairs, windowStart, windowEnd, intervals);
    }
  }
}
