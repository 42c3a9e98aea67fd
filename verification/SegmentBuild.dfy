/** Putting the detectors together (build_segment_intervals in rust/src/segments.rs). */
module SegmentBuild {
  import opened Options
  import opened SegmentTypes
  import opened SegmentMerge
  import opened SegmentResolve
  import opened SegmentDetectors
  import opened SegmentNearFlat

  /** An override with this mode contains the instant. */
  predicate OverrideAt(overrides: seq<Override>, mode: Mode, t: Time) {
    exists o :: o in overrides && o.mode == mode && o.startsAt <= t < o.endsAt
  }

  /** Whether a kind of interval applies at an instant of the window, said without intervals. */
  ghost predicate AppliesAt(samples: seq<Sample>, overrides: seq<Override>, windowStart: Time, windowEnd: Time,
                            stagnantMinOnline: int, kind: Kind, t: Time)
  {
    match kind
    case ManualClear => OverrideAt(overrides, ForceNormal, t)
    case ManualSuspect => OverrideAt(overrides, ForceSuspect, t)
    case ManualMaintenance => OverrideAt(overrides, ForceMaintenance, t)
    case PluginMaintenance => FlagAt(samples, (s: Sample) => s.pluginMaintenance, t)
    case MotdMaintenance => FlagAt(samples, (s: Sample) => s.motdMaintenance, t)
    case AutoSuspect =>
      || SwingAt(samples, windowStart, windowEnd, t)
      || StagnantAt(samples, windowEnd, stagnantMinOnline, t)
      || NearFlatAt(samples, windowEnd, stagnantMinOnline, t)
  }

  function KindOfMode(mode: Mode): Option<Kind> {
    match mode
    case ForceNormal => Some(ManualClear)
    case ForceSuspect => Some(ManualSuspect)
    case ForceMaintenance => Some(ManualMaintenance)
    case UnknownMode(_) => None
  }

  /** The kind asked for by an override that contains the instant. */
  predicate ManualAt(overrides: seq<Override>, kind: Kind, t: Time) {
    || (kind == ManualClear && OverrideAt(overrides, ForceNormal, t))
    || (kind == ManualSuspect && OverrideAt(overrides, ForceSuspect, t))
    || (kind == ManualMaintenance && OverrideAt(overrides, ForceMaintenance, t))
  }

  /** The intervals cover exactly the overrides of a known mode, clipped to the window. */
  ghost predicate ManualCovers(intervals: seq<Interval>, overrides: seq<Override>,
                               windowStart: Time, windowEnd: Time)
  {
    forall kind: Kind, t: Time {:trigger ManualAt(overrides, kind, t)} ::
      Covered(intervals, TagOf(kind), t) <==> windowStart <= t < windowEnd && ManualAt(overrides, kind, t)
  }

  predicate SomeOverride(overrides: seq<Override>, kind: Kind, t: Time) {
    exists o :: o in overrides && KindOfMode(o.mode) == Some(kind) && o.startsAt <= t < o.endsAt
  }

  lemma SomeOverrideSnoc(overrides: seq<Override>, o: Override, kind: Kind, t: Time)
    ensures SomeOverride(overrides + [o], kind, t) <==>
            SomeOverride(overrides, kind, t) || (KindOfMode(o.mode) == Some(kind) && o.startsAt <= t < o.endsAt)
  {
    assert forall x :: x in overrides + [o] <==> x in overrides || x == o;
  }

  lemma ModesMatch(overrides: seq<Override>, kind: Kind, t: Time)
    ensures SomeOverride(overrides, kind, t) <==> ManualAt(overrides, kind, t)
  {
  }

  /** The manual part: exactly the overrides of a known mode, clipped to the window. */
  method BuildOverrideIntervals(overrides: seq<Override>, windowStart: Time, windowEnd: Time)
    returns (intervals: seq<Interval>)
    ensures AllBuilt(intervals) && AllWithin(intervals, windowStart, windowEnd)
    ensures ManualCovers(intervals, overrides, windowStart, windowEnd)
  {
    intervals := [];
    for n := 0 to |overrides|
      invariant AllBuilt(intervals) && AllWithin(intervals, windowStart, windowEnd)
      invariant forall kind: Kind, t: Time :: Covered(intervals, TagOf(kind), t) <==>
        windowStart <= t < windowEnd && SomeOverride(overrides[..n], kind, t)
    {
      var o := overrides[n];
      assert overrides[..n + 1] == overrides[..n] + [o];
      ghost var before := intervals;
      var kind := KindOfMode(o.mode);
      if kind.Some? {
        intervals := PushClamped(intervals, kind.value, o.startsAt, o.endsAt, windowStart, windowEnd);
        assert IsBuiltTag(TagOf(kind.value));
      }
      forall k: Kind, t: Time
        ensures Covered(intervals, TagOf(k), t) <==>
                windowStart <= t < windowEnd && SomeOverride(overrides[..n + 1], k, t)
      {
        SomeOverrideSnoc(overrides[..n], o, k, t);
        if kind.Some? {
          PushClampedCovers(before, kind.value, o.startsAt, o.endsAt, windowStart, windowEnd, TagOf(k), t);
        }
      }
    }
    assert overrides[..|overrides|] == overrides;
    forall kind: Kind, t: Time ensures SomeOverride(overrides, kind, t) <==> ManualAt(overrides, kind, t) {
      ModesMatch(overrides, kind, t);
    }
  }

  /** A detected list covers only its own kind, and its intervals are built and in the window. */
  lemma DetectedCovers(intervals: seq<Interval>, kind: Kind, windowStart: Time, windowEnd: Time, k: Kind, t: Time)
    requires Detected(intervals, kind, windowStart, windowEnd)
    ensures Covered(intervals, TagOf(k), t) ==> k == kind && windowStart <= t < windowEnd
    ensures AllBuilt(intervals) && AllWithin(intervals, windowStart, windowEnd)
  {
  }

  /** Built lists in the window can be joined. */
  lemma JoinBuilt(a: seq<Interval>, b: seq<Interval>, lo: Time, hi: Time)
    requires AllBuilt(a) && AllWithin(a, lo, hi) && AllBuilt(b) && AllWithin(b, lo, hi)
    ensures AllBuilt(a + b) && AllWithin(a + b, lo, hi)
  {
  }

  lemma JoinAll(manual: seq<Interval>, plugin: seq<Interval>, motd: seq<Interval>, swing: seq<Interval>,
                stagnant: seq<Interval>, nearFlat: seq<Interval>, lo: Time, hi: Time)
    requires AllBuilt(manual) && AllWithin(manual, lo, hi)
    requires Detected(plugin, PluginMaintenance, lo, hi) && Detected(motd, MotdMaintenance, lo, hi)
    requires Detected(swing, AutoSuspect, lo, hi) && Detected(stagnant, AutoSuspect, lo, hi)
    requires Detected(nearFlat, AutoSuspect, lo, hi)
    ensures AllBuilt(manual + plugin + motd + swing + stagnant + nearFlat)
    ensures AllWithin(manual + plugin + motd + swing + stagnant + nearFlat, lo, hi)
  {
    DetectedCovers(plugin, PluginMaintenance, lo, hi, ManualClear, 0);
    DetectedCovers(motd, MotdMaintenance, lo, hi, ManualClear, 0);
    DetectedCovers(swing, AutoSuspect, lo, hi, ManualClear, 0);
    DetectedCovers(stagnant, AutoSuspect, lo, hi, ManualClear, 0);
    DetectedCovers(nearFlat, AutoSuspect, lo, hi, ManualClear, 0);
    JoinBuilt(manual, plugin, lo, hi);
    JoinBuilt(manual + plugin, motd, lo, hi);
    JoinBuilt(manual + plugin + motd, swing, lo, hi);
    JoinBuilt(manual + plugin + motd + swing, stagnant, lo, hi);
    JoinBuilt(manual + plugin + motd + swing + stagnant, nearFlat, lo, hi);
  }

  lemma JoinCovers(manual: seq<Interval>, plugin: seq<Interval>, motd: seq<Interval>, swing: seq<Interval>,
                   stagnant: seq<Interval>, nearFlat: seq<Interval>, lo: Time, hi: Time, k: Kind, t: Time)
    requires Detected(plugin, PluginMaintenance, lo, hi) && Detected(motd, MotdMaintenance, lo, hi)
    requires Detected(swing, AutoSuspect, lo, hi) && Detected(stagnant, AutoSuspect, lo, hi)
    requires Detected(nearFlat, AutoSuspect, lo, hi)
    ensures Covered(manual + plugin + motd + swing + stagnant + nearFlat, TagOf(k), t) <==>
      || Covered(manual, TagOf(k), t)
      || (k == PluginMaintenance && Covered(plugin, TagOf(k), t))
      || (k == MotdMaintenance && Covered(motd, TagOf(k), t))
      || (k == AutoSuspect &&
          (Covered(swing, TagOf(k), t) || Covered(stagnant, TagOf(k), t) || Covered(nearFlat, TagOf(k), t)))
  {
    CoveredConcat(manual, plugin, TagOf(k), t);
    CoveredConcat(manual + plugin, motd, TagOf(k), t);
    CoveredConcat(manual + plugin + motd, swing, TagOf(k), t);
    CoveredConcat(manual + plugin + motd + swing, stagnant, TagOf(k), t);
    CoveredConcat(manual + plugin + motd + swing + stagnant, nearFlat, TagOf(k), t);
    DetectedCovers(plugin, PluginMaintenance, lo, hi, k, t);
    DetectedCovers(motd, MotdMaintenance, lo, hi, k, t);
    DetectedCovers(swing, AutoSuspect, lo, hi, k, t);
    DetectedCovers(stagnant, AutoSuspect, lo, hi, k, t);
    DetectedCovers(nearFlat, AutoSuspect, lo, hi, k, t);
  }

  /** When each part covers an instant exactly when its kind applies there, resolving the parts
      together ranks what applies. */
  lemma PartsResolve(samples: seq<Sample>, overrides: seq<Override>, windowStart: Time, windowEnd: Time,
                     stagnantMinOnline: int, manual: seq<Interval>, plugin: seq<Interval>, motd: seq<Interval>,
                     swing: seq<Interval>, stagnant: seq<Interval>, nearFlat: seq<Interval>, t: Time)
    requires AllBuilt(manual) && AllWithin(manual, windowStart, windowEnd)
    requires Detected(plugin, PluginMaintenance, windowStart, windowEnd)
    requires Detected(motd, MotdMaintenance, windowStart, windowEnd)
    requires Detected(swing, AutoSuspect, windowStart, windowEnd)
    requires Detected(stagnant, AutoSuspect, windowStart, windowEnd)
    requires Detected(nearFlat, AutoSuspect, windowStart, windowEnd)
    requires windowStart <= t < windowEnd && ManualCovers(manual, overrides, windowStart, windowEnd)
    requires Covered(plugin, TagOf(PluginMaintenance), t)
        <==> FlagAt(samples, (s: Sample) => s.pluginMaintenance, t)
    requires Covered(motd, TagOf(MotdMaintenance), t) <==> FlagAt(samples, (s: Sample) => s.motdMaintenance, t)
    requires Covered(swing, TagOf(AutoSuspect), t) <==> SwingAt(samples, windowStart, windowEnd, t)
    requires Covered(stagnant, TagOf(AutoSuspect), t) <==> StagnantAt(samples, windowEnd, stagnantMinOnline, t)
    requires Covered(nearFlat, TagOf(AutoSuspect), t) <==> NearFlatAt(samples, windowEnd, stagnantMinOnline, t)
    ensures ResolveAt(t, manual + plugin + motd + swing + stagnant + nearFlat)
         == Ranked(k => AppliesAt(samples, overrides, windowStart, windowEnd, stagnantMinOnline, k, t))
  {
    var intervals := manual + plugin + motd + swing + stagnant + nearFlat;
    JoinAll(manual, plugin, motd, swing, stagnant, nearFlat, windowStart, windowEnd);
    ResolveAtRanked(t, intervals);
    forall k: Kind
      ensures Covered(intervals, TagOf(k), t)
         <==> AppliesAt(samples, overrides, windowStart, windowEnd, stagnantMinOnline, k, t)
    {
      JoinCovers(manual, plugin, motd, swing, stagnant, nearFlat, windowStart, windowEnd, k, t);
      var manually := ManualAt(overrides, k, t);
    }
  }

  /** Resolving the built intervals at any instant of the window gives the strongest thing that
      applies there. */
  method BuildSegmentIntervals(samples: seq<Sample>, overrides: seq<Override>, windowStart: Time, windowEnd: Time,
                               stagnantMinOnline: int) returns (result: seq<Interval>)
    ensures AllBuilt(result) && AllWithin(result, windowStart, windowEnd)
    ensures Merge(result) == result
    ensures Ordered(samples) ==> forall t: Time :: windowStart <= t < windowEnd ==>
      ResolveAt(t, result)
      == Ranked(k => AppliesAt(samples, overrides, windowStart, windowEnd, stagnantMinOnline, k, t))
  {
    var minOnline := if stagnantMinOnline > 0 then stagnantMinOnline else 0;
    var manual := BuildOverrideIntervals(overrides, windowStart, windowEnd);
    var plugin := BuildStatefulIntervals(samples, windowStart, windowEnd,
                                         (s: Sample) => s.pluginMaintenance, PluginMaintenance);
    var motd := BuildStatefulIntervals(samples, windowStart, windowEnd,
                                       (s: Sample) => s.motdMaintenance, MotdMaintenance);
    var swing := BuildAutoSuspectIntervals(samples, windowStart, windowEnd);
    var stagnant := BuildStagnantSuspectIntervals(samples, windowStart, windowEnd, minOnline);
    var nearFlat := BuildNearFlatSuspectIntervals(samples, windowStart, windowEnd, minOnline);
    var intervals := manual + plugin + motd + swing + stagnant + nearFlat;
    JoinAll(manual, plugin, motd, swing, stagnant, nearFlat, windowStart, windowEnd);
    result := MergeIntervals(intervals);
    MergeKeepsBuilt(intervals, windowStart, windowEnd);
    MergeIdempotent(intervals);
    if Ordered(samples) {
      forall t: Time | windowStart <= t < windowEnd
        ensures ResolveAt(t, result)
             == Ranked(k => AppliesAt(samples, overrides, windowStart, windowEnd, stagnantMinOnline, k, t))
      {
        PartsResolve(samples, overrides, windowStart, windowEnd, stagnantMinOnline,
                     manual, plugin, motd, swing, stagnant, nearFlat, t);
        MergePreservesResolution(t, intervals);
      }
    }
  }
}
