/** The flag trackers, the swing detector and the stagnant-run detector of rust/src/segments.rs. */
module SegmentDetectors {
  import opened Options
  import opened SegmentTypes
  import opened SegmentMerge

  const SUSPECT_TRIGGER_ABS_DELTA := 40
  const SUSPECT_LARGE_ABS_DELTA := 80
  const SUSPECT_RESET_ONLINE_MAX := 2
  const SUSPECT_RESET_HIGH_MIN := 30
  const SUSPECT_TRIGGER_WINDOW_SECS := 30 * 60
  const SUSPECT_CLOSE_ONLINE_THRESHOLD := 5
  const SUSPECT_STAGNANT_MIN_DURATION_SECS := 6 * 60 * 60
  const SUSPECT_STAGNANT_MAX_GAP_SECS := 30 * 60

  function Max(a: Time, b: Time): Time {
    if a >= b then a else b
  }

  function Abs(x: int): nat {
    if x < 0 then -x else x
  }

  /** The merge at the end of every detector changes neither shape nor coverage. */
  lemma MergeDetected(raw: seq<Interval>, kind: Kind, windowStart: Time, windowEnd: Time)
    requires Detected(raw, kind, windowStart, windowEnd)
    ensures Detected(Merge(raw), kind, windowStart, windowEnd)
    ensures forall t: Time :: Covered(Merge(raw), TagOf(kind), t) <==> Covered(raw, TagOf(kind), t)
  {
    MergeKeeps(raw, {TagOf(kind)}, windowStart, windowEnd);
    forall t: Time ensures Covered(Merge(raw), TagOf(kind), t) <==> Covered(raw, TagOf(kind), t) {
      MergePreservesCoverage(raw, TagOf(kind), t);
    }
  }

  // ---- flag trackers ----

  /** The flag of the last sample at or before `t`; off before the first sample. */
  predicate FlagAt(samples: seq<Sample>, flag: Sample -> bool, t: Time) {
    var last := LastAt(samples, (s: Sample) => s.ts, t);
    last.Some? && flag(last.value)
  }

  lemma FlagAtSnoc(samples: seq<Sample>, flag: Sample -> bool, n: nat, t: Time)
    requires n < |samples|
    ensures FlagAt(samples[..n + 1], flag, t)
         == if samples[n].ts <= t then flag(samples[n]) else FlagAt(samples[..n], flag, t)
  {
    assert samples[..n + 1][..n] == samples[..n];
  }

  /** Either an interval covers the instant or the tracker is on from before it, as the flag says. */
  predicate Tracked(samples: seq<Sample>, flag: Sample -> bool, n: nat, covered: bool, active: bool, start: Time, t: Time)
    requires n <= |samples|
  {
    (covered || (active && start <= t)) <==> FlagAt(samples[..n], flag, t)
  }

  /** What one sample does to the tracker at one instant of the window. */
  lemma TrackedStep(samples: seq<Sample>, flag: Sample -> bool, n: nat, windowStart: Time, active: bool, start: Time,
                    before: bool, after: bool, t: Time)
    requires n < |samples| && windowStart <= t && Tracked(samples, flag, n, before, active, start, t)
    requires samples[n].ts <= t ==> !before
    requires active ==> start <= Max(samples[n].ts, windowStart)
    requires after == (before || (active && !flag(samples[n]) && start <= t < samples[n].ts))
    ensures Tracked(samples, flag, n + 1, after, flag(samples[n]),
                    if flag(samples[n]) && !active then Max(samples[n].ts, windowStart) else start, t)
  {
    FlagAtSnoc(samples, flag, n, t);
  }

  /** The loop of the tracker: the intervals closed so far, and whether and since when it is on. */
  method TrackFlag(samples: seq<Sample>, windowStart: Time, windowEnd: Time, flag: Sample -> bool, kind: Kind)
    returns (intervals: seq<Interval>, active: bool, currentStart: Time)
    ensures Detected(intervals, kind, windowStart, windowEnd)
    ensures Ordered(samples) ==> forall t: Time :: windowStart <= t < windowEnd ==>
      Tracked(samples, flag, |samples|, Covered(intervals, TagOf(kind), t), active, currentStart, t)
  {
    intervals, active, currentStart := [], false, 0;
    for n := 0 to |samples|
      invariant Detected(intervals, kind, windowStart, windowEnd)
      invariant Ordered(samples) && n > 0 ==>
        && (forall iv :: iv in intervals ==> iv.endsAt <= samples[n - 1].ts)
        && (active ==> currentStart <= Max(samples[n - 1].ts, windowStart))
      invariant Ordered(samples) ==> forall t: Time :: windowStart <= t < windowEnd ==>
        Tracked(samples, flag, n, Covered(intervals, TagOf(kind), t), active, currentStart, t)
      invariant n == 0 ==> !active && intervals == []
    {
      var sample := samples[n];
      var enabled := flag(sample);
      ghost var before, wasActive, wasStart := intervals, active, currentStart;
      if enabled && !active {
        active := true;
        currentStart := Max(sample.ts, windowStart);
      } else if active && !enabled {
        intervals := PushClamped(intervals, kind, currentStart, sample.ts, windowStart, windowEnd);
        PushClampedDetected(before, kind, currentStart, sample.ts, windowStart, windowEnd);
        assert forall iv :: iv in intervals ==> iv in before || iv.endsAt <= sample.ts;
        active := false;
      }
      if Ordered(samples) {
        assert n > 0 ==> samples[n - 1].ts <= sample.ts;
        forall t: Time | windowStart <= t < windowEnd
          ensures Tracked(samples, flag, n + 1, Covered(intervals, TagOf(kind), t), active, currentStart, t)
        {
          PushClampedCovers(before, kind, wasStart, sample.ts, windowStart, windowEnd, TagOf(kind), t);
          TrackedStep(samples, flag, n, windowStart, wasActive, wasStart, Covered(before, TagOf(kind), t),
                      Covered(intervals, TagOf(kind), t), t);
        }
      }
    }
  }

  method BuildStatefulIntervals(samples: seq<Sample>, windowStart: Time, windowEnd: Time,
                                flag: Sample -> bool, kind: Kind) returns (result: seq<Interval>)
    ensures Detected(result, kind, windowStart, windowEnd)
    ensures Ordered(samples) ==> forall t: Time :: windowStart <= t < windowEnd ==>
      (Covered(result, TagOf(kind), t) <==> FlagAt(samples, flag, t))
  {
    if |samples| == 0 {
      return [];
    }
    var intervals, active, currentStart := TrackFlag(samples, windowStart, windowEnd, flag, kind);
    assert samples[..|samples|] == samples;
    ghost var before := intervals;
    if active {
      intervals := PushClamped(intervals, kind, currentStart, windowEnd, windowStart, windowEnd);
      PushClampedDetected(before, kind, currentStart, windowEnd, windowStart, windowEnd);
    }
    forall t: Time | windowStart <= t < windowEnd
      ensures Covered(intervals, TagOf(kind), t) <==> Covered(before, TagOf(kind), t) || (active && currentStart <= t)
    {
      PushClampedCovers(before, kind, currentStart, windowEnd, windowStart, windowEnd, TagOf(kind), t);
    }
    MergeDetected(intervals, kind, windowStart, windowEnd);
    result := MergeIntervals(intervals);
  }

  // ---- swing detector ----

  predicate IsSuspectTrigger(prev: Sample, curr: Sample) {
    prev.online.Some? && curr.online.Some? &&
    var p, c := prev.online.value, curr.online.value;
    var gap := curr.ts - prev.ts;
    var delta := Abs(c - p);
    var low := if p <= c then p else c;
    var high := if p <= c then c else p;
    && 0 < gap <= SUSPECT_TRIGGER_WINDOW_SECS
    && delta >= SUSPECT_TRIGGER_ABS_DELTA
    && ((low <= SUSPECT_RESET_ONLINE_MAX && high >= SUSPECT_RESET_HIGH_MIN) || delta >= SUSPECT_LARGE_ABS_DELTA)
  }

  /** A step triggers exactly when it takes at most half an hour and the counts differ by 80 or more, or
      by 40 or more from at most 2 players to at least 30 or back. */
  lemma TriggersExactly(prev: Sample, curr: Sample)
    ensures IsSuspectTrigger(prev, curr) <==>
      && prev.online.Some? && curr.online.Some? && prev.ts < curr.ts <= prev.ts + 1800
      && (var p, c := prev.online.value, curr.online.value;
          || p - c >= 80 || c - p >= 80
          || (p - c >= 40 && c <= 2 && p >= 30) || (c - p >= 40 && p <= 2 && c >= 30))
  {
  }

  /** For counts that are not negative the lower end alone decides a step of 40 to 79 players. */
  lemma ResetTriggers(prev: Sample, curr: Sample)
    requires prev.online.Some? && curr.online.Some? && prev.ts < curr.ts <= prev.ts + 1800
    requires prev.online.value >= 0 && curr.online.value >= 0
    ensures IsSuspectTrigger(prev, curr) <==>
      var p, c := prev.online.value, curr.online.value;
      p - c >= 80 || c - p >= 80 || (p - c >= 40 && c <= 2) || (c - p >= 40 && p <= 2)
  {
    TriggersExactly(prev, curr);
  }

  /** The step from sample i - 1 to sample i is a trigger that the window lets the detector see. */
  predicate TriggerAt(samples: seq<Sample>, windowStart: Time, i: int) {
    && 1 <= i < |samples|
    && windowStart <= samples[i].ts
    && IsSuspectTrigger(samples[i - 1], samples[i])
  }

  predicate LowAt(samples: seq<Sample>, windowStart: Time, k: int) {
    && 0 <= k < |samples|
    && windowStart <= samples[k].ts
    && samples[k].online.Some? && samples[k].online.value <= 5
  }

  /** Two triggers at or after `from`, close enough together to open a suspect episode at j. */
  predicate Opening(samples: seq<Sample>, windowStart: Time, from: int, i: int, j: int) {
    && from <= i < j
    && TriggerAt(samples, windowStart, i) && TriggerAt(samples, windowStart, j)
    && samples[j].ts - samples[i - 1].ts <= 1800
  }

  ghost predicate NoOpening(samples: seq<Sample>, windowStart: Time, from: int, end: int) {
    forall i, j :: j < end ==> !Opening(samples, windowStart, from, i, j)
  }

  ghost predicate NoLow(samples: seq<Sample>, windowStart: Time, from: int, end: int) {
    forall k :: from <= k < end ==> !LowAt(samples, windowStart, k)
  }

  /** A suspect episode: opened by the triggers at `first` and `second`, ended by the sample at
      `close`, or never when `close` is the number of samples. */
  datatype Episode = Episode(first: nat, second: nat, close: nat)

  /** The earliest episode at or after `from`. */
  ghost predicate IsNext(samples: seq<Sample>, windowStart: Time, from: int, e: Episode) {
    && Opening(samples, windowStart, from, e.first, e.second)
    && NoOpening(samples, windowStart, from, e.second)
    && e.second < e.close <= |samples|
    && NoLow(samples, windowStart, e.second + 1, e.close)
    && (e.close < |samples| ==> LowAt(samples, windowStart, e.close))
  }

  /** Where the search for the r-th episode starts. */
  function From(es: seq<Episode>, r: nat): nat
    requires r <= |es|
  {
    if r == 0 then 1 else es[r - 1].close + 1
  }

  ghost predicate AreEpisodes(samples: seq<Sample>, windowStart: Time, es: seq<Episode>) {
    forall r: nat {:trigger From(es, r)} :: r < |es| ==> IsNext(samples, windowStart, From(es, r), es[r])
  }

  /** All the episodes: each is the next one after its predecessor ended, and after the last one
      nothing opens. */
  ghost predicate AllEpisodes(samples: seq<Sample>, windowStart: Time, es: seq<Episode>) {
    && AreEpisodes(samples, windowStart, es)
    && NoOpening(samples, windowStart, From(es, |es|), |samples|)
  }

  function EpisodeStart(samples: seq<Sample>, windowStart: Time, e: Episode): Time
    requires 1 <= e.first < |samples|
  {
    Max(samples[e.first - 1].ts, windowStart)
  }

  function EpisodeEnd(samples: seq<Sample>, windowEnd: Time, e: Episode): Time {
    if e.close < |samples| then samples[e.close].ts else windowEnd
  }

  predicate EpisodeCovers(samples: seq<Sample>, windowStart: Time, windowEnd: Time, e: Episode, t: Time) {
    && 1 <= e.first < |samples|
    && EpisodeStart(samples, windowStart, e) <= t < EpisodeEnd(samples, windowEnd, e)
  }

  ghost predicate EpisodesCover(samples: seq<Sample>, windowStart: Time, windowEnd: Time,
                                es: seq<Episode>, t: Time)
  {
    exists e :: e in es && EpisodeCovers(samples, windowStart, windowEnd, e, t)
  }

  /** The instant lies in a suspect episode. */
  ghost predicate SwingAt(samples: seq<Sample>, windowStart: Time, windowEnd: Time, t: Time) {
    exists es :: AllEpisodes(samples, windowStart, es)
              && EpisodesCover(samples, windowStart, windowEnd, es, t)
  }

  /** A trigger between the two of an opening pair closes one with the first. */
  lemma OpeningNarrows(samples: seq<Sample>, windowStart: Time, from: int, i: int, m: int, j: int)
    requires Ordered(samples) && Opening(samples, windowStart, from, i, j)
    requires i < m < j && TriggerAt(samples, windowStart, m)
    ensures Opening(samples, windowStart, from, i, m)
  {
  }

  lemma NextIsUnique(samples: seq<Sample>, windowStart: Time, from: int, a: Episode, b: Episode)
    requires Ordered(samples)
    requires IsNext(samples, windowStart, from, a) && IsNext(samples, windowStart, from, b)
    ensures a == b
  {
    assert a.second == b.second;
    if a.first < b.first {
      OpeningNarrows(samples, windowStart, from, a.first, b.first, a.second);
    } else if b.first < a.first {
      OpeningNarrows(samples, windowStart, from, b.first, a.first, a.second);
    }
  }

  /** After all the episodes there is no next one. */
  lemma NoneAfterAll(samples: seq<Sample>, windowStart: Time, es: seq<Episode>, e: Episode)
    requires AllEpisodes(samples, windowStart, es)
    ensures !IsNext(samples, windowStart, From(es, |es|), e)
  {
    assert !Opening(samples, windowStart, From(es, |es|), e.first, e.second);
  }

  lemma {:induction false} EpisodesAgree(samples: seq<Sample>, windowStart: Time,
                                         a: seq<Episode>, b: seq<Episode>, r: nat)
    requires Ordered(samples) && r <= |a| && r <= |b|
    requires AreEpisodes(samples, windowStart, a) && AreEpisodes(samples, windowStart, b)
    ensures a[..r] == b[..r] && From(a, r) == From(b, r)
  {
    if r > 0 {
      EpisodesAgree(samples, windowStart, a, b, r - 1);
      NextIsUnique(samples, windowStart, From(a, r - 1), a[r - 1], b[r - 1]);
      assert a[..r] == a[..r - 1] + [a[r - 1]] && b[..r] == b[..r - 1] + [b[r - 1]];
    }
  }

  /** The episodes are determined by the samples. */
  lemma EpisodesAreUnique(samples: seq<Sample>, windowStart: Time, a: seq<Episode>, b: seq<Episode>)
    requires Ordered(samples)
    requires AllEpisodes(samples, windowStart, a) && AllEpisodes(samples, windowStart, b)
    ensures a == b
  {
    var r := if |a| <= |b| then |a| else |b|;
    EpisodesAgree(samples, windowStart, a, b, r);
    if r < |b| {
      NoneAfterAll(samples, windowStart, a, b[r]);
    }
    if r < |a| {
      NoneAfterAll(samples, windowStart, b, a[r]);
    }
    assert a[..r] == a && b[..r] == b;
  }

  // ---- the state of the swing detector between two samples ----

  ghost predicate LastTrigger(samples: seq<Sample>, windowStart: Time, from: int, n: int, i: int) {
    && from <= i < n && TriggerAt(samples, windowStart, i)
    && forall m :: i < m < n ==> !TriggerAt(samples, windowStart, m)
  }

  /** No episode is open before sample n: at most the last trigger is remembered. */
  ghost predicate SwingIdle(samples: seq<Sample>, windowStart: Time, from: int, n: int, recent: seq<Time>) {
    && NoOpening(samples, windowStart, from, n)
    && (recent == [] ==> forall m :: from <= m < n ==> !TriggerAt(samples, windowStart, m))
    && (recent != [] ==> exists i ::
          LastTrigger(samples, windowStart, from, n, i) && recent == [samples[i - 1].ts])
  }

  /** An episode that started at `start` is open before sample n. */
  ghost predicate SwingOpen(samples: seq<Sample>, windowStart: Time, from: int, n: int, start: Time) {
    exists i, j ::
      && Opening(samples, windowStart, from, i, j) && NoOpening(samples, windowStart, from, j)
      && j < n && NoLow(samples, windowStart, j + 1, n)
      && start == Max(samples[i - 1].ts, windowStart)
  }

  function Retain(triggers: seq<Time>, now: Time): seq<Time> {
    if triggers == [] then []
    else (if now - triggers[0] <= SUSPECT_TRIGGER_WINDOW_SECS then [triggers[0]] else [])
         + Retain(triggers[1..], now)
  }

  lemma IdleSkips(samples: seq<Sample>, windowStart: Time, from: int, n: int, recent: seq<Time>)
    requires SwingIdle(samples, windowStart, from, n, recent) && !TriggerAt(samples, windowStart, n)
    ensures SwingIdle(samples, windowStart, from, n + 1, recent)
  {
    if recent != [] {
      var i :| LastTrigger(samples, windowStart, from, n, i) && recent == [samples[i - 1].ts];
      assert LastTrigger(samples, windowStart, from, n + 1, i);
    }
  }

  /** No opening ends at sample n when every earlier trigger is too old. */
  lemma NoOpeningStep(samples: seq<Sample>, windowStart: Time, from: int, n: int)
    requires NoOpening(samples, windowStart, from, n) && 1 <= from <= n && TriggerAt(samples, windowStart, n)
    requires forall i :: from <= i < n && TriggerAt(samples, windowStart, i) ==>
               samples[n].ts - samples[i - 1].ts > SUSPECT_TRIGGER_WINDOW_SECS
    ensures NoOpening(samples, windowStart, from, n + 1)
  {
  }

  lemma IdleTriggers(samples: seq<Sample>, windowStart: Time, from: int, n: int, recent: seq<Time>)
    requires Ordered(samples) && SwingIdle(samples, windowStart, from, n, recent)
    requires 1 <= from <= n && TriggerAt(samples, windowStart, n)
    ensures var kept := Retain(recent + [samples[n - 1].ts], samples[n].ts);
      if |kept| >= 2 then SwingOpen(samples, windowStart, from, n + 1, Max(kept[0], windowStart))
      else SwingIdle(samples, windowStart, from, n + 1, kept)
  {
    var last, now := samples[n - 1].ts, samples[n].ts;
    assert Retain([last], now) == [last];
    assert LastTrigger(samples, windowStart, from, n + 1, n);
    if recent == [] {
      assert recent + [last] == [last];
      NoOpeningStep(samples, windowStart, from, n);
    } else {
      var i :| LastTrigger(samples, windowStart, from, n, i) && recent == [samples[i - 1].ts];
      assert (recent + [last])[1..] == [last];
      if now - samples[i - 1].ts <= SUSPECT_TRIGGER_WINDOW_SECS {
        assert Opening(samples, windowStart, from, i, n);
      } else {
        forall m | from <= m < n && TriggerAt(samples, windowStart, m)
          ensures samples[n].ts - samples[m - 1].ts > SUSPECT_TRIGGER_WINDOW_SECS
        {
          assert m <= i && (m < i ==> samples[m - 1].ts <= samples[i - 1].ts);
        }
        NoOpeningStep(samples, windowStart, from, n);
      }
    }
  }

  lemma OpenContinues(samples: seq<Sample>, windowStart: Time, from: int, n: int, start: Time)
    requires SwingOpen(samples, windowStart, from, n, start) && !LowAt(samples, windowStart, n)
    ensures SwingOpen(samples, windowStart, from, n + 1, start)
  {
  }

  lemma OpenCloses(samples: seq<Sample>, windowStart: Time, from: nat, n: nat, start: Time) returns (e: Episode)
    requires SwingOpen(samples, windowStart, from, n, start) && n <= |samples|
    requires n < |samples| ==> LowAt(samples, windowStart, n)
    ensures IsNext(samples, windowStart, from, e) && e.close == n
    ensures start == EpisodeStart(samples, windowStart, e)
  {
    var i, j :|
      && Opening(samples, windowStart, from, i, j) && NoOpening(samples, windowStart, from, j)
      && j < n && NoLow(samples, windowStart, j + 1, n)
      && start == Max(samples[i - 1].ts, windowStart);
    e := Episode(i, j, n);
  }

  lemma EpisodesSnoc(samples: seq<Sample>, windowStart: Time, windowEnd: Time, es: seq<Episode>, e: Episode)
    requires AreEpisodes(samples, windowStart, es) && IsNext(samples, windowStart, From(es, |es|), e)
    ensures AreEpisodes(samples, windowStart, es + [e]) && From(es + [e], |es| + 1) == e.close + 1
    ensures forall t: Time :: EpisodesCover(samples, windowStart, windowEnd, es + [e], t) <==>
      EpisodesCover(samples, windowStart, windowEnd, es, t)
      || EpisodeCovers(samples, windowStart, windowEnd, e, t)
  {
    forall r: nat | r < |es + [e]|
      ensures IsNext(samples, windowStart, From(es + [e], r), (es + [e])[r])
    {
      assert From(es + [e], r) == From(es, r);
    }
    assert forall x :: x in es + [e] <==> x in es || x == e;
  }

  /** What the detector has found before sample n, given the episodes that have ended. */
  ghost predicate SwingScanned(samples: seq<Sample>, windowStart: Time, windowEnd: Time, n: nat,
                               intervals: seq<Interval>, recent: seq<Time>, openStart: Option<Time>,
                               es: seq<Episode>)
  {
    && AreEpisodes(samples, windowStart, es) && From(es, |es|) <= n
    && (forall t: Time :: Covered(intervals, TagOf(AutoSuspect), t) <==>
          windowStart <= t < windowEnd && EpisodesCover(samples, windowStart, windowEnd, es, t))
    && (if openStart.None? then SwingIdle(samples, windowStart, From(es, |es|), n, recent)
        else SwingOpen(samples, windowStart, From(es, |es|), n, openStart.value))
  }

  /** The open episode ends before sample n, or at the end of the samples. */
  lemma SwingCloses(samples: seq<Sample>, windowStart: Time, windowEnd: Time, n: nat,
                    intervals: seq<Interval>, recent: seq<Time>, openStart: Option<Time>,
                    es: seq<Episode>, end: Time) returns (es': seq<Episode>)
    requires n <= |samples| && openStart.Some?
    requires SwingScanned(samples, windowStart, windowEnd, n, intervals, recent, openStart, es)
    requires if n < |samples| then LowAt(samples, windowStart, n) && end == samples[n].ts else end == windowEnd
    ensures SwingScanned(samples, windowStart, windowEnd, n + 1,
                         PushClamped(intervals, AutoSuspect, openStart.value, end, windowStart, windowEnd),
                         [], None, es')
  {
    var e := OpenCloses(samples, windowStart, From(es, |es|), n, openStart.value);
    es' := es + [e];
    EpisodesSnoc(samples, windowStart, windowEnd, es, e);
    var pushed := PushClamped(intervals, AutoSuspect, openStart.value, end, windowStart, windowEnd);
    forall t: Time
      ensures Covered(pushed, TagOf(AutoSuspect), t) <==>
              windowStart <= t < windowEnd && EpisodesCover(samples, windowStart, windowEnd, es', t)
    {
      PushClampedCovers(intervals, AutoSuspect, openStart.value, end, windowStart, windowEnd,
                        TagOf(AutoSuspect), t);
    }
  }

  /** The intervals found by the detector cover exactly the suspect episodes. */
  lemma SwingFinished(samples: seq<Sample>, windowStart: Time, windowEnd: Time, n: nat,
                      intervals: seq<Interval>, recent: seq<Time>, es: seq<Episode>)
    requires Ordered(samples) && |samples| <= n
    requires SwingScanned(samples, windowStart, windowEnd, n, intervals, recent, None, es)
    ensures forall t: Time :: windowStart <= t < windowEnd ==>
      (Covered(intervals, TagOf(AutoSuspect), t) <==> SwingAt(samples, windowStart, windowEnd, t))
  {
    assert AllEpisodes(samples, windowStart, es);
    forall t: Time | SwingAt(samples, windowStart, windowEnd, t)
      ensures EpisodesCover(samples, windowStart, windowEnd, es, t)
    {
      var es' :| AllEpisodes(samples, windowStart, es') && EpisodesCover(samples, windowStart, windowEnd, es', t);
      EpisodesAreUnique(samples, windowStart, es, es');
    }
  }

  /** A sample that neither triggers nor closes leaves the detector's state as it is. */
  lemma SwingSkips(samples: seq<Sample>, windowStart: Time, windowEnd: Time, n: nat,
                   intervals: seq<Interval>, recent: seq<Time>, openStart: Option<Time>, es: seq<Episode>)
    requires SwingScanned(samples, windowStart, windowEnd, n, intervals, recent, openStart, es)
    requires !TriggerAt(samples, windowStart, n)
    requires openStart.Some? ==> !LowAt(samples, windowStart, n)
    ensures SwingScanned(samples, windowStart, windowEnd, n + 1, intervals, recent, openStart, es)
  {
    if openStart.Some? {
      OpenContinues(samples, windowStart, From(es, |es|), n, openStart.value);
    } else {
      IdleSkips(samples, windowStart, From(es, |es|), n, recent);
    }
  }

  method BuildAutoSuspectIntervals(samples: seq<Sample>, windowStart: Time, windowEnd: Time)
    returns (result: seq<Interval>)
    ensures Detected(result, AutoSuspect, windowStart, windowEnd)
    ensures Ordered(samples) ==> forall t: Time :: windowStart <= t < windowEnd ==>
      (Covered(result, TagOf(AutoSuspect), t) <==> SwingAt(samples, windowStart, windowEnd, t))
  {
    ghost var es: seq<Episode> := [];
    if |samples| < 2 {
      if Ordered(samples) {
        SwingFinished(samples, windowStart, windowEnd, 1, [], [], []);
      }
      return [];
    }
    var intervals: seq<Interval> := [];
    var recentTriggers: seq<Time> := [];
    var openStart: Option<Time> := None;
    var previous := samples[0];
    for n := 1 to |samples|
      invariant previous == samples[n - 1]
      invariant Detected(intervals, AutoSuspect, windowStart, windowEnd)
      invariant Ordered(samples) ==>
        SwingScanned(samples, windowStart, windowEnd, n, intervals, recentTriggers, openStart, es)
    {
      var current := samples[n];
      ghost var from := From(es, |es|);
      if current.ts < windowStart {
        if Ordered(samples) {
          SwingSkips(samples, windowStart, windowEnd, n, intervals, recentTriggers, openStart, es);
        }
        previous := current;
        continue;
      }
      if openStart.Some? && current.online.Some? && current.online.value <= SUSPECT_CLOSE_ONLINE_THRESHOLD {
        if Ordered(samples) {
          es := SwingCloses(samples, windowStart, windowEnd, n, intervals, recentTriggers, openStart, es,
                            current.ts);
        }
        PushClampedDetected(intervals, AutoSuspect, openStart.value, current.ts, windowStart, windowEnd);
        intervals := PushClamped(intervals, AutoSuspect, openStart.value, current.ts, windowStart, windowEnd);
        openStart := None;
        recentTriggers := [];
        previous := current;
        continue;
      }
      if IsSuspectTrigger(previous, current) {
        if Ordered(samples) {
          if openStart.Some? {
            OpenContinues(samples, windowStart, from, n, openStart.value);
          } else {
            IdleTriggers(samples, windowStart, from, n, recentTriggers);
          }
        }
        recentTriggers := recentTriggers + [previous.ts];
        recentTriggers := Retain(recentTriggers, current.ts);
        if openStart.None? && |recentTriggers| >= 2 {
          openStart := Some(Max(recentTriggers[0], windowStart));
        }
      } else if Ordered(samples) {
        SwingSkips(samples, windowStart, windowEnd, n, intervals, recentTriggers, openStart, es);
      }
      previous := current;
    }
    if openStart.Some? {
      if Ordered(samples) {
        es := SwingCloses(samples, windowStart, windowEnd, |samples|, intervals, recentTriggers, openStart, es,
                          windowEnd);
      }
      PushClampedDetected(intervals, AutoSuspect, openStart.value, windowEnd, windowStart, windowEnd);
      intervals := PushClamped(intervals, AutoSuspect, openStart.value, windowEnd, windowStart, windowEnd);
      recentTriggers := [];
    }
    if Ordered(samples) {
      SwingFinished(samples, windowStart, windowEnd, if openStart.Some? then |samples| + 1 else |samples|,
                    intervals, recentTriggers, es);
    }
    MergeDetected(intervals, AutoSuspect, windowStart, windowEnd);
    result := MergeIntervals(intervals);
  }

  /** Every episode is opened by two triggers within half an hour, ends at the first following
      sample with at most five players or at the end of the window, and ends no later than the
      next one starts. */
  lemma EpisodesAreWitnessed(samples: seq<Sample>, windowStart: Time, windowEnd: Time,
                             es: seq<Episode>, r: nat)
    requires Ordered(samples) && AllEpisodes(samples, windowStart, es) && r < |es|
    ensures var e := es[r];
      && 1 <= e.first < e.second < e.close <= |samples|
      && IsSuspectTrigger(samples[e.first - 1], samples[e.first])
      && IsSuspectTrigger(samples[e.second - 1], samples[e.second])
      && samples[e.second].ts - samples[e.first - 1].ts <= 1800
      && windowStart <= samples[e.first].ts
      && EpisodeStart(samples, windowStart, e)
         == (if samples[e.first - 1].ts <= windowStart then windowStart else samples[e.first - 1].ts)
      && EpisodeStart(samples, windowStart, e) <= samples[e.second].ts
      && (if e.close < |samples| then
            && samples[e.close].online.Some?
            && samples[e.close].online.value <= 5
            && EpisodeEnd(samples, windowEnd, e) == samples[e.close].ts
          else EpisodeEnd(samples, windowEnd, e) == windowEnd)
      && (r + 1 < |es| ==>
            && 1 <= es[r + 1].first < |samples|
            && EpisodeEnd(samples, windowEnd, e) <= EpisodeStart(samples, windowStart, es[r + 1]))
  {
    assert IsNext(samples, windowStart, From(es, r), es[r]);
    if r + 1 < |es| {
      assert IsNext(samples, windowStart, From(es, r + 1), es[r + 1]);
    }
  }

  lemma {:induction false} LastEpisodeBefore(samples: seq<Sample>, windowStart: Time, es: seq<Episode>, i: int, n: nat)
    returns (r: nat)
    requires n <= |es| && i >= 1
    ensures r <= n && From(es, r) <= i && (r < n ==> i <= es[r].close)
  {
    r := n;
    if n > 0 && i <= es[n - 1].close {
      r := LastEpisodeBefore(samples, windowStart, es, i, n - 1);
      if r == n - 1 {
        assert i <= es[r].close;
      }
    }
  }

  /** No two triggers within half an hour are missed: some episode is open by the second of them that is not
      over before the first. */
  lemma NoPairIsMissed(samples: seq<Sample>, windowStart: Time, es: seq<Episode>, i: int, j: int) returns (r: nat)
    requires AllEpisodes(samples, windowStart, es) && 1 <= i < j < |samples|
    requires windowStart <= samples[i].ts && windowStart <= samples[j].ts
    requires IsSuspectTrigger(samples[i - 1], samples[i]) && IsSuspectTrigger(samples[j - 1], samples[j])
    requires samples[j].ts - samples[i - 1].ts <= 1800
    ensures r < |es| && es[r].second <= j && i <= es[r].close
  {
    r := LastEpisodeBefore(samples, windowStart, es, i, |es|);
    assert Opening(samples, windowStart, From(es, r), i, j);
    if r < |es| {
      assert IsNext(samples, windowStart, From(es, r), es[r]);
    }
  }

  // ---- stagnant-run detector ----

  /** The sample reports a count the detector cares about. */
  predicate SteadyAt(samples: seq<Sample>, minOnline: int, k: int) {
    0 <= k < |samples| && samples[k].online.Some? && samples[k].online.value >= minOnline
  }

  /** Sample k continues the run of sample k - 1: same count, no long gap. */
  predicate Continues(samples: seq<Sample>, minOnline: int, k: int) {
    && 1 <= k < |samples| && SteadyAt(samples, minOnline, k - 1)
    && samples[k].online == samples[k - 1].online
    && samples[k].ts - samples[k - 1].ts <= SUSPECT_STAGNANT_MAX_GAP_SECS
  }

  /** The first sample of the run that sample k belongs to. */
  function RunStart(samples: seq<Sample>, minOnline: int, k: nat): (s: nat)
    ensures s <= k
  {
    if k > 0 && Continues(samples, minOnline, k) then RunStart(samples, minOnline, k - 1) else k
  }

  /** The samples of a run: equal counts at or above the minimum, no gap over half an hour, and
      not continued from before. */
  lemma {:induction false} RunIsFlat(samples: seq<Sample>, minOnline: int, k: nat)
    requires SteadyAt(samples, minOnline, k)
    ensures var s := RunStart(samples, minOnline, k);
      && !Continues(samples, minOnline, s)
      && (forall m :: s <= m <= k ==> samples[m].online == samples[k].online)
      && (forall m :: s < m <= k ==> samples[m].ts - samples[m - 1].ts <= 1800)
  {
    if k > 0 && Continues(samples, minOnline, k) {
      RunIsFlat(samples, minOnline, k - 1);
    }
  }

  /** The run that ends with sample j - 1 reaches to the sample that breaks it, unless a long gap
      comes first, or to the end of the window when nothing breaks it. */
  function RunEnd(samples: seq<Sample>, windowEnd: Time, j: nat): Time
    requires 1 <= j <= |samples|
  {
    if j == |samples| then windowEnd
    else if samples[j].ts - samples[j - 1].ts > SUSPECT_STAGNANT_MAX_GAP_SECS then samples[j - 1].ts
    else samples[j].ts
  }

  predicate StagnantRun(samples: seq<Sample>, windowEnd: Time, minOnline: int, j: nat) {
    && 1 <= j <= |samples| && SteadyAt(samples, minOnline, j - 1) && !Continues(samples, minOnline, j)
    && RunEnd(samples, windowEnd, j) - samples[RunStart(samples, minOnline, j - 1)].ts
       >= SUSPECT_STAGNANT_MIN_DURATION_SECS
  }

  /** A stagnant run cannot be lengthened at either end. */
  lemma StagnantRunIsMaximal(samples: seq<Sample>, windowEnd: Time, minOnline: int, j: nat)
    requires StagnantRun(samples, windowEnd, minOnline, j)
    ensures var s := RunStart(samples, minOnline, j - 1);
      && !Continues(samples, minOnline, s) && !Continues(samples, minOnline, j)
      && (forall m :: s <= m < j ==> SteadyAt(samples, minOnline, m) && samples[m].online == samples[s].online)
      && (forall m :: s < m < j ==> Continues(samples, minOnline, m))
      && RunEnd(samples, windowEnd, j) - samples[s].ts >= 21600
  {
    RunIsFlat(samples, minOnline, j - 1);
  }

  predicate StagnantRunCovers(samples: seq<Sample>, windowEnd: Time, minOnline: int, j: nat, t: Time) {
    && StagnantRun(samples, windowEnd, minOnline, j)
    && samples[RunStart(samples, minOnline, j - 1)].ts <= t < RunEnd(samples, windowEnd, j)
  }

  /** The instant lies in a maximal run of equal counts that lasts at least six hours. */
  predicate StagnantAt(samples: seq<Sample>, windowEnd: Time, minOnline: int, t: Time) {
    && |samples| >= 2 && minOnline > 0
    && exists j: nat :: j <= |samples| && StagnantRunCovers(samples, windowEnd, minOnline, j, t)
  }

  /** The sample reports what the one before it did, at most half an hour later. */
  predicate Repeats(samples: seq<Sample>, m: int) {
    1 <= m < |samples| && samples[m].online == samples[m - 1].online && samples[m].ts - samples[m - 1].ts <= 1800
  }

  /** From sample s up to sample j the same count at or above the minimum is reported, and neither before
      nor after. */
  predicate MaximalRun(samples: seq<Sample>, minOnline: int, s: int, j: int) {
    && 0 <= s < j <= |samples| && samples[s].online.Some? && samples[s].online.value >= minOnline
    && !Repeats(samples, s) && !Repeats(samples, j)
    && forall m :: s < m < j ==> Repeats(samples, m)
  }

  /** The run lasts six hours or more and contains the instant. It ends with the sample that breaks it,
      with its own last sample before a gap of more than half an hour, or with the window. */
  predicate LongRunCovers(samples: seq<Sample>, windowEnd: Time, s: int, j: int, t: Time)
    requires 0 <= s < j <= |samples|
  {
    var end := if j == |samples| then windowEnd
               else if samples[j].ts - samples[j - 1].ts > 1800 then samples[j - 1].ts else samples[j].ts;
    end - samples[s].ts >= 21600 && samples[s].ts <= t < end
  }

  lemma ContinuesIsRepeats(samples: seq<Sample>, minOnline: int, k: nat)
    requires SteadyAt(samples, minOnline, k - 1) || SteadyAt(samples, minOnline, k)
    ensures Continues(samples, minOnline, k) <==> Repeats(samples, k)
  {
  }

  lemma {:induction false} RunStartsAt(samples: seq<Sample>, minOnline: int, s: nat, k: nat)
    requires s <= k && SteadyAt(samples, minOnline, s) && !Repeats(samples, s)
    requires k < |samples| && forall m :: s < m <= k ==> Repeats(samples, m)
    ensures RunStart(samples, minOnline, k) == s && SteadyAt(samples, minOnline, k)
  {
    if s < k {
      RunStartsAt(samples, minOnline, s, k - 1);
      assert Repeats(samples, k);
    }
    ContinuesIsRepeats(samples, minOnline, k);
  }

  lemma MaximalRunIsStagnant(samples: seq<Sample>, windowEnd: Time, minOnline: int, s: nat, j: nat, t: Time)
    requires MaximalRun(samples, minOnline, s, j) && LongRunCovers(samples, windowEnd, s, j, t)
    ensures StagnantRunCovers(samples, windowEnd, minOnline, j, t)
  {
    RunStartsAt(samples, minOnline, s, j - 1);
    ContinuesIsRepeats(samples, minOnline, j);
  }

  lemma StagnantRunIsLong(samples: seq<Sample>, windowEnd: Time, minOnline: int, j: nat, t: Time)
    requires StagnantRunCovers(samples, windowEnd, minOnline, j, t)
    ensures var s := RunStart(samples, minOnline, j - 1);
      MaximalRun(samples, minOnline, s, j) && LongRunCovers(samples, windowEnd, s, j, t)
  {
    var s := RunStart(samples, minOnline, j - 1);
    StagnantRunIsMaximal(samples, windowEnd, minOnline, j);
    assert SteadyAt(samples, minOnline, s);
    forall m | s < m < j ensures Repeats(samples, m) {
      assert Continues(samples, minOnline, m);
    }
    ContinuesIsRepeats(samples, minOnline, s);
    ContinuesIsRepeats(samples, minOnline, j);
  }

  /** Being stagnant, said without the recursion: the instant lies in a maximal run of equal counts. */
  lemma StagnantExactly(samples: seq<Sample>, windowEnd: Time, minOnline: int, t: Time)
    ensures StagnantAt(samples, windowEnd, minOnline, t) <==>
      && |samples| >= 2 && minOnline > 0
      && exists s, j :: MaximalRun(samples, minOnline, s, j) && LongRunCovers(samples, windowEnd, s, j, t)
  {
    if j: nat :| j <= |samples| && StagnantRunCovers(samples, windowEnd, minOnline, j, t) {
      StagnantRunIsLong(samples, windowEnd, minOnline, j, t);
    }
    if s: int, j: int :| MaximalRun(samples, minOnline, s, j) && LongRunCovers(samples, windowEnd, s, j, t) {
      MaximalRunIsStagnant(samples, windowEnd, minOnline, s, j, t);
    }
  }

  function PushStagnantSuspectRun(intervals: seq<Interval>, runValue: Option<int>, runStart: Time, runEnd: Time,
                                  windowStart: Time, windowEnd: Time, minOnline: int): seq<Interval>
  {
    if runValue.None? || runValue.value < minOnline then intervals
    else if runEnd - runStart < SUSPECT_STAGNANT_MIN_DURATION_SECS then intervals
    else PushClamped(intervals, AutoSuspect, runStart, runEnd, windowStart, windowEnd)
  }

  /** Before sample n: `runValue` and `runStart` describe the run of sample n - 1, and the
      intervals cover the long runs broken so far. */
  ghost predicate StagnantScanned(samples: seq<Sample>, windowStart: Time, windowEnd: Time, minOnline: int,
                                  n: nat, intervals: seq<Interval>, runValue: Option<int>, runStart: Time)
  {
    && 1 <= n <= |samples|
    && (runValue.Some? <==> SteadyAt(samples, minOnline, n - 1))
    && (runValue.Some? ==> runValue == samples[n - 1].online
                           && runStart == samples[RunStart(samples, minOnline, n - 1)].ts)
    && forall t: Time :: Covered(intervals, TagOf(AutoSuspect), t) <==>
         && windowStart <= t < windowEnd
         && exists j: nat :: j < n && StagnantRunCovers(samples, windowEnd, minOnline, j, t)
  }

  /** The run of sample n - 1 ends at n: it is pushed exactly when it is long enough. */
  lemma StagnantBreaks(samples: seq<Sample>, windowStart: Time, windowEnd: Time, minOnline: int, n: nat,
                       intervals: seq<Interval>, runValue: Option<int>, runStart: Time, t: Time)
    requires StagnantScanned(samples, windowStart, windowEnd, minOnline, n, intervals, runValue, runStart)
    requires !Continues(samples, minOnline, n)
    ensures
      var pushed := PushStagnantSuspectRun(intervals, runValue, runStart, RunEnd(samples, windowEnd, n),
                                           windowStart, windowEnd, minOnline);
      Covered(pushed, TagOf(AutoSuspect), t) <==>
        && windowStart <= t < windowEnd
        && exists j: nat :: j < n + 1 && StagnantRunCovers(samples, windowEnd, minOnline, j, t)
  {
    PushClampedCovers(intervals, AutoSuspect, runStart, RunEnd(samples, windowEnd, n), windowStart, windowEnd,
                      TagOf(AutoSuspect), t);
    assert (exists j: nat :: j < n + 1 && StagnantRunCovers(samples, windowEnd, minOnline, j, t)) <==>
           (exists j: nat :: j < n && StagnantRunCovers(samples, windowEnd, minOnline, j, t))
           || StagnantRunCovers(samples, windowEnd, minOnline, n, t);
  }

  lemma StagnantContinues(samples: seq<Sample>, windowStart: Time, windowEnd: Time, minOnline: int, n: nat,
                          intervals: seq<Interval>, runValue: Option<int>, runStart: Time)
    requires StagnantScanned(samples, windowStart, windowEnd, minOnline, n, intervals, runValue, runStart)
    requires Continues(samples, minOnline, n)
    ensures StagnantScanned(samples, windowStart, windowEnd, minOnline, n + 1, intervals, runValue, runStart)
  {
    assert forall t: Time :: !StagnantRunCovers(samples, windowEnd, minOnline, n, t);
  }

  method BuildStagnantSuspectIntervals(samples: seq<Sample>, windowStart: Time, windowEnd: Time,
                                       stagnantMinOnline: int) returns (result: seq<Interval>)
    ensures Detected(result, AutoSuspect, windowStart, windowEnd)
    ensures forall t: Time :: windowStart <= t < windowEnd ==>
      (Covered(result, TagOf(AutoSuspect), t) <==> StagnantAt(samples, windowEnd, stagnantMinOnline, t))
  {
    if |samples| < 2 || stagnantMinOnline <= 0 {
      return [];
    }
    var intervals: seq<Interval> := [];
    var runValue: Option<int> := None;
    var runStart: Time := 0;
    var previousTs := samples[0].ts;
    if samples[0].online.Some? && samples[0].online.value >= stagnantMinOnline {
      runValue := samples[0].online;
      runStart := samples[0].ts;
    }
    for n := 1 to |samples|
      invariant previousTs == samples[n - 1].ts
      invariant Detected(intervals, AutoSuspect, windowStart, windowEnd)
      invariant StagnantScanned(samples, windowStart, windowEnd, stagnantMinOnline, n, intervals, runValue, runStart)
    {
      var current := samples[n];
      var sameValue := runValue.Some? && current.online == runValue
                       && current.ts - previousTs <= SUSPECT_STAGNANT_MAX_GAP_SECS;
      if sameValue {
        StagnantContinues(samples, windowStart, windowEnd, stagnantMinOnline, n, intervals, runValue, runStart);
        previousTs := current.ts;
        continue;
      }
      var runEnd := if runValue.Some? && current.ts - previousTs > SUSPECT_STAGNANT_MAX_GAP_SECS
                    then previousTs else current.ts;
      ghost var before := intervals;
      intervals := PushStagnantSuspectRun(intervals, runValue, runStart, runEnd, windowStart, windowEnd,
                                          stagnantMinOnline);
      PushClampedDetected(before, AutoSuspect, runStart, runEnd, windowStart, windowEnd);
      forall t: Time
        ensures Covered(intervals, TagOf(AutoSuspect), t) <==>
          && windowStart <= t < windowEnd
          && exists j: nat :: j < n + 1 && StagnantRunCovers(samples, windowEnd, stagnantMinOnline, j, t)
      {
        StagnantBreaks(samples, windowStart, windowEnd, stagnantMinOnline, n, before, runValue, runStart, t);
      }
      if current.online.Some? && current.online.value >= stagnantMinOnline {
        runValue := current.online;
        runStart := current.ts;
      } else {
        runValue := None;
        runStart := 0;
      }
      previousTs := current.ts;
    }
    ghost var before := intervals;
    intervals := PushStagnantSuspectRun(intervals, runValue, runStart, windowEnd, windowStart, windowEnd,
                                        stagnantMinOnline);
    PushClampedDetected(before, AutoSuspect, runStart, windowEnd, windowStart, windowEnd);
    forall t: Time | windowStart <= t < windowEnd
      ensures Covered(intervals, TagOf(AutoSuspect), t) <==> StagnantAt(samples, windowEnd, stagnantMinOnline, t)
    {
      StagnantBreaks(samples, windowStart, windowEnd, stagnantMinOnline, |samples|, before, runValue, runStart, t);
    }
    MergeDetected(intervals, AutoSuspect, windowStart, windowEnd);
    result := MergeIntervals(intervals);
  }
}
