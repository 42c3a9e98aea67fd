/** Samples, intervals and states of the server-activity segmentation (rust/src/segments.rs).
    Timestamps are whole non-negative seconds. */
module SegmentTypes {
  import opened Options

  type Time = nat

  const PRIORITY_MANUAL_CLEAR := 100
  const PRIORITY_MANUAL_SUSPECT := 90
  const PRIORITY_MANUAL_MAINTENANCE := 80
  const PRIORITY_PLUGIN_MAINTENANCE := 70
  const PRIORITY_MOTD_MAINTENANCE := 60
  const PRIORITY_AUTO_SUSPECT := 50

  // The constructors are listed in the alphabetical order of the source's strings.
  datatype Source = Auto | Manual | Motd | Plugin
  datatype Status = Maintenance | Suspect

  datatype Sample = Sample(ts: Time, online: Option<int>, pluginMaintenance: bool, motdMaintenance: bool)

  datatype Mode = ForceNormal | ForceSuspect | ForceMaintenance | UnknownMode(text: string)
  datatype Override = Override(startsAt: Time, endsAt: Time, mode: Mode)

  /** The five fields that classify an interval. */
  datatype Tag = Tag(
    priority: int, source: Source, status: Option<Status>, excludeFromScore: bool, clears: bool)

  /** The half-open span [startsAt, endsAt) under a tag. */
  datatype Interval = Interval(startsAt: Time, endsAt: Time, tag: Tag)

  datatype State = State(status: Option<Status>, source: Option<Source>, excludeFromScore: bool)

  const NORMAL := State(None, None, false)

  /** The kinds of interval the segmentation itself builds. */
  datatype Kind =
    | ManualClear
    | ManualSuspect
    | ManualMaintenance
    | PluginMaintenance
    | MotdMaintenance
    | AutoSuspect

  function TagOf(kind: Kind): Tag {
    match kind
    case ManualClear => Tag(PRIORITY_MANUAL_CLEAR, Manual, None, false, true)
    case ManualSuspect => Tag(PRIORITY_MANUAL_SUSPECT, Manual, Some(Suspect), true, false)
    case ManualMaintenance => Tag(PRIORITY_MANUAL_MAINTENANCE, Manual, Some(Maintenance), true, false)
    case PluginMaintenance => Tag(PRIORITY_PLUGIN_MAINTENANCE, Plugin, Some(Maintenance), true, false)
    case MotdMaintenance => Tag(PRIORITY_MOTD_MAINTENANCE, Motd, Some(Maintenance), true, false)
    case AutoSuspect => Tag(PRIORITY_AUTO_SUSPECT, Auto, Some(Suspect), true, false)
  }

  /** A kind is left out of the score exactly when it has a status, and has one exactly when it does not
      clear; manual kinds come before all others. */
  lemma KindsAreConsistent(kind: Kind)
    ensures var tag := TagOf(kind);
      && (tag.excludeFromScore <==> tag.status.Some?) && (tag.clears <==> tag.status.None?)
      && (tag.source == Manual <==> tag.priority >= 80) && 50 <= tag.priority <= 100
  {
  }

  predicate IsBuiltTag(tag: Tag) {
    exists kind: Kind :: tag == TagOf(kind)
  }

  /** Every interval is non-empty and carries a tag the segmentation itself uses. */
  predicate AllBuilt(intervals: seq<Interval>) {
    forall iv :: iv in intervals ==> iv.startsAt < iv.endsAt && IsBuiltTag(iv.tag)
  }

  predicate AllWithin(intervals: seq<Interval>, windowStart: Time, windowEnd: Time) {
    forall iv :: iv in intervals ==> windowStart <= iv.startsAt && iv.endsAt <= windowEnd
  }

  predicate Covers(iv: Interval, t: Time) {
    iv.startsAt <= t < iv.endsAt
  }

  /** Some interval with this tag contains the instant. */
  predicate Covered(intervals: seq<Interval>, tag: Tag, t: Time) {
    exists iv :: iv in intervals && iv.tag == tag && Covers(iv, t)
  }

  lemma CoveredConcat(a: seq<Interval>, b: seq<Interval>, tag: Tag, t: Time)
    ensures Covered(a + b, tag, t) <==> Covered(a, tag, t) || Covered(b, tag, t)
  {
    assert forall iv :: iv in a + b <==> iv in a || iv in b;
    if Covered(a, tag, t) {
      var iv :| iv in a && iv.tag == tag && Covers(iv, t);
      assert iv in a + b;
    }
    if Covered(b, tag, t) {
      var iv :| iv in b && iv.tag == tag && Covers(iv, t);
      assert iv in a + b;
    }
  }

  predicate Ordered(samples: seq<Sample>) {
    forall i, j :: 0 <= i < j < |samples| ==> samples[i].ts <= samples[j].ts
  }

  /** The last element, in list order, whose timestamp is at or before `t`. */
  function LastAt<X>(xs: seq<X>, ts: X -> Time, t: Time): Option<X> {
    if xs == [] then None
    else if ts(xs[|xs| - 1]) <= t then Some(xs[|xs| - 1])
    else LastAt(xs[..|xs| - 1], ts, t)
  }

  /** Everything after the element found is later than `t`, and nothing is found only when everything is. */
  lemma {:induction false} LastAtIsLast<X>(xs: seq<X>, ts: X -> Time, t: Time)
    ensures LastAt(xs, ts, t).None? <==> forall i :: 0 <= i < |xs| ==> t < ts(xs[i])
    ensures LastAt(xs, ts, t).Some? ==>
      exists i :: 0 <= i < |xs| && xs[i] == LastAt(xs, ts, t).value && ts(xs[i]) <= t
               && forall j :: i < j < |xs| ==> t < ts(xs[j])
  {
    if xs != [] {
      var n := |xs| - 1;
      if t < ts(xs[n]) {
        LastAtIsLast(xs[..n], ts, t);
      }
    }
  }

  function Clamp(startsAt: Time, endsAt: Time, windowStart: Time, windowEnd: Time): Option<(Time, Time)> {
    var s := if startsAt >= windowStart then startsAt else windowStart;
    var e := if endsAt <= windowEnd then endsAt else windowEnd;
    if e <= s then None else Some((s, e))
  }

  /** Appends the part of [startsAt, endsAt) that lies in the window, if any. */
  function PushClamped(intervals: seq<Interval>, kind: Kind, startsAt: Time, endsAt: Time,
                       windowStart: Time, windowEnd: Time): seq<Interval>
  {
    match Clamp(startsAt, endsAt, windowStart, windowEnd)
    case None => intervals
    case Some((s, e)) => intervals + [Interval(s, e, TagOf(kind))]
  }

  lemma PushClampedCovers(intervals: seq<Interval>, kind: Kind, startsAt: Time, endsAt: Time,
                          windowStart: Time, windowEnd: Time, tag: Tag, t: Time)
    ensures Covered(PushClamped(intervals, kind, startsAt, endsAt, windowStart, windowEnd), tag, t) <==>
            || Covered(intervals, tag, t)
            || (tag == TagOf(kind) && startsAt <= t < endsAt && windowStart <= t < windowEnd)
  {
    match Clamp(startsAt, endsAt, windowStart, windowEnd)
    case None =>
    case Some((s, e)) =>
      var iv := Interval(s, e, TagOf(kind));
      CoveredConcat(intervals, [iv], tag, t);
      if tag == TagOf(kind) && Covers(iv, t) {
        assert iv in [iv];
      }
  }

  /** What every detector hands on: non-empty intervals of one kind inside the window. */
  predicate Detected(intervals: seq<Interval>, kind: Kind, windowStart: Time, windowEnd: Time) {
    forall iv :: iv in intervals ==>
      iv.tag == TagOf(kind) && windowStart <= iv.startsAt < iv.endsAt <= windowEnd
  }

  lemma PushClampedDetected(intervals: seq<Interval>, kind: Kind, startsAt: Time, endsAt: Time,
                            windowStart: Time, windowEnd: Time)
    requires Detected(intervals, kind, windowStart, windowEnd)
    ensures Detected(PushClamped(intervals, kind, startsAt, endsAt, windowStart, windowEnd),
                     kind, windowStart, windowEnd)
  {
  }
}
