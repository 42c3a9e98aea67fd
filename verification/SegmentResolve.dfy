/** Resolving the state at an instant and over a range
    (resolve_state_at_inner and resolve_state_for_range_inner in rust/src/segments.rs). */
module SegmentResolve {
  import opened Options
  import opened SegmentTypes
  import opened SegmentMerge

  function Filter(intervals: seq<Interval>, p: Interval -> bool): seq<Interval> {
    if intervals == [] then []
    else (if p(intervals[0]) then [intervals[0]] else []) + Filter(intervals[1..], p)
  }

  lemma {:induction false} FilterElements(intervals: seq<Interval>, p: Interval -> bool)
    ensures forall iv :: iv in Filter(intervals, p) <==> iv in intervals && p(iv)
  {
    if intervals != [] {
      FilterElements(intervals[1..], p);
      assert intervals == [intervals[0]] + intervals[1..];
    }
  }

  /** The interval of highest priority; among equals, the last one. */
  function LastMax(active: seq<Interval>): Interval
    requires active != []
  {
    var n := |active| - 1;
    if n == 0 then active[0]
    else
      var best := LastMax(active[..n]);
      if active[n].tag.priority >= best.tag.priority then active[n] else best
  }

  lemma {:induction false} LastMaxIsMax(active: seq<Interval>)
    requires active != []
    ensures LastMax(active) in active
    ensures forall iv :: iv in active ==> iv.tag.priority <= LastMax(active).tag.priority
  {
    var n := |active| - 1;
    if n > 0 {
      LastMaxIsMax(active[..n]);
      assert active == active[..n] + [active[n]];
    }
  }

  /** Everything behind the interval chosen has a lower priority. */
  lemma {:induction false} LastMaxIsLast(active: seq<Interval>) returns (i: nat)
    requires active != []
    ensures i < |active| && active[i] == LastMax(active)
    ensures forall j :: i < j < |active| ==> active[j].tag.priority < active[i].tag.priority
  {
    var n := |active| - 1;
    i := n;
    if n > 0 && LastMax(active[..n]).tag.priority > active[n].tag.priority {
      i := LastMaxIsLast(active[..n]);
    }
  }

  function ResolveActive(active: seq<Interval>): State {
    if active == [] then NORMAL
    else if exists iv :: iv in active && iv.tag.clears then NORMAL
    else
      var best := LastMax(active).tag;
      State(best.status, Some(best.source), best.excludeFromScore)
  }

  function ResolveAt(t: Time, intervals: seq<Interval>): State {
    ResolveActive(Filter(intervals, iv => Covers(iv, t)))
  }

  predicate Overlaps(iv: Interval, startsAt: Time, endsAt: Time) {
    iv.startsAt < endsAt && iv.endsAt > startsAt
  }

  function ResolveForRange(startsAt: Time, endsAt: Time, intervals: seq<Interval>): State {
    ResolveActive(Filter(intervals, iv => Overlaps(iv, startsAt, endsAt)))
  }

  // ---- the declarative ranking ----

  /** The strongest kind that holds; a manual clear beats everything. */
  function Top(has: Kind -> bool): Option<Kind> {
    if has(ManualClear) then Some(ManualClear)
    else if has(ManualSuspect) then Some(ManualSuspect)
    else if has(ManualMaintenance) then Some(ManualMaintenance)
    else if has(PluginMaintenance) then Some(PluginMaintenance)
    else if has(MotdMaintenance) then Some(MotdMaintenance)
    else if has(AutoSuspect) then Some(AutoSuspect)
    else None
  }

  function StateOf(kind: Option<Kind>): State {
    match kind
    case None => NORMAL
    case Some(ManualClear) => NORMAL
    case Some(ManualSuspect) => State(Some(Suspect), Some(Manual), true)
    case Some(ManualMaintenance) => State(Some(Maintenance), Some(Manual), true)
    case Some(PluginMaintenance) => State(Some(Maintenance), Some(Plugin), true)
    case Some(MotdMaintenance) => State(Some(Maintenance), Some(Motd), true)
    case Some(AutoSuspect) => State(Some(Suspect), Some(Auto), true)
  }

  function Ranked(has: Kind -> bool): State {
    StateOf(Top(has))
  }

  predicate HasKind(active: seq<Interval>, kind: Kind) {
    exists iv :: iv in active && iv.tag == TagOf(kind)
  }

  lemma ResolveActiveRanked(active: seq<Interval>)
    requires forall iv :: iv in active ==> IsBuiltTag(iv.tag)
    ensures ResolveActive(active) == Ranked(k => HasKind(active, k))
  {
    if active != [] {
      LastMaxIsMax(active);
      var best := LastMax(active);
      var kind: Kind :| best.tag == TagOf(kind);
      assert HasKind(active, kind);
      assert HasKind(active, ManualClear) <==> exists iv :: iv in active && iv.tag.clears;
      forall k: Kind | HasKind(active, k) ensures TagOf(k).priority <= TagOf(kind).priority {
      }
      assert !HasKind(active, ManualClear) ==> Top(k => HasKind(active, k)) == Some(kind);
    }
  }

  /** For intervals the segmentation builds, the resolved state is that of the strongest kind
      covering the instant. */
  lemma ResolveAtRanked(t: Time, intervals: seq<Interval>)
    requires AllBuilt(intervals)
    ensures ResolveAt(t, intervals) == Ranked(k => Covered(intervals, TagOf(k), t))
  {
    var active := Filter(intervals, iv => Covers(iv, t));
    FilterElements(intervals, iv => Covers(iv, t));
    ResolveActiveRanked(active);
    forall k: Kind ensures HasKind(active, k) <==> Covered(intervals, TagOf(k), t) {
    }
  }

  predicate OverlapsKind(intervals: seq<Interval>, kind: Kind, startsAt: Time, endsAt: Time) {
    exists iv :: iv in intervals && iv.tag == TagOf(kind) && Overlaps(iv, startsAt, endsAt)
  }

  lemma ResolveForRangeRanked(startsAt: Time, endsAt: Time, intervals: seq<Interval>)
    requires AllBuilt(intervals)
    ensures ResolveForRange(startsAt, endsAt, intervals)
         == Ranked(k => OverlapsKind(intervals, k, startsAt, endsAt))
  {
    var active := Filter(intervals, iv => Overlaps(iv, startsAt, endsAt));
    FilterElements(intervals, iv => Overlaps(iv, startsAt, endsAt));
    ResolveActiveRanked(active);
    forall k: Kind ensures HasKind(active, k) <==> OverlapsKind(intervals, k, startsAt, endsAt) {
    }
  }

  ghost function BuiltTags(): set<Tag> {
    {TagOf(ManualClear), TagOf(ManualSuspect), TagOf(ManualMaintenance),
     TagOf(PluginMaintenance), TagOf(MotdMaintenance), TagOf(AutoSuspect)}
  }

  lemma MergeKeepsBuilt(intervals: seq<Interval>, lo: Time, hi: Time)
    requires AllBuilt(intervals) && AllWithin(intervals, lo, hi)
    ensures AllBuilt(Merge(intervals)) && AllWithin(Merge(intervals), lo, hi)
  {
    assert forall k: Kind :: TagOf(k) in BuiltTags();
    MergeKeeps(intervals, BuiltTags(), lo, hi);
    forall tag | tag in BuiltTags() ensures IsBuiltTag(tag) {
      assert exists k: Kind :: tag == TagOf(k) by {
        if tag == TagOf(ManualClear) {
        } else if tag == TagOf(ManualSuspect) {
        } else if tag == TagOf(ManualMaintenance) {
        } else if tag == TagOf(PluginMaintenance) {
        } else if tag == TagOf(MotdMaintenance) {
        } else {
          assert tag == TagOf(AutoSuspect);
        }
      }
    }
  }

  /** A bound on the ends of the intervals. */
  function MaxEnd(s: seq<Interval>): (hi: Time)
    ensures forall iv :: iv in s ==> iv.endsAt <= hi
  {
    if s == [] then 0
    else
      var rest := MaxEnd(s[1..]);
      assert forall iv :: iv in s ==> iv == s[0] || iv in s[1..];
      if s[0].endsAt > rest then s[0].endsAt else rest
  }

  /** Merging changes no resolved state. */
  lemma MergePreservesResolution(t: Time, intervals: seq<Interval>)
    requires AllBuilt(intervals)
    ensures ResolveAt(t, Merge(intervals)) == ResolveAt(t, intervals)
  {
    MergeKeepsBuilt(intervals, 0, MaxEnd(intervals));
    ResolveAtRanked(t, intervals);
    ResolveAtRanked(t, Merge(intervals));
    forall k: Kind
      ensures Covered(Merge(intervals), TagOf(k), t) <==> Covered(intervals, TagOf(k), t)
    {
      MergePreservesCoverage(intervals, TagOf(k), t);
    }
  }

  // ---- range resolution against point resolution ----

  /** How strong a resolved state is: the priority of the kind behind it, 0 for normal. */
  function Strength(state: State): int {
    if state == NORMAL then 0
    else
      match state.source
      case Some(Manual) =>
        if state.status == Some(Suspect) then PRIORITY_MANUAL_SUSPECT else PRIORITY_MANUAL_MAINTENANCE
      case Some(Plugin) => PRIORITY_PLUGIN_MAINTENANCE
      case Some(Motd) => PRIORITY_MOTD_MAINTENANCE
      case _ => PRIORITY_AUTO_SUSPECT
  }

  /** The range resolves to the strongest state found at any instant of it. */
  ghost predicate RangeIsStrongest(startsAt: Time, endsAt: Time, intervals: seq<Interval>) {
    var range := ResolveForRange(startsAt, endsAt, intervals);
    && (exists t: Time :: startsAt <= t < endsAt && ResolveAt(t, intervals) == range)
    && (forall t: Time :: startsAt <= t < endsAt ==> Strength(ResolveAt(t, intervals)) <= Strength(range))
  }

  /** Every instant of the range that anything else covers is also covered by a manual clear. */
  ghost predicate FullyCleared(startsAt: Time, endsAt: Time, intervals: seq<Interval>) {
    forall t: Time, k: Kind :: startsAt <= t < endsAt && Covered(intervals, TagOf(k), t)
      ==> Covered(intervals, TagOf(ManualClear), t)
  }

  lemma RankedMonotone(part: Kind -> bool, whole: Kind -> bool)
    requires !whole(ManualClear) && forall k: Kind :: part(k) ==> whole(k)
    ensures Strength(Ranked(part)) <= Strength(Ranked(whole))
    ensures Top(whole).None? || part(Top(whole).value) ==> Ranked(part) == Ranked(whole)
  {
  }

  /** What holds at an instant of the range, against what overlaps the range. */
  lemma InstantAgainstRange(t: Time, startsAt: Time, endsAt: Time, intervals: seq<Interval>)
    requires AllBuilt(intervals) && startsAt <= t < endsAt
    requires !OverlapsKind(intervals, ManualClear, startsAt, endsAt)
    ensures Strength(ResolveAt(t, intervals)) <= Strength(ResolveForRange(startsAt, endsAt, intervals))
    ensures forall k: Kind ::
      Top(kind => OverlapsKind(intervals, kind, startsAt, endsAt)) == Some(k) && Covered(intervals, TagOf(k), t)
      ==> ResolveAt(t, intervals) == ResolveForRange(startsAt, endsAt, intervals)
    ensures Top(kind => OverlapsKind(intervals, kind, startsAt, endsAt)) == None
      ==> ResolveAt(t, intervals) == ResolveForRange(startsAt, endsAt, intervals)
  {
    var part := (k: Kind) => Covered(intervals, TagOf(k), t);
    var whole := (k: Kind) => OverlapsKind(intervals, k, startsAt, endsAt);
    ResolveAtRanked(t, intervals);
    ResolveForRangeRanked(startsAt, endsAt, intervals);
    forall k: Kind | part(k) ensures whole(k) {
      var iv :| iv in intervals && iv.tag == TagOf(k) && Covers(iv, t);
      assert Overlaps(iv, startsAt, endsAt);
    }
    RankedMonotone(part, whole);
    assert Top(whole) == Top(kind => OverlapsKind(intervals, kind, startsAt, endsAt));
  }

  lemma RangeWithoutClears(startsAt: Time, endsAt: Time, intervals: seq<Interval>)
    requires AllBuilt(intervals) && startsAt < endsAt
    requires !OverlapsKind(intervals, ManualClear, startsAt, endsAt)
    ensures RangeIsStrongest(startsAt, endsAt, intervals)
  {
    forall t: Time | startsAt <= t < endsAt
      ensures Strength(ResolveAt(t, intervals)) <= Strength(ResolveForRange(startsAt, endsAt, intervals))
    {
      InstantAgainstRange(t, startsAt, endsAt, intervals);
    }
    var top := Top(kind => OverlapsKind(intervals, kind, startsAt, endsAt));
    var t := startsAt;
    if top.Some? {
      var iv :| iv in intervals && iv.tag == TagOf(top.value) && Overlaps(iv, startsAt, endsAt);
      t := if iv.startsAt >= startsAt then iv.startsAt else startsAt;
      assert Covers(iv, t);
    }
    InstantAgainstRange(t, startsAt, endsAt, intervals);
    assert ResolveAt(t, intervals) == ResolveForRange(startsAt, endsAt, intervals);
  }

  /** Where whatever applies is cleared, the state is normal. */
  lemma NothingButClears(t: Time, intervals: seq<Interval>)
    requires AllBuilt(intervals)
    requires (exists k: Kind :: Covered(intervals, TagOf(k), t)) ==> Covered(intervals, TagOf(ManualClear), t)
    ensures ResolveAt(t, intervals) == NORMAL
  {
    ResolveAtRanked(t, intervals);
  }

  lemma UnclearedIsStrong(t: Time, intervals: seq<Interval>, k: Kind)
    requires AllBuilt(intervals)
    requires Covered(intervals, TagOf(k), t) && !Covered(intervals, TagOf(ManualClear), t)
    ensures Strength(ResolveAt(t, intervals)) > 0
  {
    ResolveAtRanked(t, intervals);
  }

  lemma ClearedRangeIsNormal(startsAt: Time, endsAt: Time, intervals: seq<Interval>)
    requires AllBuilt(intervals) && startsAt < endsAt
    requires OverlapsKind(intervals, ManualClear, startsAt, endsAt)
    ensures ResolveForRange(startsAt, endsAt, intervals) == NORMAL
    ensures RangeIsStrongest(startsAt, endsAt, intervals) <==> FullyCleared(startsAt, endsAt, intervals)
  {
    ResolveForRangeRanked(startsAt, endsAt, intervals);
    if FullyCleared(startsAt, endsAt, intervals) {
      forall t: Time | startsAt <= t < endsAt ensures ResolveAt(t, intervals) == NORMAL {
        NothingButClears(t, intervals);
      }
      assert ResolveAt(startsAt, intervals) == NORMAL;
    } else {
      var t: Time, k: Kind :| startsAt <= t < endsAt && Covered(intervals, TagOf(k), t)
                              && !Covered(intervals, TagOf(ManualClear), t);
      UnclearedIsStrong(t, intervals, k);
    }
  }

  /** A non-empty range resolves to the strongest state found in it exactly when no manual clear
      overlaps it, or everything else in it is cleared. */
  lemma RangeResolution(startsAt: Time, endsAt: Time, intervals: seq<Interval>)
    requires AllBuilt(intervals) && startsAt < endsAt
    ensures RangeIsStrongest(startsAt, endsAt, intervals) <==>
            || !OverlapsKind(intervals, ManualClear, startsAt, endsAt)
            || FullyCleared(startsAt, endsAt, intervals)
  {
    if OverlapsKind(intervals, ManualClear, startsAt, endsAt) {
      ClearedRangeIsNormal(startsAt, endsAt, intervals);
    } else {
      RangeWithoutClears(startsAt, endsAt, intervals);
    }
  }

  /** A range with one cleared second at its start that is suspect throughout. */
  function ClearedThenSuspect(startsAt: Time, endsAt: Time): seq<Interval> {
    [Interval(startsAt, startsAt + 1, TagOf(ManualClear)), Interval(startsAt, endsAt, TagOf(AutoSuspect))]
  }

  lemma ClearedThenSuspectAt(startsAt: Time, endsAt: Time, t: Time)
    requires startsAt < t < endsAt
    ensures AllBuilt(ClearedThenSuspect(startsAt, endsAt))
    ensures Covered(ClearedThenSuspect(startsAt, endsAt), TagOf(AutoSuspect), t)
    ensures !Covered(ClearedThenSuspect(startsAt, endsAt), TagOf(ManualClear), t)
    ensures ResolveAt(t, ClearedThenSuspect(startsAt, endsAt)) == State(Some(Suspect), Some(Auto), true)
  {
    var intervals := ClearedThenSuspect(startsAt, endsAt);
    assert IsBuiltTag(TagOf(ManualClear)) && IsBuiltTag(TagOf(AutoSuspect));
    assert intervals[1] in intervals && Covers(intervals[1], t);
    ResolveAtRanked(t, intervals);
  }

  /** The one second makes the whole range normal. */
  lemma ClearedRangeHidesSuspect(startsAt: Time, endsAt: Time)
    requires startsAt + 1 < endsAt
    ensures var intervals := ClearedThenSuspect(startsAt, endsAt);
      && ResolveForRange(startsAt, endsAt, intervals) == NORMAL
      && (forall t: Time :: startsAt < t < endsAt ==>
            ResolveAt(t, intervals) == State(Some(Suspect), Some(Auto), true))
      && !RangeIsStrongest(startsAt, endsAt, intervals)
  {
    var intervals := ClearedThenSuspect(startsAt, endsAt);
    forall t: Time | startsAt < t < endsAt
      ensures ResolveAt(t, intervals) == State(Some(Suspect), Some(Auto), true)
    {
      ClearedThenSuspectAt(startsAt, endsAt, t);
    }
    ClearedThenSuspectAt(startsAt, endsAt, startsAt + 1);
    assert intervals[0] in intervals && OverlapsKind(intervals, ManualClear, startsAt, endsAt);
    ClearedRangeIsNormal(startsAt, endsAt, intervals);
  }
}
