/** The time-weighted average by a boundary sweep
    (_compute_effective_average_stats in rust/src/segments.rs). */
module SegmentSweep {
  import opened Options
  import opened SegmentTypes
  import opened SegmentResolve

  /** A timestamp and the player count reported then, if any. */
  type Pair = (Time, Option<int>)

  predicate OrderedPairs(pairs: seq<Pair>) {
    forall i, j :: 0 <= i < j < |pairs| ==> pairs[i].0 <= pairs[j].0
  }

  /** The count in force at an instant: that of the last pair at or before it. */
  function OnlineAt(pairs: seq<Pair>, t: Time): Option<int> {
    var last := LastAt(pairs, (p: Pair) => p.0, t);
    if last.None? then None else last.value.1
  }

  // ---- the simple form: instant by instant ----

  datatype Totals = Totals(weighted: int, trusted: int) {
    function Plus(other: Totals): Totals {
      Totals(weighted + other.weighted, trusted + other.trusted)
    }
  }

  predicate Trusted(pairs: seq<Pair>, intervals: seq<Interval>, t: Time) {
    !ResolveAt(t, intervals).excludeFromScore && OnlineAt(pairs, t).Some?
  }

  /** What `delta` seconds with one state and one count contribute. */
  function Added(excluded: bool, online: Option<int>, delta: int): Totals {
    if !excluded && online.Some? then Totals(online.value * delta, delta) else Totals(0, 0)
  }

  lemma AddedScales(excluded: bool, online: Option<int>, delta: int)
    ensures Added(excluded, online, delta)
         == Totals(Added(excluded, online, 1).weighted * delta, Added(excluded, online, 1).trusted * delta)
  {
  }

  /** What one instant contributes: its count and one second, when it is trusted. */
  function Instant(pairs: seq<Pair>, intervals: seq<Interval>): Time -> Totals {
    (t: Time) => Added(ResolveAt(t, intervals).excludeFromScore, OnlineAt(pairs, t), 1)
  }

  function Sum(f: Time -> Totals, lo: Time, hi: Time): Totals {
    if hi <= lo then Totals(0, 0) else Sum(f, lo, hi - 1).Plus(f(hi - 1))
  }

  lemma SumSnoc(f: Time -> Totals, lo: Time, hi: Time)
    requires lo < hi
    ensures Sum(f, lo, hi) == Sum(f, lo, hi - 1).Plus(f(hi - 1))
  {
  }

  lemma {:induction false} SumSplit(f: Time -> Totals, lo: Time, mid: Time, hi: Time)
    requires lo <= mid <= hi
    ensures Sum(f, lo, hi) == Sum(f, lo, mid).Plus(Sum(f, mid, hi))
    decreases hi - mid
  {
    if mid == hi {
      assert Sum(f, mid, hi) == Totals(0, 0);
    } else {
      SumSplit(f, lo, mid, hi - 1);
      SumSnoc(f, lo, hi);
      SumSnoc(f, mid, hi);
    }
  }

  lemma {:induction false} SumConstant(f: Time -> Totals, lo: Time, hi: Time, each: Totals)
    requires lo <= hi && forall t: Time :: lo <= t < hi ==> f(t) == each
    ensures Sum(f, lo, hi) == Totals(each.weighted * (hi - lo), each.trusted * (hi - lo))
    decreases hi
  {
    if lo < hi {
      SumConstant(f, lo, hi - 1, each);
      assert each.weighted * (hi - lo) == each.weighted * (hi - 1 - lo) + each.weighted;
      assert each.trusted * (hi - lo) == each.trusted * (hi - 1 - lo) + each.trusted;
    }
  }

  lemma SumOfEqual(f: Time -> Totals, lo: Time, hi: Time, excluded: bool, online: Option<int>)
    requires lo <= hi && forall t: Time :: lo <= t < hi ==> f(t) == Added(excluded, online, 1)
    ensures Sum(f, lo, hi) == Added(excluded, online, hi - lo)
  {
    SumConstant(f, lo, hi, Added(excluded, online, 1));
    AddedScales(excluded, online, hi - lo);
  }

  /** The sums over every instant of [lo, hi): the trusted counts, and one for each trusted instant. */
  function InstantTotals(pairs: seq<Pair>, intervals: seq<Interval>, lo: Time, hi: Time): Totals {
    Sum(Instant(pairs, intervals), lo, hi)
  }

  function CountSeconds(p: Time -> bool, lo: Time, hi: Time): nat {
    if hi <= lo then 0 else CountSeconds(p, lo, hi - 1) + if p(hi - 1) then 1 else 0
  }

  function Excluded(intervals: seq<Interval>): Time -> bool {
    (t: Time) => ResolveAt(t, intervals).excludeFromScore
  }

  /** Not excluded, but no count is known. */
  function Unknown(pairs: seq<Pair>, intervals: seq<Interval>): Time -> bool {
    (t: Time) => !ResolveAt(t, intervals).excludeFromScore && OnlineAt(pairs, t).None?
  }

  /** Every interval touches the window. */
  predicate AllReach(intervals: seq<Interval>, windowStart: Time, windowEnd: Time) {
    forall iv :: iv in intervals ==> iv.startsAt <= windowEnd && windowStart <= iv.endsAt
  }

  // ---- the fast form: slice by slice between boundaries ----

  predicate StrictlySorted(bs: seq<Time>) {
    forall i, j :: 0 <= i < j < |bs| ==> bs[i] < bs[j]
  }

  /** Insertion into an ordered set without duplicates. */
  function Insert(bs: seq<Time>, b: Time): seq<Time> {
    if bs == [] then [b]
    else if b < bs[0] then [b] + bs
    else if b == bs[0] then bs
    else [bs[0]] + Insert(bs[1..], b)
  }

  lemma {:induction false} InsertCorrect(bs: seq<Time>, b: Time)
    requires StrictlySorted(bs)
    ensures StrictlySorted(Insert(bs, b))
    ensures forall x :: x in Insert(bs, b) <==> x in bs || x == b
  {
    if bs != [] {
      assert bs == [bs[0]] + bs[1..];
      if b > bs[0] {
        InsertCorrect(bs[1..], b);
        var rest := Insert(bs[1..], b);
        forall j | 0 <= j < |rest| ensures bs[0] < rest[j] {
          assert rest[j] in rest;
        }
      }
    }
  }

  function AddPairs(bs: seq<Time>, pairs: seq<Pair>, windowStart: Time, windowEnd: Time): seq<Time> {
    if pairs == [] then bs
    else
      var n := |pairs| - 1;
      var rest := AddPairs(bs, pairs[..n], windowStart, windowEnd);
      if windowStart < pairs[n].0 <= windowEnd then Insert(rest, pairs[n].0) else rest
  }

  function AddIntervals(bs: seq<Time>, intervals: seq<Interval>, windowStart: Time, windowEnd: Time): seq<Time> {
    if intervals == [] then bs
    else
      var n := |intervals| - 1;
      var rest := AddIntervals(bs, intervals[..n], windowStart, windowEnd);
      var withStart := if intervals[n].startsAt > windowStart then Insert(rest, intervals[n].startsAt) else rest;
      if intervals[n].endsAt < windowEnd then Insert(withStart, intervals[n].endsAt) else withStart
  }

  /** The instants at which the sweep stops. */
  function Boundaries(pairs: seq<Pair>, windowStart: Time, windowEnd: Time, intervals: seq<Interval>): seq<Time> {
    AddIntervals(AddPairs(Insert([windowStart], windowEnd), pairs, windowStart, windowEnd),
                 intervals, windowStart, windowEnd)
  }

  predicate PairBoundary(pairs: seq<Pair>, windowStart: Time, windowEnd: Time, b: Time) {
    windowStart < b <= windowEnd && exists p :: p in pairs && p.0 == b
  }

  predicate EdgeOf(iv: Interval, windowStart: Time, windowEnd: Time, b: Time) {
    (iv.startsAt > windowStart && b == iv.startsAt) || (iv.endsAt < windowEnd && b == iv.endsAt)
  }

  predicate IntervalBoundary(intervals: seq<Interval>, windowStart: Time, windowEnd: Time, b: Time) {
    exists iv :: iv in intervals && EdgeOf(iv, windowStart, windowEnd, b)
  }

  lemma {:induction false} AddPairsCorrect(bs: seq<Time>, pairs: seq<Pair>, windowStart: Time, windowEnd: Time)
    requires StrictlySorted(bs)
    ensures StrictlySorted(AddPairs(bs, pairs, windowStart, windowEnd))
    ensures forall b :: b in AddPairs(bs, pairs, windowStart, windowEnd) <==>
      b in bs || PairBoundary(pairs, windowStart, windowEnd, b)
  {
    if pairs != [] {
      var n := |pairs| - 1;
      AddPairsCorrect(bs, pairs[..n], windowStart, windowEnd);
      InsertCorrect(AddPairs(bs, pairs[..n], windowStart, windowEnd), pairs[n].0);
      assert pairs == pairs[..n] + [pairs[n]];
      assert forall p :: p in pairs <==> p in pairs[..n] || p == pairs[n];
    }
  }

  lemma {:induction false} AddIntervalsCorrect(bs: seq<Time>, intervals: seq<Interval>,
                                               windowStart: Time, windowEnd: Time)
    requires StrictlySorted(bs)
    ensures StrictlySorted(AddIntervals(bs, intervals, windowStart, windowEnd))
    ensures forall b :: b in AddIntervals(bs, intervals, windowStart, windowEnd) <==>
      b in bs || IntervalBoundary(intervals, windowStart, windowEnd, b)
  {
    if intervals != [] {
      var n := |intervals| - 1;
      var iv := intervals[n];
      AddIntervalsCorrect(bs, intervals[..n], windowStart, windowEnd);
      var rest := AddIntervals(bs, intervals[..n], windowStart, windowEnd);
      InsertCorrect(rest, iv.startsAt);
      var withStart := if iv.startsAt > windowStart then Insert(rest, iv.startsAt) else rest;
      InsertCorrect(withStart, iv.endsAt);
      forall b ensures IntervalBoundary(intervals, windowStart, windowEnd, b) <==>
        IntervalBoundary(intervals[..n], windowStart, windowEnd, b) || EdgeOf(iv, windowStart, windowEnd, b)
      {
        assert intervals == intervals[..n] + [iv];
        assert forall x :: x in intervals <==> x in intervals[..n] || x == iv;
      }
    }
  }

  /** The two ends of the window and every edge in it, in order. */
  ghost predicate AreBoundaries(pairs: seq<Pair>, windowStart: Time, windowEnd: Time, intervals: seq<Interval>,
                                bs: seq<Time>)
  {
    && StrictlySorted(bs)
    && forall b :: b in bs <==>
         || b == windowStart || b == windowEnd
         || PairBoundary(pairs, windowStart, windowEnd, b)
         || IntervalBoundary(intervals, windowStart, windowEnd, b)
  }

  lemma BoundariesCorrect(pairs: seq<Pair>, windowStart: Time, windowEnd: Time, intervals: seq<Interval>)
    requires windowStart < windowEnd
    ensures AreBoundaries(pairs, windowStart, windowEnd, intervals,
                          Boundaries(pairs, windowStart, windowEnd, intervals))
    ensures |Boundaries(pairs, windowStart, windowEnd, intervals)| >= 2
  {
    InsertCorrect([windowStart], windowEnd);
    var bs := Insert([windowStart], windowEnd);
    AddPairsCorrect(bs, pairs, windowStart, windowEnd);
    AddIntervalsCorrect(AddPairs(bs, pairs, windowStart, windowEnd), intervals, windowStart, windowEnd);
    var all := Boundaries(pairs, windowStart, windowEnd, intervals);
    assert windowStart in all && windowEnd in all;
  }

  /** The count the sweep uses at a boundary: no pair outside the window changes it. */
  function SweepOnline(pairs: seq<Pair>, windowStart: Time, windowEnd: Time, b: Time): Option<int> {
    OnlineAt(pairs, if b < windowStart then windowStart else if b > windowEnd then windowEnd else b)
  }

  predicate TrustedSlice(pairs: seq<Pair>, windowStart: Time, windowEnd: Time, intervals: seq<Interval>, b: Time) {
    !ResolveAt(b, intervals).excludeFromScore && SweepOnline(pairs, windowStart, windowEnd, b).Some?
  }

  /** What the slice between two boundaries contributes. */
  function Slice(pairs: seq<Pair>, windowStart: Time, windowEnd: Time, intervals: seq<Interval>)
    : (Time, Time) -> Totals
  {
    (b: Time, next: Time) =>
      Added(ResolveAt(b, intervals).excludeFromScore, SweepOnline(pairs, windowStart, windowEnd, b), next - b)
  }

  /** The sum over neighbouring boundaries, from index lo to index hi. */
  function SumSlices(g: (Time, Time) -> Totals, bs: seq<Time>, lo: nat, hi: int): Totals
    requires hi < |bs|
  {
    if hi <= lo then Totals(0, 0) else SumSlices(g, bs, lo, hi - 1).Plus(g(bs[hi - 1], bs[hi]))
  }

  lemma {:induction false} SumSlicesSplit(g: (Time, Time) -> Totals, bs: seq<Time>, lo: nat, mid: nat, hi: nat)
    requires lo <= mid <= hi < |bs|
    ensures SumSlices(g, bs, lo, hi) == SumSlices(g, bs, lo, mid).Plus(SumSlices(g, bs, mid, hi))
    decreases hi
  {
    if mid < hi {
      SumSlicesSplit(g, bs, lo, mid, hi - 1);
    }
  }

  lemma SumSlicesSplitTwice(g: (Time, Time) -> Totals, bs: seq<Time>, p: nat, q: nat)
    requires p <= q < |bs|
    ensures SumSlices(g, bs, 0, |bs| - 1)
         == SumSlices(g, bs, 0, p).Plus(SumSlices(g, bs, p, q)).Plus(SumSlices(g, bs, q, |bs| - 1))
  {
    SumSlicesSplit(g, bs, 0, q, |bs| - 1);
    SumSlicesSplit(g, bs, 0, p, q);
  }

  function SweepTotals(pairs: seq<Pair>, windowStart: Time, windowEnd: Time, intervals: seq<Interval>): Totals {
    var bs := Boundaries(pairs, windowStart, windowEnd, intervals);
    SumSlices(Slice(pairs, windowStart, windowEnd, intervals), bs, 0, |bs| - 1)
  }

  // ---- the count in force along the sweep ----

  lemma {:induction false} OnlineUnchanged(pairs: seq<Pair>, a: Time, b: Time)
    requires a <= b && forall p :: p in pairs ==> !(a < p.0 <= b)
    ensures OnlineAt(pairs, a) == OnlineAt(pairs, b)
  {
    if pairs != [] {
      assert pairs[|pairs| - 1] in pairs;
      OnlineUnchanged(pairs[..|pairs| - 1], a, b);
    }
  }

  /** The counts reported exactly at `b`, in order. */
  function ReportedAt(pairs: seq<Pair>, b: Time): seq<Option<int>> {
    if pairs == [] then []
    else
      var n := |pairs| - 1;
      ReportedAt(pairs[..n], b) + if pairs[n].0 == b then [pairs[n].1] else []
  }

  lemma {:induction false} ReportedElsewhere(pairs: seq<Pair>, b: Time)
    ensures ReportedAt(pairs, b) == [] <==> forall p :: p in pairs ==> p.0 != b
  {
    if pairs != [] {
      var n := |pairs| - 1;
      ReportedElsewhere(pairs[..n], b);
      assert pairs == pairs[..n] + [pairs[n]];
      assert pairs[n] in pairs;
    }
  }

  lemma {:induction false} OnlineReported(pairs: seq<Pair>, b: Time)
    requires OrderedPairs(pairs) && ReportedAt(pairs, b) != []
    ensures OnlineAt(pairs, b) == ReportedAt(pairs, b)[|ReportedAt(pairs, b)| - 1]
  {
    var n := |pairs| - 1;
    if pairs[n].0 != b {
      ReportedElsewhere(pairs[..n], b);
      OnlineReported(pairs[..n], b);
    }
  }

  /** Moving from one boundary to the next changes the count to the last one reported there. */
  lemma SweepOnlineNext(pairs: seq<Pair>, windowStart: Time, windowEnd: Time, b: Time, next: Time)
    requires OrderedPairs(pairs) && windowStart < windowEnd && b < next
    requires forall p :: p in pairs && windowStart < p.0 <= windowEnd ==> !(b < p.0 < next)
    ensures SweepOnline(pairs, windowStart, windowEnd, next)
         == if windowStart < next <= windowEnd && ReportedAt(pairs, next) != []
            then ReportedAt(pairs, next)[|ReportedAt(pairs, next)| - 1]
            else SweepOnline(pairs, windowStart, windowEnd, b)
  {
    if windowStart < next <= windowEnd && ReportedAt(pairs, next) != [] {
      OnlineReported(pairs, next);
    } else {
      ReportedElsewhere(pairs, next);
      var lo := if b < windowStart then windowStart else if b > windowEnd then windowEnd else b;
      var hi := if next < windowStart then windowStart else if next > windowEnd then windowEnd else next;
      OnlineUnchanged(pairs, lo, hi);
    }
  }

  // ---- slices inside the window are exact ----

  lemma {:induction false} FilterAgree(intervals: seq<Interval>, p: Interval -> bool, q: Interval -> bool)
    requires forall iv :: iv in intervals ==> p(iv) == q(iv)
    ensures Filter(intervals, p) == Filter(intervals, q)
  {
    if intervals != [] {
      assert intervals[0] in intervals;
      FilterAgree(intervals[1..], p, q);
    }
  }

  /** No boundary of the sweep lies strictly between the two. */
  ghost predicate Adjacent(pairs: seq<Pair>, windowStart: Time, windowEnd: Time, intervals: seq<Interval>,
                           a: Time, b: Time)
  {
    && windowStart <= a < b <= windowEnd
    && forall t: Time :: a < t < b ==>
         && !PairBoundary(pairs, windowStart, windowEnd, t)
         && !IntervalBoundary(intervals, windowStart, windowEnd, t)
  }

  /** Between adjacent boundaries neither the resolved state nor the count changes. */
  lemma SliceIsConstant(pairs: seq<Pair>, windowStart: Time, windowEnd: Time, intervals: seq<Interval>,
                        a: Time, b: Time, t: Time)
    requires Adjacent(pairs, windowStart, windowEnd, intervals, a, b) && a <= t < b
    ensures ResolveAt(t, intervals) == ResolveAt(a, intervals)
    ensures OnlineAt(pairs, t) == OnlineAt(pairs, a)
  {
    forall iv | iv in intervals ensures Covers(iv, t) == Covers(iv, a) {
      assert iv.startsAt <= windowStart || IntervalBoundary(intervals, windowStart, windowEnd, iv.startsAt);
      assert windowEnd <= iv.endsAt || IntervalBoundary(intervals, windowStart, windowEnd, iv.endsAt);
    }
    FilterAgree(intervals, iv => Covers(iv, t), iv => Covers(iv, a));
    forall p | p in pairs ensures !(a < p.0 <= t) {
      assert PairBoundary(pairs, windowStart, windowEnd, p.0) <==> windowStart < p.0 <= windowEnd;
    }
    OnlineUnchanged(pairs, a, t);
  }

  lemma InstantInSlice(pairs: seq<Pair>, windowStart: Time, windowEnd: Time, intervals: seq<Interval>,
                       a: Time, b: Time, t: Time)
    requires Adjacent(pairs, windowStart, windowEnd, intervals, a, b) && a <= t < b
    ensures Instant(pairs, intervals)(t)
         == Added(ResolveAt(a, intervals).excludeFromScore, OnlineAt(pairs, a), 1)
  {
    SliceIsConstant(pairs, windowStart, windowEnd, intervals, a, b, t);
  }

  lemma SliceAt(pairs: seq<Pair>, windowStart: Time, windowEnd: Time, intervals: seq<Interval>, a: Time, b: Time)
    requires windowStart <= a < b <= windowEnd
    ensures Slice(pairs, windowStart, windowEnd, intervals)(a, b)
         == Added(ResolveAt(a, intervals).excludeFromScore, OnlineAt(pairs, a), b - a)
  {
  }

  lemma SliceIsExact(pairs: seq<Pair>, windowStart: Time, windowEnd: Time, intervals: seq<Interval>,
                     a: Time, b: Time)
    requires Adjacent(pairs, windowStart, windowEnd, intervals, a, b)
    ensures InstantTotals(pairs, intervals, a, b) == Slice(pairs, windowStart, windowEnd, intervals)(a, b)
  {
    var f := Instant(pairs, intervals);
    var excluded, online := ResolveAt(a, intervals).excludeFromScore, OnlineAt(pairs, a);
    forall t: Time | a <= t < b ensures f(t) == Added(excluded, online, 1) {
      InstantInSlice(pairs, windowStart, windowEnd, intervals, a, b, t);
    }
    SumOfEqual(f, a, b, excluded, online);
    SliceAt(pairs, windowStart, windowEnd, intervals, a, b);
  }

  /** From index lo to index hi the boundaries are in the window, nothing left out in between. */
  ghost predicate Through(pairs: seq<Pair>, windowStart: Time, windowEnd: Time, intervals: seq<Interval>,
                          bs: seq<Time>, lo: nat, hi: nat)
  {
    && lo <= hi < |bs|
    && (forall i :: lo < i <= hi ==> Adjacent(pairs, windowStart, windowEnd, intervals, bs[i - 1], bs[i]))
  }

  lemma {:induction false} SlicesAreExact(pairs: seq<Pair>, windowStart: Time, windowEnd: Time,
                                          intervals: seq<Interval>, bs: seq<Time>, lo: nat, hi: nat)
    requires Through(pairs, windowStart, windowEnd, intervals, bs, lo, hi)
    ensures bs[lo] <= bs[hi]
    ensures SumSlices(Slice(pairs, windowStart, windowEnd, intervals), bs, lo, hi)
         == InstantTotals(pairs, intervals, bs[lo], bs[hi])
    decreases hi
  {
    if lo < hi {
      SlicesAreExact(pairs, windowStart, windowEnd, intervals, bs, lo, hi - 1);
      assert Adjacent(pairs, windowStart, windowEnd, intervals, bs[hi - 1], bs[hi]);
      SliceIsExact(pairs, windowStart, windowEnd, intervals, bs[hi - 1], bs[hi]);
      SumSplit(Instant(pairs, intervals), bs[lo], bs[hi - 1], bs[hi]);
    }
  }

  // ---- the whole sweep ----

  /** No slice from index lo to index hi starts at a trusted boundary. */
  ghost predicate NoneTrusted(trusted: Time -> bool, bs: seq<Time>, lo: nat, hi: nat)
    requires hi < |bs|
  {
    forall i :: lo <= i < hi ==> !trusted(bs[i])
  }

  lemma NoneTrustedSnoc(trusted: Time -> bool, bs: seq<Time>, lo: nat, hi: nat)
    requires lo < hi < |bs|
    ensures NoneTrusted(trusted, bs, lo, hi) <==> NoneTrusted(trusted, bs, lo, hi - 1) && !trusted(bs[hi - 1])
  {
  }

  /** A slice counts its length when its start is trusted and nothing otherwise. */
  predicate SliceCounts(g: (Time, Time) -> Totals, trusted: Time -> bool, a: Time, b: Time) {
    if trusted(a) then g(a, b).trusted == b - a else g(a, b) == Totals(0, 0)
  }

  ghost predicate CountsTrusted(g: (Time, Time) -> Totals, trusted: Time -> bool) {
    forall a: Time, b: Time :: a < b ==> SliceCounts(g, trusted, a, b)
  }

  /** Nothing, if nothing is trusted, and some time otherwise. */
  predicate Vanishes(sum: Totals, nothing: bool) {
    if nothing then sum == Totals(0, 0) else sum.trusted > 0
  }

  lemma VanishesPlus(rest: Totals, last: Totals, a: bool, b: bool)
    requires Vanishes(rest, a) && Vanishes(last, b)
    ensures Vanishes(rest.Plus(last), a && b)
  {
  }

  /** Slices of positive length add nothing exactly when none of them is trusted. */
  lemma {:induction false} SlicesVanish(g: (Time, Time) -> Totals, trusted: Time -> bool, bs: seq<Time>, lo: nat, hi: nat)
    requires StrictlySorted(bs) && CountsTrusted(g, trusted) && lo <= hi < |bs|
    ensures Vanishes(SumSlices(g, bs, lo, hi), NoneTrusted(trusted, bs, lo, hi))
    decreases hi
  {
    if lo < hi {
      SlicesVanish(g, trusted, bs, lo, hi - 1);
      NoneTrustedSnoc(trusted, bs, lo, hi);
      var rest, last := SumSlices(g, bs, lo, hi - 1), g(bs[hi - 1], bs[hi]);
      assert bs[hi - 1] < bs[hi] && SliceCounts(g, trusted, bs[hi - 1], bs[hi]);
      VanishesPlus(rest, last, NoneTrusted(trusted, bs, lo, hi - 1), !trusted(bs[hi - 1]));
    }
  }

  function TrustedStart(pairs: seq<Pair>, windowStart: Time, windowEnd: Time, intervals: seq<Interval>)
    : Time -> bool
  {
    (b: Time) => TrustedSlice(pairs, windowStart, windowEnd, intervals, b)
  }

  /** A slice that starts outside the window is trusted. */
  ghost predicate TrustsBeyond(trusted: Time -> bool, bs: seq<Time>, windowStart: Time, windowEnd: Time) {
    exists i :: 0 <= i < |bs| - 1 && !(windowStart <= bs[i] < windowEnd) && trusted(bs[i])
  }

  /** Where a slice beyond the window's end can start. */
  predicate RightEdge(intervals: seq<Interval>, windowEnd: Time, b: Time) {
    b == windowEnd || (b > windowEnd && exists iv :: iv in intervals && iv.startsAt == b)
  }

  /** The sweep counts time before the window: some interval ends before it, is followed by a state
      that is not excluded, and a count is known at the window's start. */
  ghost predicate TrustsBefore(pairs: seq<Pair>, windowStart: Time, intervals: seq<Interval>) {
    && OnlineAt(pairs, windowStart).Some?
    && exists iv :: iv in intervals && iv.endsAt < windowStart && !ResolveAt(iv.endsAt, intervals).excludeFromScore
  }

  /** The sweep counts time after the window: some interval starts beyond it, the state at the
      window's end or at an earlier start beyond it is not excluded, and a count is known at the end. */
  ghost predicate TrustsAfter(pairs: seq<Pair>, windowEnd: Time, intervals: seq<Interval>) {
    && OnlineAt(pairs, windowEnd).Some?
    && exists iv, b: Time :: iv in intervals && RightEdge(intervals, windowEnd, b) && b < iv.startsAt
                       && !ResolveAt(b, intervals).excludeFromScore
  }

  ghost predicate TrustsOutside(pairs: seq<Pair>, windowStart: Time, windowEnd: Time, intervals: seq<Interval>) {
    TrustsBefore(pairs, windowStart, intervals) || TrustsAfter(pairs, windowEnd, intervals)
  }

  lemma BoundaryBeforeAnother(bs: seq<Time>, a: Time, b: Time)
    requires StrictlySorted(bs) && a in bs && b in bs && a < b
    ensures exists i :: 0 <= i < |bs| - 1 && bs[i] == a
  {
    var i :| 0 <= i < |bs| && bs[i] == a;
    var j :| 0 <= j < |bs| && bs[j] == b;
  }

  lemma BeyondIsOutside(pairs: seq<Pair>, windowStart: Time, windowEnd: Time, intervals: seq<Interval>, bs: seq<Time>,
                        i: nat)
    requires windowStart < windowEnd && AreBoundaries(pairs, windowStart, windowEnd, intervals, bs)
    requires i < |bs| - 1 && !(windowStart <= bs[i] < windowEnd)
    requires TrustedStart(pairs, windowStart, windowEnd, intervals)(bs[i])
    ensures TrustsOutside(pairs, windowStart, windowEnd, intervals)
  {
    var b, next := bs[i], bs[i + 1];
    assert b in bs && next in bs && b < next;
    if b < windowStart {
      var iv :| iv in intervals && EdgeOf(iv, windowStart, windowEnd, b);
      assert TrustsBefore(pairs, windowStart, intervals);
    } else {
      var iv :| iv in intervals && EdgeOf(iv, windowStart, windowEnd, next);
      assert RightEdge(intervals, windowEnd, b);
      assert TrustsAfter(pairs, windowEnd, intervals);
    }
  }

  lemma BeforeIsBeyond(pairs: seq<Pair>, windowStart: Time, windowEnd: Time, intervals: seq<Interval>, bs: seq<Time>)
    requires windowStart < windowEnd && AreBoundaries(pairs, windowStart, windowEnd, intervals, bs)
    requires TrustsBefore(pairs, windowStart, intervals)
    ensures TrustsBeyond(TrustedStart(pairs, windowStart, windowEnd, intervals), bs, windowStart, windowEnd)
  {
    var iv :| iv in intervals && iv.endsAt < windowStart && !ResolveAt(iv.endsAt, intervals).excludeFromScore;
    assert EdgeOf(iv, windowStart, windowEnd, iv.endsAt);
    BoundaryBeforeAnother(bs, iv.endsAt, windowStart);
    var i :| 0 <= i < |bs| - 1 && bs[i] == iv.endsAt;
    assert TrustedStart(pairs, windowStart, windowEnd, intervals)(bs[i]);
  }

  lemma AfterIsBeyond(pairs: seq<Pair>, windowStart: Time, windowEnd: Time, intervals: seq<Interval>, bs: seq<Time>)
    requires windowStart < windowEnd && AreBoundaries(pairs, windowStart, windowEnd, intervals, bs)
    requires TrustsAfter(pairs, windowEnd, intervals)
    ensures TrustsBeyond(TrustedStart(pairs, windowStart, windowEnd, intervals), bs, windowStart, windowEnd)
  {
    var iv, b: Time :| iv in intervals && RightEdge(intervals, windowEnd, b) && b < iv.startsAt
                 && !ResolveAt(b, intervals).excludeFromScore;
    assert EdgeOf(iv, windowStart, windowEnd, iv.startsAt);
    if b > windowEnd {
      var other :| other in intervals && other.startsAt == b;
      assert EdgeOf(other, windowStart, windowEnd, b);
    }
    BoundaryBeforeAnother(bs, b, iv.startsAt);
    var i :| 0 <= i < |bs| - 1 && bs[i] == b;
    assert TrustedStart(pairs, windowStart, windowEnd, intervals)(bs[i]);
  }

  /** A trusted slice starts at a boundary outside the window exactly when the input says so. */
  lemma OutsideMeans(pairs: seq<Pair>, windowStart: Time, windowEnd: Time, intervals: seq<Interval>, bs: seq<Time>)
    requires windowStart < windowEnd && AreBoundaries(pairs, windowStart, windowEnd, intervals, bs)
    ensures TrustsBeyond(TrustedStart(pairs, windowStart, windowEnd, intervals), bs, windowStart, windowEnd)
       <==> TrustsOutside(pairs, windowStart, windowEnd, intervals)
  {
    var trusted := TrustedStart(pairs, windowStart, windowEnd, intervals);
    if TrustsBeyond(trusted, bs, windowStart, windowEnd) {
      var i :| 0 <= i < |bs| - 1 && !(windowStart <= bs[i] < windowEnd) && trusted(bs[i]);
      BeyondIsOutside(pairs, windowStart, windowEnd, intervals, bs, i);
    }
    if TrustsBefore(pairs, windowStart, intervals) {
      BeforeIsBeyond(pairs, windowStart, windowEnd, intervals, bs);
    }
    if TrustsAfter(pairs, windowEnd, intervals) {
      AfterIsBeyond(pairs, windowStart, windowEnd, intervals, bs);
    }
  }

  lemma SkipsBetween(bs: seq<Time>, i: nat, t: Time)
    requires StrictlySorted(bs) && i + 1 < |bs| && bs[i] < t < bs[i + 1]
    ensures t !in bs
  {
    forall k | 0 <= k < |bs| ensures bs[k] != t {
      assert k <= i || k >= i + 1;
    }
  }

  lemma WindowRunsThrough(pairs: seq<Pair>, windowStart: Time, windowEnd: Time, intervals: seq<Interval>,
                          bs: seq<Time>, p: nat, q: nat)
    requires AreBoundaries(pairs, windowStart, windowEnd, intervals, bs)
    requires p <= q < |bs| && bs[p] == windowStart && bs[q] == windowEnd
    ensures Through(pairs, windowStart, windowEnd, intervals, bs, p, q)
  {
    forall i | p < i <= q ensures Adjacent(pairs, windowStart, windowEnd, intervals, bs[i - 1], bs[i]) {
      forall t: Time | bs[i - 1] < t < bs[i] ensures t !in bs {
        SkipsBetween(bs, i - 1, t);
      }
    }
  }

  /** The sweep is the window's own slices plus those before and after it. */
  lemma SweepSplits(pairs: seq<Pair>, windowStart: Time, windowEnd: Time, intervals: seq<Interval>,
                    bs: seq<Time>, p: nat, q: nat)
    requires Through(pairs, windowStart, windowEnd, intervals, bs, p, q)
    ensures var g := Slice(pairs, windowStart, windowEnd, intervals);
      SumSlices(g, bs, 0, |bs| - 1)
      == SumSlices(g, bs, 0, p).Plus(InstantTotals(pairs, intervals, bs[p], bs[q])).Plus(SumSlices(g, bs, q, |bs| - 1))
  {
    SumSlicesSplitTwice(Slice(pairs, windowStart, windowEnd, intervals), bs, p, q);
    SlicesAreExact(pairs, windowStart, windowEnd, intervals, bs, p, q);
  }

  /** The slices before the window's start and from its end on are the outside ones. */
  lemma OutsideSlices(trusted: Time -> bool, bs: seq<Time>, windowStart: Time, windowEnd: Time, p: nat, q: nat)
    requires StrictlySorted(bs) && p < q < |bs| && bs[p] == windowStart && bs[q] == windowEnd
    ensures TrustsBeyond(trusted, bs, windowStart, windowEnd) <==>
            !NoneTrusted(trusted, bs, 0, p) || !NoneTrusted(trusted, bs, q, |bs| - 1)
  {
    if TrustsBeyond(trusted, bs, windowStart, windowEnd) {
      var i :| 0 <= i < |bs| - 1 && !(windowStart <= bs[i] < windowEnd) && trusted(bs[i]);
      assert i < p || q <= i;
    }
  }

  lemma SliceCountsTrusted(pairs: seq<Pair>, windowStart: Time, windowEnd: Time, intervals: seq<Interval>)
    ensures CountsTrusted(Slice(pairs, windowStart, windowEnd, intervals),
                          TrustedStart(pairs, windowStart, windowEnd, intervals))
  {
    var g, trusted := Slice(pairs, windowStart, windowEnd, intervals),
                      TrustedStart(pairs, windowStart, windowEnd, intervals);
    forall a: Time, b: Time | a < b
      ensures SliceCounts(g, trusted, a, b)
    {
      var online := SweepOnline(pairs, windowStart, windowEnd, a);
      assert g(a, b) == Added(ResolveAt(a, intervals).excludeFromScore, online, b - a);
      assert trusted(a) <==> !ResolveAt(a, intervals).excludeFromScore && online.Some?;
    }
  }

  lemma AddsNothing(before: Totals, inside: Totals, after: Totals, a: bool, b: bool)
    requires Vanishes(before, a) && Vanishes(after, b)
    ensures before.Plus(inside).Plus(after) == inside <==> a && b
  {
  }

  /** What lies outside adds nothing exactly when no slice outside is trusted. */
  lemma OutsideAddsNothing(trusted: Time -> bool, bs: seq<Time>, p: nat, q: nat,
                           before: Totals, inside: Totals, after: Totals)
    requires StrictlySorted(bs) && p < q < |bs|
    requires Vanishes(before, NoneTrusted(trusted, bs, 0, p)) && Vanishes(after, NoneTrusted(trusted, bs, q, |bs| - 1))
    ensures before.Plus(inside).Plus(after) == inside <==> !TrustsBeyond(trusted, bs, bs[p], bs[q])
  {
    OutsideSlices(trusted, bs, bs[p], bs[q], p, q);
    AddsNothing(before, inside, after, NoneTrusted(trusted, bs, 0, p), NoneTrusted(trusted, bs, q, |bs| - 1));
  }

  lemma SlicesAreExactUnlessOutside(pairs: seq<Pair>, windowStart: Time, windowEnd: Time,
                                    intervals: seq<Interval>, bs: seq<Time>, p: nat, q: nat)
    requires StrictlySorted(bs) && p < q < |bs| && Through(pairs, windowStart, windowEnd, intervals, bs, p, q)
    ensures SumSlices(Slice(pairs, windowStart, windowEnd, intervals), bs, 0, |bs| - 1)
              == InstantTotals(pairs, intervals, bs[p], bs[q])
       <==> !TrustsBeyond(TrustedStart(pairs, windowStart, windowEnd, intervals), bs, bs[p], bs[q])
  {
    var g := Slice(pairs, windowStart, windowEnd, intervals);
    var trusted := TrustedStart(pairs, windowStart, windowEnd, intervals);
    SliceCountsTrusted(pairs, windowStart, windowEnd, intervals);
    SweepSplits(pairs, windowStart, windowEnd, intervals, bs, p, q);
    SlicesVanish(g, trusted, bs, 0, p);
    SlicesVanish(g, trusted, bs, q, |bs| - 1);
    OutsideAddsNothing(trusted, bs, p, q, SumSlices(g, bs, 0, p),
                       InstantTotals(pairs, intervals, bs[p], bs[q]), SumSlices(g, bs, q, |bs| - 1));
  }

  /** Where the window lies among the boundaries, and what it takes to trust a slice outside it. */
  lemma WindowInBoundaries(pairs: seq<Pair>, windowStart: Time, windowEnd: Time, intervals: seq<Interval>)
    returns (p: nat, q: nat)
    requires windowStart < windowEnd
    ensures var bs := Boundaries(pairs, windowStart, windowEnd, intervals);
      && StrictlySorted(bs) && p < q < |bs| && bs[p] == windowStart && bs[q] == windowEnd
      && Through(pairs, windowStart, windowEnd, intervals, bs, p, q)
      && (TrustsBeyond(TrustedStart(pairs, windowStart, windowEnd, intervals), bs, windowStart, windowEnd)
          <==> TrustsOutside(pairs, windowStart, windowEnd, intervals))
  {
    var bs := Boundaries(pairs, windowStart, windowEnd, intervals);
    BoundariesCorrect(pairs, windowStart, windowEnd, intervals);
    assert windowStart in bs && windowEnd in bs;
    p :| 0 <= p < |bs| && bs[p] == windowStart;
    q :| 0 <= q < |bs| && bs[q] == windowEnd;
    WindowRunsThrough(pairs, windowStart, windowEnd, intervals, bs, p, q);
    OutsideMeans(pairs, windowStart, windowEnd, intervals, bs);
  }

  /** The sweep equals the sums over every instant of the window exactly when it trusts no time
      outside the window. */
  lemma SweepIsExact(pairs: seq<Pair>, windowStart: Time, windowEnd: Time, intervals: seq<Interval>)
    requires windowStart < windowEnd
    ensures SweepTotals(pairs, windowStart, windowEnd, intervals)
              == InstantTotals(pairs, intervals, windowStart, windowEnd)
       <==> !TrustsOutside(pairs, windowStart, windowEnd, intervals)
  {
    var p, q := WindowInBoundaries(pairs, windowStart, windowEnd, intervals);
    SlicesAreExactUnlessOutside(pairs, windowStart, windowEnd, intervals,
                                Boundaries(pairs, windowStart, windowEnd, intervals), p, q);
  }

  /** Intervals that reach the window are enough for that. */
  lemma ReachingIntervalsAreExact(pairs: seq<Pair>, windowStart: Time, windowEnd: Time, intervals: seq<Interval>)
    requires windowStart < windowEnd
    requires AllReach(intervals, windowStart, windowEnd)
    ensures SweepTotals(pairs, windowStart, windowEnd, intervals)
         == InstantTotals(pairs, intervals, windowStart, windowEnd)
  {
    SweepIsExact(pairs, windowStart, windowEnd, intervals);
  }

  lemma {:induction false} FilterNone(intervals: seq<Interval>, p: Interval -> bool)
    requires forall iv :: iv in intervals ==> !p(iv)
    ensures Filter(intervals, p) == []
  {
    if intervals != [] {
      assert intervals[0] in intervals;
      FilterNone(intervals[1..], p);
    }
  }

  lemma AloneOff(iv: Interval, t: Time)
    requires !Covers(iv, t)
    ensures ResolveAt(t, [iv]) == NORMAL
  {
    FilterNone([iv], x => Covers(x, t));
  }

  lemma AloneOn(ts: Time, online: int, t: Time)
    requires ts <= t
    ensures OnlineAt([(ts, Some(online))], t) == Some(online)
  {
  }

  /** An interval beyond the window makes the sweep count seconds outside it: with one known count
      and one interval after the window, the totals are never those of the window. */
  lemma IntervalBeyondWindowIsCounted(windowStart: Time, windowEnd: Time, online: int, iv: Interval)
    requires windowStart < windowEnd < iv.startsAt < iv.endsAt
    ensures SweepTotals([(windowStart, Some(online))], windowStart, windowEnd, [iv])
         != InstantTotals([(windowStart, Some(online))], [iv], windowStart, windowEnd)
  {
    var pairs: seq<Pair>, intervals := [(windowStart, Some(online))], [iv];
    AloneOff(iv, windowEnd);
    AloneOn(windowStart, online, windowEnd);
    assert iv in intervals && RightEdge(intervals, windowEnd, windowEnd);
    assert TrustsAfter(pairs, windowEnd, intervals);
    SweepIsExact(pairs, windowStart, windowEnd, intervals);
  }

  // ---- conservation and bounds ----

  lemma {:induction false} CountsAddUp(f: Time -> Totals, p: Time -> bool, q: Time -> bool, lo: Time, hi: Time)
    requires lo <= hi
    requires forall t: Time :: f(t).trusted >= 0
                            && f(t).trusted + (if p(t) then 1 else 0) + (if q(t) then 1 else 0) == 1
    ensures Sum(f, lo, hi).trusted + CountSeconds(p, lo, hi) + CountSeconds(q, lo, hi) == hi - lo
    ensures 0 <= Sum(f, lo, hi).trusted
    decreases hi
  {
    if lo < hi {
      CountsAddUp(f, p, q, lo, hi - 1);
    }
  }

  /** Trusted, excluded and unknown seconds add up to the length of the window. */
  lemma SecondsAreConserved(pairs: seq<Pair>, intervals: seq<Interval>, lo: Time, hi: Time)
    requires lo <= hi
    ensures InstantTotals(pairs, intervals, lo, hi).trusted
            + CountSeconds(Excluded(intervals), lo, hi)
            + CountSeconds(Unknown(pairs, intervals), lo, hi) == hi - lo
    ensures 0 <= InstantTotals(pairs, intervals, lo, hi).trusted
  {
    CountsAddUp(Instant(pairs, intervals), Excluded(intervals), Unknown(pairs, intervals), lo, hi);
  }

  /** So the sweep's own seconds and the others make up the window, for intervals that reach it. */
  lemma SweepSecondsAreConserved(pairs: seq<Pair>, windowStart: Time, windowEnd: Time, intervals: seq<Interval>)
    requires windowStart < windowEnd
    requires AllReach(intervals, windowStart, windowEnd)
    ensures SweepTotals(pairs, windowStart, windowEnd, intervals).trusted
            + CountSeconds(Excluded(intervals), windowStart, windowEnd)
            + CountSeconds(Unknown(pairs, intervals), windowStart, windowEnd) == windowEnd - windowStart
  {
    ReachingIntervalsAreExact(pairs, windowStart, windowEnd, intervals);
    SecondsAreConserved(pairs, intervals, windowStart, windowEnd);
  }

  /** Every trusted instant of [lo, hi) has a count between the two bounds. */
  ghost predicate CountsWithin(pairs: seq<Pair>, intervals: seq<Interval>, lo: Time, hi: Time,
                               least: int, most: int)
  {
    forall t: Time :: lo <= t < hi && Trusted(pairs, intervals, t) ==> least <= OnlineAt(pairs, t).value <= most
  }

  /** The weight of the seconds lies between so many times the one and the other bound. */
  predicate WeightWithin(sum: Totals, least: int, most: int) {
    least * sum.trusted <= sum.weighted <= most * sum.trusted
  }

  lemma MulDistributes(k: int, a: int, b: int)
    ensures k * (a + b) == k * a + k * b
  {
  }

  lemma WeightsAdd(a: Totals, b: Totals, least: int, most: int)
    requires WeightWithin(a, least, most) && WeightWithin(b, least, most)
    ensures WeightWithin(a.Plus(b), least, most)
  {
    MulDistributes(least, a.trusted, b.trusted);
    MulDistributes(most, a.trusted, b.trusted);
  }

  lemma {:induction false} SumBounds(f: Time -> Totals, lo: Time, hi: Time, least: int, most: int)
    requires forall t: Time :: lo <= t < hi ==> WeightWithin(f(t), least, most)
    ensures WeightWithin(Sum(f, lo, hi), least, most)
    decreases hi
  {
    if lo < hi {
      SumBounds(f, lo, hi - 1, least, most);
      WeightsAdd(Sum(f, lo, hi - 1), f(hi - 1), least, most);
    }
  }

  lemma WeightedBounds(pairs: seq<Pair>, intervals: seq<Interval>, lo: Time, hi: Time, least: int, most: int)
    requires CountsWithin(pairs, intervals, lo, hi, least, most)
    ensures WeightWithin(InstantTotals(pairs, intervals, lo, hi), least, most)
  {
    var f := Instant(pairs, intervals);
    forall t: Time | lo <= t < hi ensures WeightWithin(f(t), least, most) {
      assert f(t) == if Trusted(pairs, intervals, t) then Totals(OnlineAt(pairs, t).value, 1) else Totals(0, 0);
    }
    SumBounds(f, lo, hi, least, most);
  }

  function Average(totals: Totals): real {
    if totals.trusted <= 0 then 0.0 else totals.weighted as real / totals.trusted as real
  }

  /** The seconds at this average carry their whole weight, and no seconds have the average zero. */
  predicate IsMean(average: real, totals: Totals) {
    if totals.trusted > 0 then average * totals.trusted as real == totals.weighted as real else average == 0.0
  }

  lemma QuotientIsMean(weighted: int, trusted: int)
    ensures IsMean(if trusted <= 0 then 0.0 else weighted as real / trusted as real, Totals(weighted, trusted))
  {
  }

  function Coverage(totals: Totals, windowStart: Time, windowEnd: Time): real
    requires windowStart < windowEnd
  {
    var ratio := totals.trusted as real / (windowEnd - windowStart) as real;
    if ratio < 0.0 then 0.0 else if ratio > 1.0 then 1.0 else ratio
  }

  lemma RatioBounds(x: int, n: int, least: int, most: int)
    requires n > 0 && least * n <= x <= most * n
    ensures least as real <= x as real / n as real <= most as real
  {
    var q := x as real / n as real;
    assert q * n as real == x as real;
    assert (least * n) as real == least as real * n as real;
    assert (most * n) as real == most as real * n as real;
    assert (q - least as real) * n as real >= 0.0;
    assert (most as real - q) * n as real >= 0.0;
  }

  /** The clamp does nothing to totals of at most the window's length. */
  lemma PlainCoverage(totals: Totals, windowStart: Time, windowEnd: Time)
    requires windowStart < windowEnd && 0 <= totals.trusted <= windowEnd - windowStart
    ensures 0.0 <= totals.trusted as real / (windowEnd - windowStart) as real <= 1.0
    ensures Coverage(totals, windowStart, windowEnd) == totals.trusted as real / (windowEnd - windowStart) as real
  {
    RatioBounds(totals.trusted, windowEnd - windowStart, 0, 1);
  }

  lemma TotalsBounds(totals: Totals, windowStart: Time, windowEnd: Time, least: int, most: int)
    requires windowStart < windowEnd && 0 <= totals.trusted <= windowEnd - windowStart
    requires WeightWithin(totals, least, most)
    ensures 0.0 <= totals.trusted as real / (windowEnd - windowStart) as real <= 1.0
    ensures Coverage(totals, windowStart, windowEnd) == totals.trusted as real / (windowEnd - windowStart) as real
    ensures totals.trusted > 0 ==> least as real <= Average(totals) <= most as real
  {
    PlainCoverage(totals, windowStart, windowEnd);
    if totals.trusted > 0 {
      RatioBounds(totals.weighted, totals.trusted, least, most);
    }
  }

  /** For intervals that reach the window the coverage is the plain ratio, which already lies in
      [0, 1], and an average over some trusted time lies between the counts it is taken from. */
  lemma SweepBounds(pairs: seq<Pair>, windowStart: Time, windowEnd: Time, intervals: seq<Interval>,
                    least: int, most: int)
    requires windowStart < windowEnd
    requires AllReach(intervals, windowStart, windowEnd)
    requires CountsWithin(pairs, intervals, windowStart, windowEnd, least, most)
    ensures var totals := SweepTotals(pairs, windowStart, windowEnd, intervals);
      && 0.0 <= totals.trusted as real / (windowEnd - windowStart) as real <= 1.0
      && Coverage(totals, windowStart, windowEnd) == totals.trusted as real / (windowEnd - windowStart) as real
      && (totals.trusted > 0 ==> least as real <= Average(totals) <= most as real)
  {
    ReachingIntervalsAreExact(pairs, windowStart, windowEnd, intervals);
    SecondsAreConserved(pairs, intervals, windowStart, windowEnd);
    WeightedBounds(pairs, intervals, windowStart, windowEnd, least, most);
    TotalsBounds(SweepTotals(pairs, windowStart, windowEnd, intervals), windowStart, windowEnd, least, most);
  }

  // ---- the sweep itself ----

  /** The samples of the window, filed under their timestamps. */
  ghost predicate Filed(pairs: seq<Pair>, windowStart: Time, windowEnd: Time, filed: map<Time, seq<Option<int>>>) {
    forall b: Time ::
      && (b in filed <==> windowStart < b <= windowEnd && ReportedAt(pairs, b) != [])
      && (b in filed ==> filed[b] == ReportedAt(pairs, b))
  }

  lemma SweepOnlineFirst(pairs: seq<Pair>, windowStart: Time, windowEnd: Time, intervals: seq<Interval>,
                         bs: seq<Time>)
    requires windowStart < windowEnd && AreBoundaries(pairs, windowStart, windowEnd, intervals, bs) && |bs| > 0
    ensures SweepOnline(pairs, windowStart, windowEnd, bs[0]) == OnlineAt(pairs, windowStart)
  {
    assert windowStart in bs;
    var p :| 0 <= p < |bs| && bs[p] == windowStart;
    assert bs[0] <= windowStart;
  }

  lemma NextBoundaryOnline(pairs: seq<Pair>, windowStart: Time, windowEnd: Time, intervals: seq<Interval>,
                           bs: seq<Time>, i: nat)
    requires windowStart < windowEnd && OrderedPairs(pairs) && i + 1 < |bs|
    requires AreBoundaries(pairs, windowStart, windowEnd, intervals, bs)
    ensures var next := bs[i + 1];
      SweepOnline(pairs, windowStart, windowEnd, next)
      == if windowStart < next <= windowEnd && ReportedAt(pairs, next) != []
         then ReportedAt(pairs, next)[|ReportedAt(pairs, next)| - 1]
         else SweepOnline(pairs, windowStart, windowEnd, bs[i])
  {
    forall p | p in pairs && windowStart < p.0 <= windowEnd ensures !(bs[i] < p.0 < bs[i + 1]) {
      assert PairBoundary(pairs, windowStart, windowEnd, p.0) && p.0 in bs;
      if bs[i] < p.0 < bs[i + 1] {
        SkipsBetween(bs, i, p.0);
      }
    }
    SweepOnlineNext(pairs, windowStart, windowEnd, bs[i], bs[i + 1]);
  }

  /** The count moves on to what was filed at the next boundary. */
  ghost predicate MovesOn(pairs: seq<Pair>, windowStart: Time, windowEnd: Time, bs: seq<Time>,
                          filed: map<Time, seq<Option<int>>>, i: nat)
    requires i + 1 < |bs|
  {
    var next := bs[i + 1];
    && bs[i] < next && (next in filed ==> filed[next] != [])
    && SweepOnline(pairs, windowStart, windowEnd, next)
       == if next in filed then filed[next][|filed[next]| - 1] else SweepOnline(pairs, windowStart, windowEnd, bs[i])
  }

  /** From the count at the first boundary on, the filed samples give the count at every boundary. */
  ghost predicate Walkable(pairs: seq<Pair>, windowStart: Time, windowEnd: Time, bs: seq<Time>,
                           filed: map<Time, seq<Option<int>>>, initial: Option<int>)
  {
    && bs != [] && SweepOnline(pairs, windowStart, windowEnd, bs[0]) == initial
    && forall i :: 0 <= i < |bs| - 1 ==> MovesOn(pairs, windowStart, windowEnd, bs, filed, i)
  }

  lemma BoundariesAreWalkable(pairs: seq<Pair>, windowStart: Time, windowEnd: Time, intervals: seq<Interval>,
                              bs: seq<Time>, filed: map<Time, seq<Option<int>>>)
    requires windowStart < windowEnd && OrderedPairs(pairs) && bs != []
    requires AreBoundaries(pairs, windowStart, windowEnd, intervals, bs)
    requires Filed(pairs, windowStart, windowEnd, filed)
    ensures Walkable(pairs, windowStart, windowEnd, bs, filed, OnlineAt(pairs, windowStart))
  {
    SweepOnlineFirst(pairs, windowStart, windowEnd, intervals, bs);
    forall i | 0 <= i < |bs| - 1 ensures MovesOn(pairs, windowStart, windowEnd, bs, filed, i) {
      NextBoundaryOnline(pairs, windowStart, windowEnd, intervals, bs, i);
    }
  }

  /** The state of the sweep when it has reached boundary i. */
  ghost predicate Swept(pairs: seq<Pair>, windowStart: Time, windowEnd: Time, intervals: seq<Interval>,
                        bs: seq<Time>, i: nat, online: Option<int>, sum: Totals)
    requires i < |bs|
  {
    && online == SweepOnline(pairs, windowStart, windowEnd, bs[i])
    && sum == SumSlices(Slice(pairs, windowStart, windowEnd, intervals), bs, 0, i)
  }

  /** One more boundary adds one more slice and moves the count on. */
  lemma SweepStep(pairs: seq<Pair>, windowStart: Time, windowEnd: Time, intervals: seq<Interval>,
                  bs: seq<Time>, filed: map<Time, seq<Option<int>>>, i: nat, online: Option<int>, sum: Totals)
    requires i + 1 < |bs| && MovesOn(pairs, windowStart, windowEnd, bs, filed, i)
    requires Swept(pairs, windowStart, windowEnd, intervals, bs, i, online, sum)
    ensures Swept(pairs, windowStart, windowEnd, intervals, bs, i + 1,
                  if bs[i + 1] in filed then filed[bs[i + 1]][|filed[bs[i + 1]]| - 1] else online,
                  sum.Plus(Added(ResolveAt(bs[i], intervals).excludeFromScore, online, bs[i + 1] - bs[i])))
  {
  }

  method AddSlice(weightedTotal: int, trustedSeconds: int, excluded: bool, online: Option<int>, delta: int)
    returns (weighted: int, trusted: int)
    ensures delta > 0 ==>
      Totals(weighted, trusted) == Totals(weightedTotal, trustedSeconds).Plus(Added(excluded, online, delta))
    ensures delta <= 0 ==> weighted == weightedTotal && trusted == trustedSeconds
  {
    weighted, trusted := weightedTotal, trustedSeconds;
    if delta > 0 && !excluded && online.Some? {
      weighted := weighted + online.value * delta;
      trusted := trusted + delta;
    }
  }

  method ApplySamples(current: Option<int>, samples: seq<Option<int>>) returns (online: Option<int>)
    ensures online == if samples == [] then current else samples[|samples| - 1]
  {
    online := current;
    for k := 0 to |samples|
      invariant online == if k == 0 then current else samples[k - 1]
    {
      online := samples[k];
    }
  }

  /** Walks along the boundaries, adding up the slices. */
  method Sweep(pairs: seq<Pair>, windowStart: Time, windowEnd: Time, intervals: seq<Interval>, boundaries: seq<Time>,
               futureSamples: map<Time, seq<Option<int>>>, initial: Option<int>, ghost ordered: bool)
    returns (weightedTotal: int, trustedSeconds: int)
    requires ordered ==> Walkable(pairs, windowStart, windowEnd, boundaries, futureSamples, initial)
    ensures ordered ==>
      Totals(weightedTotal, trustedSeconds)
      == SumSlices(Slice(pairs, windowStart, windowEnd, intervals), boundaries, 0, |boundaries| - 1)
  {
    var currentOnline := initial;
    weightedTotal, trustedSeconds := 0, 0;
    if boundaries == [] {
      return;
    }
    for i := 0 to |boundaries| - 1
      invariant ordered ==> Swept(pairs, windowStart, windowEnd, intervals, boundaries, i,
                                  currentOnline, Totals(weightedTotal, trustedSeconds))
    {
      if ordered {
        assert MovesOn(pairs, windowStart, windowEnd, boundaries, futureSamples, i);
        SweepStep(pairs, windowStart, windowEnd, intervals, boundaries, futureSamples, i,
                  currentOnline, Totals(weightedTotal, trustedSeconds));
      }
      var currentTime, nextBoundary := boundaries[i], boundaries[i + 1];
      var excluded := ResolveAt(currentTime, intervals).excludeFromScore;
      weightedTotal, trustedSeconds := AddSlice(weightedTotal, trustedSeconds, excluded, currentOnline,
                                                nextBoundary as int - currentTime as int);
      if nextBoundary in futureSamples {
        currentOnline := ApplySamples(currentOnline, futureSamples[nextBoundary]);
      }
    }
  }

  /** Collects the boundaries, the samples inside the window and the count at its start. */
  method Prepare(pairs: seq<Pair>, windowStart: Time, windowEnd: Time, intervals: seq<Interval>)
    returns (boundaries: seq<Time>, futureSamples: map<Time, seq<Option<int>>>, currentOnline: Option<int>)
    requires windowStart < windowEnd
    ensures boundaries == Boundaries(pairs, windowStart, windowEnd, intervals)
    ensures Filed(pairs, windowStart, windowEnd, futureSamples)
    ensures currentOnline == OnlineAt(pairs, windowStart)
  {
    currentOnline := None;
    futureSamples := map[];
    boundaries := Insert([windowStart], windowEnd);
    ghost var ends := boundaries;
    for n := 0 to |pairs|
      invariant currentOnline == OnlineAt(pairs[..n], windowStart)
      invariant Filed(pairs[..n], windowStart, windowEnd, futureSamples)
      invariant boundaries == AddPairs(ends, pairs[..n], windowStart, windowEnd)
    {
      var (ts, online) := pairs[n];
      assert pairs[..n + 1][..n] == pairs[..n];
      if ts <= windowStart {
        currentOnline := online;
        continue;
      }
      if ts > windowEnd {
        continue;
      }
      boundaries := Insert(boundaries, ts);
      var before := if ts in futureSamples then futureSamples[ts] else [];
      futureSamples := futureSamples[ts := before + [online]];
    }
    assert pairs[..|pairs|] == pairs;
    ghost var withPairs := boundaries;
    for n := 0 to |intervals|
      invariant boundaries == AddIntervals(withPairs, intervals[..n], windowStart, windowEnd)
    {
      var iv := intervals[n];
      assert intervals[..n + 1][..n] == intervals[..n];
      if iv.startsAt > windowStart {
        boundaries := Insert(boundaries, iv.startsAt);
      }
      if iv.endsAt < windowEnd {
        boundaries := Insert(boundaries, iv.endsAt);
      }
    }
    assert intervals[..|intervals|] == intervals;
  }

  /** For intervals that reach the window, the coverage of the trusted instants. */
  lemma CoverageOfInstants(pairs: seq<Pair>, windowStart: Time, windowEnd: Time, intervals: seq<Interval>)
    requires windowStart < windowEnd && AllReach(intervals, windowStart, windowEnd)
    ensures var totals := InstantTotals(pairs, intervals, windowStart, windowEnd);
      && SweepTotals(pairs, windowStart, windowEnd, intervals) == totals && totals.trusted >= 0
      && Coverage(totals, windowStart, windowEnd) == totals.trusted as real / (windowEnd - windowStart) as real
  {
    ReachingIntervalsAreExact(pairs, windowStart, windowEnd, intervals);
    SecondsAreConserved(pairs, intervals, windowStart, windowEnd);
    PlainCoverage(InstantTotals(pairs, intervals, windowStart, windowEnd), windowStart, windowEnd);
  }

  /** The average is the exact quotient of the sums over the instants that count, and zero without any. */
  method ComputeEffectiveAverageStats(pairs: seq<Pair>, windowStart: Time, windowEnd: Time,
                                      intervals: seq<Interval>) returns (average: real, coverage: real)
    ensures windowEnd <= windowStart ==> average == 0.0 && coverage == 0.0
    ensures windowStart < windowEnd && OrderedPairs(pairs) ==>
      var totals := SweepTotals(pairs, windowStart, windowEnd, intervals);
      && IsMean(average, totals)
      && coverage == Coverage(totals, windowStart, windowEnd)
    ensures windowStart < windowEnd && OrderedPairs(pairs) && AllReach(intervals, windowStart, windowEnd) ==>
      var totals := InstantTotals(pairs, intervals, windowStart, windowEnd);
      && IsMean(average, totals)
      && coverage == totals.trusted as real / (windowEnd - windowStart) as real
    ensures 0.0 <= coverage <= 1.0
  {
    if windowEnd <= windowStart {
      return 0.0, 0.0;
    }
    var boundaries, futureSamples, initial := Prepare(pairs, windowStart, windowEnd, intervals);
    if OrderedPairs(pairs) {
      BoundariesCorrect(pairs, windowStart, windowEnd, intervals);
      BoundariesAreWalkable(pairs, windowStart, windowEnd, intervals, boundaries, futureSamples);
    }
    var weightedTotal, trustedSeconds := Sweep(pairs, windowStart, windowEnd, intervals,
                                               boundaries, futureSamples, initial, OrderedPairs(pairs));
    average := if trustedSeconds <= 0 then 0.0 else weightedTotal as real / trustedSeconds as real;
    QuotientIsMean(weightedTotal, trustedSeconds);
    coverage := trustedSeconds as real / (windowEnd - windowStart) as real;
    coverage := if coverage < 0.0 then 0.0 else if coverage > 1.0 then 1.0 else coverage;
    if AllReach(intervals, windowStart, windowEnd) {
      CoverageOfInstants(pairs, windowStart, windowEnd, intervals);
    }
  }
}
