/** Sorting and coalescing of intervals (merge_intervals in rust/src/segments.rs). */
module SegmentMerge {
  import opened Options
  import opened SegmentTypes

  function SourceRank(source: Source): int {
    match source case Auto => 0 case Manual => 1 case Motd => 2 case Plugin => 3
  }

  /** A missing status sorts as the empty string. */
  function StatusRank(status: Option<Status>): int {
    match status case None => 0 case Some(Maintenance) => 1 case Some(Suspect) => 2
  }

  function ClearsRank(clears: bool): int {
    if clears then 1 else 0
  }

  /** The part of the sort key taken from the tag; `excludeFromScore` is not part of it. */
  predicate SameKey(a: Tag, b: Tag) {
    a.priority == b.priority && a.source == b.source && a.status == b.status && a.clears == b.clears
  }

  predicate KeyBefore(a: Tag, b: Tag) {
    if a.priority != b.priority then a.priority < b.priority
    else if a.source != b.source then SourceRank(a.source) < SourceRank(b.source)
    else if a.status != b.status then StatusRank(a.status) < StatusRank(b.status)
    else ClearsRank(a.clears) < ClearsRank(b.clears)
  }

  predicate SpanLeq(a: Interval, b: Interval) {
    a.startsAt < b.startsAt || (a.startsAt == b.startsAt && a.endsAt <= b.endsAt)
  }

  /** The comparison merge_intervals sorts by. */
  predicate Leq(a: Interval, b: Interval) {
    KeyBefore(a.tag, b.tag) || (SameKey(a.tag, b.tag) && SpanLeq(a, b))
  }

  /** The strings of the source, by which it sorts. */
  function SourceText(source: Source): string {
    match source case Auto => "auto" case Manual => "manual" case Motd => "motd" case Plugin => "plugin"
  }

  function StatusText(status: Option<Status>): string {
    match status case None => "" case Some(Maintenance) => "maintenance" case Some(Suspect) => "suspect"
  }

  /** Alphabetical order. */
  predicate TextBefore(a: string, b: string) {
    b != [] && (a == [] || a[0] < b[0] || (a[0] == b[0] && TextBefore(a[1..], b[1..])))
  }

  lemma {:induction false} TextNotBefore(a: string)
    ensures !TextBefore(a, a)
  {
    if a != [] {
      TextNotBefore(a[1..]);
    }
  }

  lemma SourcesAreAlphabetical(a: Source, b: Source)
    ensures SourceRank(a) < SourceRank(b) <==> TextBefore(SourceText(a), SourceText(b))
  {
    assert !TextBefore("auto"[1..], "auto"[1..]) by { TextNotBefore("auto"[1..]); }
    assert !TextBefore("plugin"[1..], "plugin"[1..]) by { TextNotBefore("plugin"[1..]); }
    assert !TextBefore("manual"[1..], "manual"[1..]) by { TextNotBefore("manual"[1..]); }
    assert !TextBefore("motd"[1..], "motd"[1..]) by { TextNotBefore("motd"[1..]); }
    assert "manual"[1..][0] == 'a' && "motd"[1..][0] == 'o';
  }

  lemma StatusesAreAlphabetical(a: Option<Status>, b: Option<Status>)
    ensures StatusRank(a) < StatusRank(b) <==> TextBefore(StatusText(a), StatusText(b))
  {
    assert !TextBefore("maintenance"[1..], "maintenance"[1..]) by { TextNotBefore("maintenance"[1..]); }
    assert !TextBefore("suspect"[1..], "suspect"[1..]) by { TextNotBefore("suspect"[1..]); }
  }

  /** Intervals are ordered by ascending priority, then by the texts of source and status, then those that do
      not clear first, then by start and end. */
  lemma LeqIsLexicographic(a: Interval, b: Interval)
    ensures var s, t := a.tag, b.tag;
      var sources := TextBefore(SourceText(s.source), SourceText(t.source));
      var statuses := TextBefore(StatusText(s.status), StatusText(t.status));
      Leq(a, b) <==>
        if s.priority != t.priority then s.priority < t.priority
        else if s.source != t.source then sources
        else if s.status != t.status then statuses
        else if s.clears != t.clears then t.clears
        else a.startsAt < b.startsAt || (a.startsAt == b.startsAt && a.endsAt <= b.endsAt)
  {
    SourcesAreAlphabetical(a.tag.source, b.tag.source);
    StatusesAreAlphabetical(a.tag.status, b.tag.status);
    TextNotBefore(SourceText(a.tag.source));
    TextNotBefore(StatusText(a.tag.status));
  }

  predicate Sorted(s: seq<Interval>) {
    forall i, j :: 0 <= i < j < |s| ==> Leq(s[i], s[j])
  }

  lemma LeqTransitive(a: Interval, b: Interval, c: Interval)
    requires Leq(a, b) && Leq(b, c)
    ensures Leq(a, c)
  {
  }

  function InsertSorted(iv: Interval, s: seq<Interval>): seq<Interval> {
    if s == [] then [iv]
    else if Leq(iv, s[0]) then [iv] + s
    else [s[0]] + InsertSorted(iv, s[1..])
  }

  /** A stable sort by `Leq`, standing for the library sort. */
  function SortIntervals(s: seq<Interval>): seq<Interval> {
    if s == [] then [] else InsertSorted(s[0], SortIntervals(s[1..]))
  }

  lemma LeqTotal(a: Interval, b: Interval)
    ensures Leq(a, b) || Leq(b, a)
  {
  }

  lemma {:induction false} InsertSortedPermutes(iv: Interval, s: seq<Interval>)
    ensures multiset(InsertSorted(iv, s)) == multiset(s) + multiset{iv}
  {
    if s != [] {
      assert s == [s[0]] + s[1..];
      if !Leq(iv, s[0]) {
        InsertSortedPermutes(iv, s[1..]);
      }
    }
  }

  lemma SortedCons(iv: Interval, s: seq<Interval>)
    requires Sorted(s) && (s != [] ==> Leq(iv, s[0]))
    ensures Sorted([iv] + s)
  {
    forall j | 0 < j < |s| ensures Leq(iv, s[j]) {
      LeqTransitive(iv, s[0], s[j]);
    }
  }

  lemma {:induction false} InsertSortedSorted(iv: Interval, s: seq<Interval>)
    requires Sorted(s)
    ensures Sorted(InsertSorted(iv, s))
    ensures InsertSorted(iv, s)[0] == iv || (s != [] && InsertSorted(iv, s)[0] == s[0])
  {
    if s != [] {
      if Leq(iv, s[0]) {
        SortedCons(iv, s);
      } else {
        LeqTotal(iv, s[0]);
        InsertSortedSorted(iv, s[1..]);
        SortedCons(s[0], InsertSorted(iv, s[1..]));
      }
    }
  }

  lemma {:induction false} SortIntervalsCorrect(s: seq<Interval>)
    ensures Sorted(SortIntervals(s))
    ensures multiset(SortIntervals(s)) == multiset(s)
  {
    if s != [] {
      SortIntervalsCorrect(s[1..]);
      InsertSortedSorted(s[0], SortIntervals(s[1..]));
      InsertSortedPermutes(s[0], SortIntervals(s[1..]));
      assert s == [s[0]] + s[1..];
    }
  }

  /** The elements of `s` that tie with `pivot`, in order. */
  function Ties(s: seq<Interval>, pivot: Interval): seq<Interval> {
    if s == [] then []
    else (if Leq(s[0], pivot) && Leq(pivot, s[0]) then [s[0]] else []) + Ties(s[1..], pivot)
  }

  lemma {:induction false} InsertSortedStable(iv: Interval, s: seq<Interval>, pivot: Interval)
    requires Sorted(s)
    ensures Ties(InsertSorted(iv, s), pivot) == Ties([iv] + s, pivot)
  {
    assert ([iv] + s)[1..] == s;
    if s != [] && !Leq(iv, s[0]) {
      InsertSortedStable(iv, s[1..], pivot);
      assert ([iv] + s[1..])[1..] == s[1..];
      assert ([s[0]] + InsertSorted(iv, s[1..]))[1..] == InsertSorted(iv, s[1..]);
    }
  }

  /** Elements that compare equal keep their order. */
  lemma {:induction false} SortIntervalsStable(s: seq<Interval>, pivot: Interval)
    ensures Ties(SortIntervals(s), pivot) == Ties(s, pivot)
  {
    if s != [] {
      SortIntervalsStable(s[1..], pivot);
      SortIntervalsCorrect(s[1..]);
      InsertSortedStable(s[0], SortIntervals(s[1..]), pivot);
      assert ([s[0]] + SortIntervals(s[1..]))[1..] == SortIntervals(s[1..]);
    }
  }

  lemma {:induction false} SortFixesSorted(s: seq<Interval>)
    requires Sorted(s)
    ensures SortIntervals(s) == s
  {
    if s != [] {
      SortFixesSorted(s[1..]);
      assert s == [s[0]] + s[1..];
    }
  }

  predicate Mergeable(prev: Interval, iv: Interval) {
    prev.tag == iv.tag && iv.startsAt <= prev.endsAt
  }

  /** One round of the loop: extend the last merged interval or start a new one. */
  function Absorb(merged: seq<Interval>, iv: Interval): seq<Interval> {
    if merged != [] && Mergeable(merged[|merged| - 1], iv) then
      var prev := merged[|merged| - 1];
      merged[|merged| - 1 := prev.(endsAt := if iv.endsAt > prev.endsAt then iv.endsAt else prev.endsAt)]
    else
      merged + [iv]
  }

  function Coalesce(sorted: seq<Interval>): seq<Interval> {
    if sorted == [] then []
    else Absorb(Coalesce(sorted[..|sorted| - 1]), sorted[|sorted| - 1])
  }

  function Merge(intervals: seq<Interval>): seq<Interval> {
    Coalesce(SortIntervals(intervals))
  }

  method MergeIntervals(intervals: seq<Interval>) returns (merged: seq<Interval>)
    ensures merged == Merge(intervals)
  {
    merged := [];
    if |intervals| == 0 {
      return;
    }
    var sorted := SortIntervals(intervals);
    for i := 0 to |sorted|
      invariant merged == Coalesce(sorted[..i])
    {
      var iv := sorted[i];
      assert sorted[..i + 1][..i] == sorted[..i];
      if |merged| > 0 && Mergeable(merged[|merged| - 1], iv) {
        var prev := merged[|merged| - 1];
        if iv.endsAt > prev.endsAt {
          merged := merged[|merged| - 1 := prev.(endsAt := iv.endsAt)];
        }
      } else {
        merged := merged + [iv];
      }
    }
    assert sorted[..|sorted|] == sorted;
  }

  // ---- what coalescing a sorted list keeps ----

  /** No element can be merged into the one before it. */
  predicate Unmergeable(s: seq<Interval>) {
    forall i :: 0 < i < |s| ==> !Mergeable(s[i - 1], s[i])
  }

  lemma AbsorbCovers(merged: seq<Interval>, iv: Interval, tag: Tag, t: Time)
    requires merged != [] ==> Leq(merged[|merged| - 1], iv)
    ensures Covered(Absorb(merged, iv), tag, t) <==> Covered(merged, tag, t) || Covered([iv], tag, t)
  {
    if merged != [] && Mergeable(merged[|merged| - 1], iv) {
      var prev := merged[|merged| - 1];
      var head := merged[..|merged| - 1];
      var wide := prev.(endsAt := if iv.endsAt > prev.endsAt then iv.endsAt else prev.endsAt);
      assert merged == head + [prev] && Absorb(merged, iv) == head + [wide];
      CoveredConcat(head, [prev], tag, t);
      CoveredConcat(head, [wide], tag, t);
      assert iv in [iv] && prev in [prev] && wide in [wide];
      assert Covers(wide, t) <==> Covers(prev, t) || Covers(iv, t);
    } else {
      CoveredConcat(merged, [iv], tag, t);
    }
  }

  lemma {:induction false} CoalesceCorrect(s: seq<Interval>)
    requires Sorted(s)
    ensures s != [] ==> Coalesce(s) != [] && Leq(Coalesce(s)[|Coalesce(s)| - 1], s[|s| - 1])
    ensures Sorted(Coalesce(s)) && Unmergeable(Coalesce(s))
  {
    if s != [] {
      var n := |s| - 1;
      CoalesceCorrect(s[..n]);
      var m, iv := Coalesce(s[..n]), s[n];
      if m != [] {
        LeqTransitive(m[|m| - 1], s[n - 1], iv);
        forall i | 0 <= i < |m| ensures Leq(m[i], iv) {
          if i < |m| - 1 {
            LeqTransitive(m[i], m[|m| - 1], iv);
          }
        }
      }
    }
  }

  lemma {:induction false} CoalesceCovers(s: seq<Interval>, tag: Tag, t: Time)
    requires Sorted(s)
    ensures Covered(Coalesce(s), tag, t) <==> Covered(s, tag, t)
  {
    if s != [] {
      var n := |s| - 1;
      CoalesceCovers(s[..n], tag, t);
      CoalesceCorrect(s[..n]);
      var m := Coalesce(s[..n]);
      if m != [] {
        LeqTransitive(m[|m| - 1], s[n - 1], s[n]);
      }
      AbsorbCovers(m, s[n], tag, t);
      CoveredConcat(s[..n], [s[n]], tag, t);
      assert s == s[..n] + [s[n]];
    }
  }

  lemma AbsorbAppends(merged: seq<Interval>, iv: Interval)
    requires merged != [] ==> !Mergeable(merged[|merged| - 1], iv)
    ensures Absorb(merged, iv) == merged + [iv]
  {
  }

  lemma {:induction false} CoalesceFixesUnmergeable(s: seq<Interval>)
    requires Unmergeable(s)
    ensures Coalesce(s) == s
  {
    if s != [] {
      var n := |s| - 1;
      var before := s[..n];
      CoalesceFixesUnmergeable(before);
      assert n > 0 ==> !Mergeable(s[n - 1], s[n]);
      AbsorbAppends(before, s[n]);
      assert s == before + [s[n]];
    }
  }

  /** Merged intervals carry the tags and stay inside the bounds of the merged ones. */
  lemma {:induction false} CoalesceKeeps(s: seq<Interval>, tags: set<Tag>, lo: Time, hi: Time)
    requires forall iv :: iv in s ==> iv.tag in tags && lo <= iv.startsAt < iv.endsAt <= hi
    ensures forall iv :: iv in Coalesce(s) ==> iv.tag in tags && lo <= iv.startsAt < iv.endsAt <= hi
  {
    if s != [] {
      CoalesceKeeps(s[..|s| - 1], tags, lo, hi);
    }
  }

  lemma SortKeepsElements(s: seq<Interval>)
    ensures forall iv :: iv in SortIntervals(s) <==> iv in s
  {
    SortIntervalsCorrect(s);
    forall iv ensures iv in SortIntervals(s) <==> iv in s {
      assert iv in SortIntervals(s) <==> iv in multiset(SortIntervals(s));
    }
  }

  lemma MergeKeeps(intervals: seq<Interval>, tags: set<Tag>, lo: Time, hi: Time)
    requires forall iv :: iv in intervals ==> iv.tag in tags && lo <= iv.startsAt < iv.endsAt <= hi
    ensures forall iv :: iv in Merge(intervals) ==> iv.tag in tags && lo <= iv.startsAt < iv.endsAt <= hi
  {
    SortKeepsElements(intervals);
    CoalesceKeeps(SortIntervals(intervals), tags, lo, hi);
  }

  // ---- main results ----

  /** Merging preserves meaning: instant by instant and tag by tag. */
  lemma MergePreservesCoverage(intervals: seq<Interval>, tag: Tag, t: Time)
    ensures Covered(Merge(intervals), tag, t) <==> Covered(intervals, tag, t)
  {
    var s := SortIntervals(intervals);
    SortIntervalsCorrect(intervals);
    CoalesceCovers(s, tag, t);
    SortKeepsElements(intervals);
  }

  /** Merging twice equals merging once, for every input. */
  lemma MergeIdempotent(intervals: seq<Interval>)
    ensures Merge(Merge(intervals)) == Merge(intervals)
  {
    SortIntervalsCorrect(intervals);
    CoalesceCorrect(SortIntervals(intervals));
    SortFixesSorted(Merge(intervals));
    CoalesceFixesUnmergeable(Merge(intervals));
  }

  // ---- when merged intervals of one tag are apart ----

  /** No two elements with one tag touch. */
  predicate Separated(m: seq<Interval>) {
    forall i, j :: 0 <= i < j < |m| && m[i].tag == m[j].tag ==> m[i].endsAt < m[j].startsAt
  }

  predicate NonEmpty(s: seq<Interval>) {
    forall i :: 0 <= i < |s| ==> s[i].startsAt < s[i].endsAt
  }

  /** Two elements with one tag that touch, and between them one with another tag. */
  predicate InterruptedBy(s: seq<Interval>, i: nat, j: nat, k: nat) {
    && i < j < k < |s|
    && s[i].tag == s[k].tag && s[j].tag != s[i].tag && s[k].startsAt <= s[i].endsAt
  }

  predicate Interrupted(s: seq<Interval>) {
    exists i, j, k :: 0 <= i < j < k < |s| && InterruptedBy(s, i, j, k)
  }

  /** The merged interval `iv` stands for the elements of `s` from `lo` up to `hi`. */
  predicate IsBlock(s: seq<Interval>, lo: nat, hi: nat, iv: Interval) {
    && lo < hi <= |s|
    && iv.startsAt == s[lo].startsAt
    && (forall i :: lo <= i < hi ==> s[i].tag == iv.tag && s[i].endsAt <= iv.endsAt)
    && exists i :: lo <= i < hi && s[i].endsAt == iv.endsAt
  }

  /** The merged intervals stand for adjacent blocks, which start at `cuts`. */
  predicate AreBlocks(s: seq<Interval>, m: seq<Interval>, cuts: seq<nat>) {
    && |cuts| == |m| + 1 && cuts[0] == 0 && cuts[|m|] == |s|
    && (forall p, q :: 0 <= p < q <= |m| ==> cuts[p] < cuts[q])
    && forall p :: 0 <= p < |m| ==> IsBlock(s, cuts[p], cuts[p + 1], m[p])
  }

  lemma BlockSnoc(s: seq<Interval>, iv: Interval, lo: nat, hi: nat, block: Interval)
    requires IsBlock(s, lo, hi, block)
    ensures IsBlock(s + [iv], lo, hi, block)
  {
    var i :| lo <= i < hi && s[i].endsAt == block.endsAt;
    assert (s + [iv])[i].endsAt == block.endsAt;
  }

  lemma BlockGrows(s: seq<Interval>, iv: Interval, lo: nat, block: Interval)
    requires IsBlock(s, lo, |s|, block) && Mergeable(block, iv)
    ensures IsBlock(s + [iv], lo, |s| + 1,
              block.(endsAt := if iv.endsAt > block.endsAt then iv.endsAt else block.endsAt))
  {
    BlockSnoc(s, iv, lo, |s|, block);
    assert (s + [iv])[|s|] == iv;
  }

  lemma BlocksExtend(s: seq<Interval>, m: seq<Interval>, cuts: seq<nat>, iv: Interval)
    requires AreBlocks(s, m, cuts) && m != [] && Mergeable(m[|m| - 1], iv)
    ensures AreBlocks(s + [iv], Absorb(m, iv), cuts[|m| := |s| + 1])
  {
    var last := |m| - 1;
    assert IsBlock(s, cuts[last], cuts[last + 1], m[last]);
    BlockGrows(s, iv, cuts[last], m[last]);
    forall p | 0 <= p < last ensures IsBlock(s + [iv], cuts[p], cuts[p + 1], m[p]) {
      BlockSnoc(s, iv, cuts[p], cuts[p + 1], m[p]);
    }
  }

  lemma BlocksAppend(s: seq<Interval>, m: seq<Interval>, cuts: seq<nat>, iv: Interval)
    requires AreBlocks(s, m, cuts)
    ensures AreBlocks(s + [iv], m + [iv], cuts + [|s| + 1])
  {
    assert (s + [iv])[|s|] == iv;
    assert IsBlock(s + [iv], |s|, |s| + 1, iv);
    forall p | 0 <= p < |m| ensures IsBlock(s + [iv], cuts[p], cuts[p + 1], m[p]) {
      BlockSnoc(s, iv, cuts[p], cuts[p + 1], m[p]);
    }
  }

  lemma {:induction false} CoalesceBlocks(s: seq<Interval>) returns (cuts: seq<nat>)
    ensures AreBlocks(s, Coalesce(s), cuts)
  {
    if s == [] {
      cuts := [0];
    } else {
      var before, iv := s[..|s| - 1], s[|s| - 1];
      var m := Coalesce(before);
      var shorter := CoalesceBlocks(before);
      assert s == before + [iv];
      if m != [] && Mergeable(m[|m| - 1], iv) {
        BlocksExtend(before, m, shorter, iv);
        cuts := shorter[|m| := |s|];
      } else {
        BlocksAppend(before, m, shorter, iv);
        cuts := shorter + [|s|];
      }
    }
  }

  lemma {:induction false} BlockOf(cuts: seq<nat>, m: nat, i: nat) returns (p: nat)
    requires |cuts| == m + 1 && cuts[0] == 0 && i < cuts[m]
    ensures p < m && cuts[p] <= i < cuts[p + 1]
  {
    if i >= cuts[m - 1] {
      p := m - 1;
    } else {
      p := BlockOf(cuts[..m], m - 1, i);
    }
  }

  lemma StartsAscend(s: seq<Interval>, i: nat, j: nat)
    requires Sorted(s) && i <= j < |s| && s[i].tag == s[j].tag
    ensures s[i].startsAt <= s[j].startsAt
  {
    assert i < j ==> Leq(s[i], s[j]);
  }

  /** An interruption in the sorted list leaves two merged intervals that touch. */
  lemma InterruptedTouches(s: seq<Interval>, m: seq<Interval>, cuts: seq<nat>, i: nat, j: nat, k: nat)
    requires Sorted(s) && AreBlocks(s, m, cuts) && InterruptedBy(s, i, j, k)
    ensures !Separated(m)
  {
    var p := BlockOf(cuts, |m|, i);
    var q := BlockOf(cuts, |m|, j);
    var r := BlockOf(cuts, |m|, k);
    assert IsBlock(s, cuts[p], cuts[p + 1], m[p]) && IsBlock(s, cuts[r], cuts[r + 1], m[r]);
    assert IsBlock(s, cuts[q], cuts[q + 1], m[q]);
    assert p < q < r;
    StartsAscend(s, cuts[r], k);
  }

  /** Merged intervals with nothing but their own tag between them are apart. */
  lemma {:induction false} UninterruptedApart(m: seq<Interval>, i: nat, j: nat)
    requires Unmergeable(m) && NonEmpty(m) && i < j < |m|
    requires forall p :: i <= p <= j ==> m[p].tag == m[i].tag
    ensures m[i].endsAt < m[j].startsAt
    decreases j
  {
    assert !Mergeable(m[j - 1], m[j]);
    if i < j - 1 {
      UninterruptedApart(m, i, j - 1);
    }
  }

  lemma TouchingIsInterrupted(s: seq<Interval>, m: seq<Interval>, cuts: seq<nat>, i: nat, j: nat)
    requires AreBlocks(s, m, cuts) && Unmergeable(m) && NonEmpty(m)
    requires i < j < |m| && m[i].tag == m[j].tag && m[j].startsAt <= m[i].endsAt
    ensures Interrupted(s)
  {
    if forall p :: i <= p <= j ==> m[p].tag == m[i].tag {
      UninterruptedApart(m, i, j);
    } else {
      var p :| i <= p <= j && m[p].tag != m[i].tag;
      assert IsBlock(s, cuts[i], cuts[i + 1], m[i]) && IsBlock(s, cuts[j], cuts[j + 1], m[j]);
      assert IsBlock(s, cuts[p], cuts[p + 1], m[p]);
      var x :| cuts[i] <= x < cuts[i + 1] && s[x].endsAt == m[i].endsAt;
      assert cuts[i + 1] <= cuts[p] < cuts[p + 1] <= cuts[j];
      assert InterruptedBy(s, x, cuts[p], cuts[j]);
    }
  }

  lemma {:induction false} CoalesceNonEmpty(s: seq<Interval>)
    requires NonEmpty(s)
    ensures NonEmpty(Coalesce(s))
  {
    if s != [] {
      CoalesceNonEmpty(s[..|s| - 1]);
    }
  }

  lemma SortNonEmpty(intervals: seq<Interval>)
    requires NonEmpty(intervals)
    ensures NonEmpty(SortIntervals(intervals))
  {
    var s := SortIntervals(intervals);
    SortKeepsElements(intervals);
    forall i | 0 <= i < |s| ensures s[i].startsAt < s[i].endsAt {
      assert s[i] in s;
    }
  }

  lemma BlocksSeparatedExactly(s: seq<Interval>, m: seq<Interval>, cuts: seq<nat>)
    requires Sorted(s) && AreBlocks(s, m, cuts) && Unmergeable(m) && NonEmpty(m)
    ensures Separated(m) <==> !Interrupted(s)
  {
    if Interrupted(s) {
      var i, j, k :| 0 <= i < j < k < |s| && InterruptedBy(s, i, j, k);
      InterruptedTouches(s, m, cuts, i, j, k);
    }
    if !Separated(m) {
      var i, j :| 0 <= i < j < |m| && m[i].tag == m[j].tag && m[j].startsAt <= m[i].endsAt;
      TouchingIsInterrupted(s, m, cuts, i, j);
    }
  }

  /** Merged intervals of one tag are apart exactly when no two of them that touch are sorted apart
      by an interval with another tag. */
  lemma MergeSeparatesExactly(intervals: seq<Interval>)
    requires NonEmpty(intervals)
    ensures Separated(Merge(intervals)) <==> !Interrupted(SortIntervals(intervals))
  {
    var s := SortIntervals(intervals);
    SortIntervalsCorrect(intervals);
    SortNonEmpty(intervals);
    CoalesceCorrect(s);
    CoalesceNonEmpty(s);
    var cuts := CoalesceBlocks(s);
    BlocksSeparatedExactly(s, Merge(intervals), cuts);
  }

  /** Intervals that tie in the sort key have the same tag. */
  predicate KeyDecidesTag(intervals: seq<Interval>) {
    forall a, b :: a in intervals && b in intervals && SameKey(a.tag, b.tag) ==> a.tag == b.tag
  }

  lemma KeyDecidesUninterrupted(intervals: seq<Interval>)
    requires KeyDecidesTag(intervals)
    ensures !Interrupted(SortIntervals(intervals))
  {
    var s := SortIntervals(intervals);
    SortIntervalsCorrect(intervals);
    SortKeepsElements(intervals);
    forall i, j, k | 0 <= i < j < k < |s| && s[i].tag == s[k].tag ensures s[j].tag == s[i].tag {
      assert s[i] in s && s[j] in s;
      assert Leq(s[i], s[j]) && Leq(s[j], s[k]);
      assert SameKey(s[i].tag, s[j].tag);
    }
  }

  /** Two merged intervals with one tag never touch, when the sort key decides the tag. */
  lemma MergeSeparates(intervals: seq<Interval>)
    requires KeyDecidesTag(intervals) && NonEmpty(intervals)
    ensures Separated(Merge(intervals))
  {
    MergeSeparatesExactly(intervals);
    KeyDecidesUninterrupted(intervals);
  }

  /** That does not hold of every list: `excludeFromScore` separates tags but not sort keys. */
  lemma MergeMayLeaveOverlaps()
    ensures exists s: seq<Interval> :: NonEmpty(s) && !Separated(Merge(s))
  {
    var x := Tag(PRIORITY_AUTO_SUSPECT, Auto, Some(Suspect), true, false);
    var y := x.(excludeFromScore := false);
    var s := [Interval(0, 10, x), Interval(1, 2, y), Interval(5, 15, x)];
    assert Sorted(s) && Unmergeable(s);
    SortFixesSorted(s);
    CoalesceFixesUnmergeable(s);
    assert Merge(s) == s && s[0].tag == s[2].tag;
    assert !Separated(s);
  }

  /** The module builds no such list. */
  lemma BuiltKeyDecidesTag(intervals: seq<Interval>)
    requires AllBuilt(intervals)
    ensures KeyDecidesTag(intervals)
  {
  }
}
