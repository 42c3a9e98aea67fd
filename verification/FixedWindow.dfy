/** The fixed-window policy for one key, free of how a backend stores it. */
module FixedWindow {
  import opened Options

  /** A window that opened at `since` and has admitted `admitted` requests. */
  datatype Window = Window(since: real, admitted: nat)

  predicate IsOpen(w: Option<Window>, now: real, ttl: real) {
    w.Some? && now < w.value.since + ttl
  }

  predicate Admits(w: Option<Window>, now: real, limit: int, ttl: real) {
    IsOpen(w, now, ttl) ==> w.value.admitted < limit
  }

  function Next(w: Option<Window>, now: real, limit: int, ttl: real): Option<Window> {
    if !IsOpen(w, now, ttl) then Some(Window(now, 1))
    else if w.value.admitted < limit then Some(Window(w.value.since, w.value.admitted + 1))
    else w
  }

  /** The window after requests at the given times. */
  function After(times: seq<real>, limit: int, ttl: real): Option<Window> {
    if times == [] then None
    else Next(After(times[..|times| - 1], limit, ttl), times[|times| - 1], limit, ttl)
  }

  /** How many requests are admitted at a time in [from, to). */
  function Admissions(times: seq<real>, limit: int, ttl: real, from: real, to: real): nat {
    if times == [] then 0
    else
      var before, now := times[..|times| - 1], times[|times| - 1];
      Admissions(before, limit, ttl, from, to) +
      if from <= now < to && Admits(After(before, limit, ttl), now, limit, ttl) then 1 else 0
  }

  predicate Ascending(times: seq<real>) {
    forall i, j :: 0 <= i < j < |times| ==> times[i] <= times[j]
  }

  // ---------- the log of admissions ----------

  /** An admitted request: when it came and when its window opened. */
  datatype Hit = Hit(time: real, since: real)

  function Log(times: seq<real>, limit: int, ttl: real): seq<Hit> {
    if times == [] then []
    else
      var before, now := times[..|times| - 1], times[|times| - 1];
      Log(before, limit, ttl) +
      if Admits(After(before, limit, ttl), now, limit, ttl)
      then [Hit(now, Next(After(before, limit, ttl), now, limit, ttl).value.since)]
      else []
  }

  /** Hits of the window opened at `s`. */
  function Of(log: seq<Hit>, s: real): nat {
    if log == [] then 0
    else Of(log[..|log| - 1], s) + if log[|log| - 1].since == s then 1 else 0
  }

  /** Hits of that window that came after it opened. */
  function Late(log: seq<Hit>, s: real): nat {
    if log == [] then 0
    else Late(log[..|log| - 1], s) + if log[|log| - 1].since == s && log[|log| - 1].time > s then 1 else 0
  }

  function InSpan(log: seq<Hit>, from: real, to: real): nat {
    if log == [] then 0
    else InSpan(log[..|log| - 1], from, to) + if from <= log[|log| - 1].time < to then 1 else 0
  }

  lemma Snoc(log: seq<Hit>, h: Hit, s: real)
    ensures Of(log + [h], s) == Of(log, s) + if h.since == s then 1 else 0
    ensures Late(log + [h], s) == Late(log, s) + if h.since == s && h.time > s then 1 else 0
  {
    assert (log + [h])[..|log|] == log;
  }

  lemma {:induction false} OfAbsent(log: seq<Hit>, s: real)
    requires forall i :: 0 <= i < |log| ==> log[i].since != s
    ensures Of(log, s) == 0 && Late(log, s) == 0
  {
    if log != [] {
      OfAbsent(log[..|log| - 1], s);
    }
  }

  predicate HitWithin(h: Hit, ttl: real, last: real) {
    h.since <= h.time < h.since + ttl && h.time <= last
  }

  predicate Apart(s: real, t: real, ttl: real) {
    s == t || s + ttl <= t
  }

  /** A window admits at most `limit`, the first of them at the instant it opens. */
  predicate Capped(log: seq<Hit>, limit: int, s: real) {
    && Of(log, s) <= limit
    && (Late(log, s) < Of(log, s) || Late(log, s) == 0)
  }

  /** The hits lie in their windows, and the windows apart from each other and before the current one. */
  ghost predicate LogShape(log: seq<Hit>, w: Option<Window>, ttl: real, last: real) {
    && (forall i :: 0 <= i < |log| ==> HitWithin(log[i], ttl, last))
    && (forall i, j :: 0 <= i < j < |log| ==> Apart(log[i].since, log[j].since, ttl))
    && (w.None? ==> log == [])
    && (w.Some? ==> w.value.since <= last && forall i :: 0 <= i < |log| ==> Apart(log[i].since, w.value.since, ttl))
  }

  /** The current window's count is that of its hits. */
  predicate CountsHits(log: seq<Hit>, w: Option<Window>) {
    w.Some? ==> 1 <= w.value.admitted == Of(log, w.value.since)
  }

  ghost predicate LogInv(log: seq<Hit>, w: Option<Window>, limit: int, ttl: real, last: real) {
    LogShape(log, w, ttl, last) && CountsHits(log, w) && forall s :: Capped(log, limit, s)
  }

  lemma Later(log: seq<Hit>, w: Option<Window>, ttl: real, last: real, later: real)
    requires LogShape(log, w, ttl, last) && last <= later
    ensures LogShape(log, w, ttl, later)
  {
    forall i | 0 <= i < |log| ensures HitWithin(log[i], ttl, later) {
      assert HitWithin(log[i], ttl, last);
    }
  }

  lemma StepShape(log: seq<Hit>, w: Option<Window>, limit: int, ttl: real, now: real)
    requires ttl > 0.0 && LogShape(log, w, ttl, now) && Admits(w, now, limit, ttl)
    ensures var w' := Next(w, now, limit, ttl);
            LogShape(log + [Hit(now, w'.value.since)], w', ttl, now)
  {
    var since := Next(w, now, limit, ttl).value.since;
    forall i | 0 <= i < |log| ensures Apart(log[i].since, since, ttl) {
      assert Apart(log[i].since, w.value.since, ttl);
    }
  }

  /** A request after the window has closed is the first of its own. */
  lemma NewWindowAbsent(log: seq<Hit>, w: Option<Window>, ttl: real, now: real)
    requires ttl > 0.0 && LogShape(log, w, ttl, now) && !IsOpen(w, now, ttl)
    ensures Of(log, now) == 0 && Late(log, now) == 0
  {
    forall i | 0 <= i < |log| ensures log[i].since != now {
      assert Apart(log[i].since, w.value.since, ttl);
    }
    OfAbsent(log, now);
  }

  /** One more hit of a window that has room, on time when it is its first. */
  lemma CappedSnoc(log: seq<Hit>, h: Hit, limit: int, s: real)
    requires Capped(log, limit, s)
    requires h.since == s ==> Of(log, s) < limit && (Of(log, s) == 0 ==> h.time == s && Late(log, s) == 0)
    ensures Capped(log + [h], limit, s)
  {
    Snoc(log, h, s);
  }

  lemma StepCounts(log: seq<Hit>, w: Option<Window>, limit: int, ttl: real, now: real)
    requires limit >= 1 && ttl > 0.0 && LogShape(log, w, ttl, now) && CountsHits(log, w) && Admits(w, now, limit, ttl)
    ensures var w' := Next(w, now, limit, ttl);
      var since := w'.value.since;
      && CountsHits(log + [Hit(now, since)], w')
      && Of(log, since) < limit && (Of(log, since) == 0 ==> now == since && Late(log, since) == 0)
  {
    var since := Next(w, now, limit, ttl).value.since;
    if !IsOpen(w, now, ttl) {
      NewWindowAbsent(log, w, ttl, now);
    }
    Snoc(log, Hit(now, since), since);
  }

  lemma StepLog(log: seq<Hit>, w: Option<Window>, limit: int, ttl: real, now: real)
    requires limit >= 1 && ttl > 0.0 && LogInv(log, w, limit, ttl, now) && Admits(w, now, limit, ttl)
    ensures var w' := Next(w, now, limit, ttl);
            LogInv(log + [Hit(now, w'.value.since)], w', limit, ttl, now)
  {
    var h := Hit(now, Next(w, now, limit, ttl).value.since);
    StepShape(log, w, limit, ttl, now);
    StepCounts(log, w, limit, ttl, now);
    forall s ensures Capped(log + [h], limit, s) {
      assert Capped(log, limit, s);
      CappedSnoc(log, h, limit, s);
    }
  }

  lemma {:induction false} LogHolds(times: seq<real>, limit: int, ttl: real, last: real)
    requires limit >= 1 && ttl > 0.0 && Ascending(times)
    requires times != [] ==> times[|times| - 1] <= last
    ensures LogInv(Log(times, limit, ttl), After(times, limit, ttl), limit, ttl, last)
    decreases |times|
  {
    if times == [] {
      forall s ensures Capped([], limit, s) {}
    } else {
      var before, now := times[..|times| - 1], times[|times| - 1];
      LogHolds(before, limit, ttl, now);
      var log, w := Log(before, limit, ttl), After(before, limit, ttl);
      if Admits(w, now, limit, ttl) {
        StepLog(log, w, limit, ttl, now);
      } else {
        assert log + [] == log;
      }
      Later(Log(times, limit, ttl), After(times, limit, ttl), ttl, now, last);
    }
  }

  lemma {:induction false} LogCounts(times: seq<real>, limit: int, ttl: real, from: real, to: real)
    ensures InSpan(Log(times, limit, ttl), from, to) == Admissions(times, limit, ttl, from, to)
  {
    if times != [] {
      var before, now := times[..|times| - 1], times[|times| - 1];
      var log := Log(before, limit, ttl);
      LogCounts(before, limit, ttl, from, to);
      if Admits(After(before, limit, ttl), now, limit, ttl) {
        var h := Hit(now, Next(After(before, limit, ttl), now, limit, ttl).value.since);
        assert (log + [h])[..|log|] == log;
      } else {
        assert log + [] == log;
      }
    }
  }

  // ---------- the bound ----------

  /** Hits in a span all belong to one window, or came late in another. */
  lemma {:induction false} SpanSplits(log: seq<Hit>, from: real, to: real, late: real, s: real)
    requires forall i :: 0 <= i < |log| && from <= log[i].time < to ==>
               log[i].since == s || (log[i].since == late && log[i].time > late)
    ensures InSpan(log, from, to) <= Of(log, s) + Late(log, late)
  {
    if log != [] {
      SpanSplits(log[..|log| - 1], from, to, late, s);
    }
  }

  /** The window opening in [from, to), if there is one. */
  lemma Opening(log: seq<Hit>, from: real, to: real) returns (s: real)
    requires forall i, j :: 0 <= i < j < |log| ==> Apart(log[i].since, log[j].since, to - from)
    requires from < to
    ensures forall i :: 0 <= i < |log| && from <= log[i].since < to ==> log[i].since == s
  {
    s := from;
    if k :| 0 <= k < |log| && from <= log[k].since < to {
      s := log[k].since;
      forall i | 0 <= i < |log| && from <= log[i].since < to ensures log[i].since == s {
        if i < k {
          assert Apart(log[i].since, log[k].since, to - from);
        } else if k < i {
          assert Apart(log[k].since, log[i].since, to - from);
        }
      }
    }
  }

  /** Any span as long as the window holds at most 2 * limit - 1 admissions. */
  lemma SpanBound(times: seq<real>, limit: int, ttl: real, from: real)
    requires limit >= 1 && ttl > 0.0 && Ascending(times)
    ensures Admissions(times, limit, ttl, from, from + ttl) <= 2 * limit - 1
  {
    var last := if times == [] then 0.0 else times[|times| - 1];
    var log := Log(times, limit, ttl);
    LogHolds(times, limit, ttl, last);
    LogCounts(times, limit, ttl, from, from + ttl);
    var s := Opening(log, from, from + ttl);
    var late := Opening(log, from - ttl, from);
    forall i | 0 <= i < |log| && from <= log[i].time < from + ttl
      ensures log[i].since == s || (log[i].since == late && log[i].time > late)
    {
      assert HitWithin(log[i], ttl, last);
    }
    SpanSplits(log, from, from + ttl, late, s);
    assert Capped(log, limit, s) && Capped(log, limit, late);
  }

  lemma Extend(times: seq<real>, now: real, limit: int, ttl: real, from: real, to: real)
    ensures After(times + [now], limit, ttl) == Next(After(times, limit, ttl), now, limit, ttl)
    ensures Admissions(times + [now], limit, ttl, from, to) == Admissions(times, limit, ttl, from, to) +
            if from <= now < to && Admits(After(times, limit, ttl), now, limit, ttl) then 1 else 0
  {
    assert (times + [now])[..|times|] == times;
  }

  predicate Until(times: seq<real>, now: real) {
    Ascending(times) && forall i :: 0 <= i < |times| ==> times[i] <= now
  }

  /** Requests at one instant of an open window are admitted until the limit. */
  lemma {:induction false} Burst(times: seq<real>, w: Window, limit: int, ttl: real, now: real, n: nat, from: real, to: real)
    returns (longer: seq<real>)
    requires Until(times, now) && After(times, limit, ttl) == Some(w)
    requires IsOpen(Some(w), now, ttl) && w.admitted + n <= limit && from <= now < to
    ensures Until(longer, now) && After(longer, limit, ttl) == Some(Window(w.since, w.admitted + n))
    ensures Admissions(longer, limit, ttl, from, to) == Admissions(times, limit, ttl, from, to) + n
  {
    if n == 0 {
      longer := times;
    } else {
      var shorter := Burst(times, w, limit, ttl, now, n - 1, from, to);
      Extend(shorter, now, limit, ttl, from, to);
      longer := shorter + [now];
    }
  }

  /** A request after a window has closed opens the next one. */
  lemma Reopen(times: seq<real>, limit: int, ttl: real, now: real, from: real, to: real) returns (longer: seq<real>)
    requires Until(times, now) && !IsOpen(After(times, limit, ttl), now, ttl)
    ensures Until(longer, now) && After(longer, limit, ttl) == Some(Window(now, 1))
    ensures Admissions(longer, limit, ttl, from, to)
         == Admissions(times, limit, ttl, from, to) + if from <= now < to then 1 else 0
  {
    Extend(times, now, limit, ttl, from, to);
    longer := times + [now];
  }

  /** The bound is reached: one request opens a window, the rest of it is used
      up before it closes and a full burst follows the moment it has closed. */
  lemma SpanBoundIsSharp(limit: int, ttl: real) returns (times: seq<real>, from: real)
    requires limit >= 1 && ttl > 0.0
    ensures Ascending(times)
    ensures Admissions(times, limit, ttl, from, from + ttl) == 2 * limit - 1
  {
    from := ttl / 2.0;
    var to := from + ttl;
    var first := Reopen([], limit, ttl, 0.0, from, to);
    var used := Burst(first, Window(0.0, 1), limit, ttl, from, limit - 1, from, to);
    var reopened := Reopen(used, limit, ttl, ttl, from, to);
    times := Burst(reopened, Window(ttl, 1), limit, ttl, ttl, limit - 1, from, to);
  }
}
