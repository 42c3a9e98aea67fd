/** What the permission resolver answers and caches in every interleaving, told from the events: the
    fetches that end, the calls that begin, the invalidations. */
module PermsAnswers {
  import opened Options
  import opened PermsProtocol
  import opened PermsRuns

  // ---- a fetch and the event that ends it ----

  /** The fetch is done, with these permissions at this time. */
  ghost predicate DoneAt(events: seq<Event>, f: nat, t: nat, perms: Perms, at: int) {
    f < |events| && events[f] == FetchDone(t, perms, at)
  }

  /** What the event does to the outcome of a fetch that is already there. */
  lemma OutcomeStep(s: State, e: Event, t: nat)
    requires Enabled(s, e) && t in s.tasks && t < s.clock
    ensures t in Step(s, e).tasks && Step(s, e).tasks[t].key == s.tasks[t].key
    ensures Step(s, e).tasks[t].outcome
         == if e.FetchDone? && e.task == t then Fetched(Entry(e.perms, e.now, t))
            else if e.FetchFails? && e.task == t then Failed
            else s.tasks[t].outcome
  {
  }

  lemma RunOutcomeStep(maxEntries: int, ttl: int, states: seq<State>, events: seq<Event>, k: nat, t: nat)
    requires IsRun(maxEntries, ttl, states, events) && k < |events| && t in states[k].tasks
    ensures Enabled(states[k], events[k])
    ensures t in states[k + 1].tasks && states[k + 1].tasks[t].key == states[k].tasks[t].key
    ensures states[k + 1].tasks[t].outcome
         == if events[k].FetchDone? && events[k].task == t then Fetched(Entry(events[k].perms, events[k].now, t))
            else if events[k].FetchFails? && events[k].task == t then Failed
            else states[k].tasks[t].outcome
  {
    RunInv(maxEntries, ttl, states, events, k);
    assert TaskStamp(states[k], t);
    assert StepAt(states, events, k);
    OutcomeStep(states[k], events[k], t);
  }

  /** A fetch that is done stays done, with the permissions of the event. */
  lemma {:induction false} DoneStays(maxEntries: int, ttl: int, states: seq<State>, events: seq<Event>,
                                     f: nat, k: nat, t: nat, perms: Perms, at: int)
    requires IsRun(maxEntries, ttl, states, events) && f < k < |states| && DoneAt(events, f, t, perms, at)
    ensures t in states[k].tasks && states[k].tasks[t].outcome == Fetched(Entry(perms, at, t))
  {
    var j := k - 1;
    if f < j {
      DoneStays(maxEntries, ttl, states, events, f, j, t, perms, at);
    } else {
      assert StepAt(states, events, j);
    }
    RunOutcomeStep(maxEntries, ttl, states, events, j, t);
    assert states[j + 1] == states[k];
  }

  lemma NewTaskIsPending(s: State, e: Event, t: nat)
    requires Enabled(s, e) && t !in s.tasks && t in Step(s, e).tasks
    ensures Step(s, e).tasks[t].outcome.Pending?
  {
  }

  /** And a fetch with an outcome got it from an event. */
  lemma {:induction false} FetchedWasDone(maxEntries: int, ttl: int, states: seq<State>, events: seq<Event>,
                                          k: nat, t: nat) returns (f: nat)
    requires IsRun(maxEntries, ttl, states, events) && k < |states| && t in states[k].tasks
    requires states[k].tasks[t].outcome.Fetched?
    ensures f < k
    ensures var entry := states[k].tasks[t].outcome.entry;
      entry.started == t && DoneAt(events, f, t, entry.perms, entry.fetchedAt)
  {
    assert k > 0;
    var j := k - 1;
    assert StepAt(states, events, j);
    if t in states[j].tasks {
      RunOutcomeStep(maxEntries, ttl, states, events, j, t);
      if states[j].tasks[t].outcome.Fetched? {
        f := FetchedWasDone(maxEntries, ttl, states, events, j, t);
      } else {
        f := j;
      }
    } else {
      NewTaskIsPending(states[j], events[j], t);
    }
    assert states[j + 1] == states[k];
  }

  /** Every answer is what a fetch for exactly the key that was asked returned. */
  lemma AnswerWasFetched(maxEntries: int, ttl: int, states: seq<State>, events: seq<Event>, k: nat, r: int)
    returns (f: nat)
    requires IsRun(maxEntries, ttl, states, events) && k < |states|
    requires r in states[k].readers && states[k].readers[r].phase.Answered?
    ensures f < k
    ensures var reader := states[k].readers[r];
      var entry := reader.phase.entry;
      && DoneAt(events, f, entry.started, entry.perms, entry.fetchedAt)
      && entry.started in states[k].tasks && states[k].tasks[entry.started].key == reader.key
  {
    RunReader(maxEntries, ttl, states, events, k, r);
    f := FetchedWasDone(maxEntries, ttl, states, events, k, states[k].readers[r].phase.entry.started);
  }

  /** So is everything in the cache. */
  lemma CachedWasFetched(maxEntries: int, ttl: int, states: seq<State>, events: seq<Event>, k: nat, key: Key)
    returns (f: nat)
    requires IsRun(maxEntries, ttl, states, events) && k < |states| && key in states[k].cache
    ensures f < k
    ensures var entry := states[k].cache[key];
      && DoneAt(events, f, entry.started, entry.perms, entry.fetchedAt)
      && entry.started in states[k].tasks && states[k].tasks[entry.started].key == key
  {
    RunInv(maxEntries, ttl, states, events, k);
    assert EntryFresh(states[k], key);
    f := FetchedWasDone(maxEntries, ttl, states, events, k, states[k].cache[key].started);
  }

  // ---- the time to live ----

  lemma StepKeepsTtl(s: State, e: Event)
    requires Enabled(s, e)
    ensures Step(s, e).ttl == s.ttl
  {
  }

  lemma {:induction false} RunTtl(maxEntries: int, ttl: int, states: seq<State>, events: seq<Event>, k: nat)
    requires IsRun(maxEntries, ttl, states, events) && k < |states|
    ensures states[k].ttl == ttl
  {
    if k > 0 {
      var j := k - 1;
      RunTtl(maxEntries, ttl, states, events, j);
      assert StepAt(states, events, j);
      StepKeepsTtl(states[j], events[j]);
      assert states[j + 1] == states[k];
    }
  }

  lemma BeginAnswers(s: State, r: int, key: Key, now: int)
    requires Enabled(s, Begin(r, key, now))
    ensures var s' := Step(s, Begin(r, key, now));
      && r in s'.readers && s'.readers[r].key == key
      && (s'.readers[r].phase.Answered? <==> key in s.cache && now - s.cache[key].fetchedAt < s.ttl)
      && (s'.readers[r].phase.Answered? ==> s'.readers[r].phase.entry == s.cache[key])
  {
  }

  /** A call is answered at once exactly when its key is cached and the fetch of the cached answer was done
      less than the time to live ago; then with the permissions of that fetch. */
  lemma AnsweredAtOnceExactly(maxEntries: int, ttl: int, states: seq<State>, events: seq<Event>,
                              b: nat, f: nat, t: nat, perms: Perms, at: int)
    requires IsRun(maxEntries, ttl, states, events) && b < |events| && events[b].Begin?
    requires events[b].key in states[b].cache && states[b].cache[events[b].key].started == t
    requires f < b && DoneAt(events, f, t, perms, at)
    ensures var r, now := events[b].reader, events[b].now;
      && r in states[b + 1].readers
      && (states[b + 1].readers[r].phase.Answered? <==> now - at < ttl)
      && (states[b + 1].readers[r].phase.Answered? ==> states[b + 1].readers[r].phase.entry.perms == perms)
  {
    var key := events[b].key;
    RunTtl(maxEntries, ttl, states, events, b);
    RunInv(maxEntries, ttl, states, events, b);
    assert EntryFresh(states[b], key);
    DoneStays(maxEntries, ttl, states, events, f, b, t, perms, at);
    assert StepAt(states, events, b);
    BeginAnswers(states[b], events[b].reader, key, events[b].now);
  }

  /** A key that is not cached is never answered at once. */
  lemma MissWaits(maxEntries: int, ttl: int, states: seq<State>, events: seq<Event>, b: nat)
    requires IsRun(maxEntries, ttl, states, events) && b < |events| && events[b].Begin?
    requires events[b].key !in states[b].cache
    ensures events[b].reader in states[b + 1].readers && !states[b + 1].readers[events[b].reader].phase.Answered?
  {
    assert StepAt(states, events, b);
    BeginAnswers(states[b], events[b].reader, events[b].key, events[b].now);
  }

  /** No answer given at once is as old as the time to live. */
  lemma AnswerIsYoung(maxEntries: int, ttl: int, states: seq<State>, events: seq<Event>, b: nat)
    returns (f: nat, t: nat, perms: Perms, at: int)
    requires IsRun(maxEntries, ttl, states, events) && b < |events| && events[b].Begin?
    requires events[b].reader in states[b + 1].readers && states[b + 1].readers[events[b].reader].phase.Answered?
    ensures f < b && DoneAt(events, f, t, perms, at) && events[b].now - at < ttl
    ensures t in states[b].tasks && states[b].tasks[t].key == events[b].key
    ensures states[b + 1].readers[events[b].reader].phase.entry.perms == perms
  {
    var key := events[b].key;
    if key !in states[b].cache {
      MissWaits(maxEntries, ttl, states, events, b);
    }
    f := CachedWasFetched(maxEntries, ttl, states, events, b, key);
    var entry := states[b].cache[key];
    t, perms, at := entry.started, entry.perms, entry.fetchedAt;
    AnsweredAtOnceExactly(maxEntries, ttl, states, events, b, f, t, perms, at);
  }

  // ---- what changes the cache ----

  /** Besides a store, only an invalidation changes the cache: it drops the answers of its users and no
      others, and a clear drops all. */
  lemma CacheChangesExactly(s: State, e: Event)
    requires Enabled(s, e) && !e.OwnerResumes?
    ensures var s' := Step(s, e);
      match e
      case InvalidateMany(users) =>
        && (forall k :: k in s'.cache <==> k in s.cache && k.user !in users)
        && (forall k :: k in s'.cache ==> s'.cache[k] == s.cache[k])
      case Clear => s'.cache == map[]
      case _ => s'.cache == s.cache
  {
  }

  // ---- what an invalidation fences, from the events ----

  /** After the step that started fetch t, and before step k, the user was invalidated. */
  ghost predicate InvalidatedSince(events: seq<Event>, t: nat, k: nat, user: User)
    requires k <= |events|
  {
    exists j :: t <= j < k && Invalidates(events[j], user)
  }

  lemma FloorStands(s: State, e: Event, user: User)
    requires Enabled(s, e) && Floor(s, user) < s.clock && !Invalidates(e, user)
    ensures Floor(Step(s, e), user) == Floor(s, user)
  {
    if e.InvalidateMany? {
      InvalidateRaisesFloor(s, e.users, user);
      SameFloor(DoInvalidate(s, e.users), Step(s, e));
    } else {
      OthersKeepFloors(s, e);
      SameFloor(s, Step(s, e));
    }
  }

  lemma {:induction false} FloorWasInvalidation(maxEntries: int, ttl: int, states: seq<State>, events: seq<Event>,
                                                k: nat, user: User) returns (j: nat)
    requires IsRun(maxEntries, ttl, states, events) && k < |states| && Floor(states[k], user) > 0
    ensures j < k && Invalidates(events[j], user) && Floor(states[k], user) == j + 1
  {
    assert k > 0;
    j := k - 1;
    RunFloor(maxEntries, ttl, states, events, j, user);
    RunFloorGrows(maxEntries, ttl, states, events, j, user);
    if !Invalidates(events[j], user) {
      assert StepAt(states, events, j);
      FloorStands(states[j], events[j], user);
      assert states[j + 1] == states[k];
      j := FloorWasInvalidation(maxEntries, ttl, states, events, j, user);
    }
  }

  /** The captured epoch of a running fetch is current exactly when its user was not invalidated since. */
  lemma UnfencedExactly(maxEntries: int, ttl: int, states: seq<State>, events: seq<Event>, k: nat, t: nat)
    requires IsRun(maxEntries, ttl, states, events) && k < |states|
    requires t in states[k].tasks && states[k].tasks[t].owned
    ensures Unfenced(states[k], states[k].tasks[t])
       <==> !InvalidatedSince(events, t, k, states[k].tasks[t].key.user)
    ensures Fresh(states[k], t) <==> !InvalidatedSince(events, t, k, states[k].tasks[t].key.user)
  {
    var user := states[k].tasks[t].key.user;
    RunInv(maxEntries, ttl, states, events, k);
    assert TaskFence(states[k], t);
    TaskWasStarted(maxEntries, ttl, states, events, k, t);
    if Floor(states[k], user) >= t {
      var j := FloorWasInvalidation(maxEntries, ttl, states, events, k, user);
      assert t <= j < k && Invalidates(events[j], user);
    }
    if InvalidatedSince(events, t, k, user) {
      var j :| t <= j < k && Invalidates(events[j], user);
      FloorStays(maxEntries, ttl, states, events, j, k, user);
      RunFloor(maxEntries, ttl, states, events, j, user);
    }
  }

  // ---- joining and starting ----

  /** A fetch for the key is running that no invalidation has fenced. */
  ghost predicate IsRunning(states: seq<State>, events: seq<Event>, k: nat, key: Key, t: nat)
    requires k < |states| == |events| + 1
  {
    && t in states[k].tasks && states[k].tasks[t].key == key && states[k].tasks[t].owned
    && !InvalidatedSince(events, t, k, key.user)
  }

  lemma BeginWaits(s: State, r: int, key: Key, now: int)
    requires Enabled(s, Begin(r, key, now)) && !(key in s.cache && now - s.cache[key].fetchedAt < s.ttl)
    ensures var s' := Step(s, Begin(r, key, now));
      && r in s'.readers
      && s'.readers[r].phase == if key in s.inflight then Waiting(s.inflight[key]) else AtLock
  {
  }

  /** A fetch is in flight for the key exactly when one is running. */
  lemma InflightIsRunning(maxEntries: int, ttl: int, states: seq<State>, events: seq<Event>, k: nat, key: Key)
    requires IsRun(maxEntries, ttl, states, events) && k < |states|
    ensures forall t :: IsRunning(states, events, k, key, t) <==>
              key in states[k].inflight && states[k].inflight[key] == t
  {
    var s := states[k];
    RunInv(maxEntries, ttl, states, events, k);
    forall t | IsRunning(states, events, k, key, t) ensures key in s.inflight && s.inflight[key] == t {
      UnfencedExactly(maxEntries, ttl, states, events, k, t);
      assert TaskInflight(s, t);
    }
    if key in s.inflight {
      var t := s.inflight[key];
      assert TaskInflight(s, t);
      UnfencedExactly(maxEntries, ttl, states, events, k, t);
      assert IsRunning(states, events, k, key, t);
    }
  }

  /** A call that is not answered at once joins the running fetch of its key, and goes to the lock exactly
      when there is none. */
  lemma MissJoinsOrQueues(maxEntries: int, ttl: int, states: seq<State>, events: seq<Event>, b: nat)
    requires IsRun(maxEntries, ttl, states, events) && b < |events| && events[b].Begin?
    requires events[b].reader in states[b + 1].readers
             ==> !states[b + 1].readers[events[b].reader].phase.Answered?
    ensures events[b].reader in states[b + 1].readers
    ensures var phase := states[b + 1].readers[events[b].reader].phase;
      && (forall t :: IsRunning(states, events, b, events[b].key, t) ==> phase == Waiting(t))
      && ((forall t :: !IsRunning(states, events, b, events[b].key, t)) ==> phase == AtLock)
  {
    assert StepAt(states, events, b);
    var key := events[b].key;
    BeginAnswers(states[b], events[b].reader, key, events[b].now);
    BeginWaits(states[b], events[b].reader, key, events[b].now);
    InflightIsRunning(maxEntries, ttl, states, events, b, key);
    if key in states[b].inflight {
      assert IsRunning(states, events, b, key, states[b].inflight[key]);
    }
  }

  lemma EnterOutcome(s: State, r: int)
    requires Enabled(s, Enter(r))
    ensures var s', key := Step(s, Enter(r)), s.readers[r].key;
      && r in s'.readers
      && (if key in s.inflight then s'.readers[r].phase == Waiting(s.inflight[key]) && s'.tasks == s.tasks
          else s'.readers[r].phase == Owning(s.clock) && s.clock in s'.tasks
               && s'.tasks[s.clock].key == key && s'.tasks[s.clock].outcome.Pending?)
  {
  }

  /** Under the lock a call joins the running fetch of its key, and starts one exactly when there is none. */
  lemma JoinsOrStarts(maxEntries: int, ttl: int, states: seq<State>, events: seq<Event>, k: nat, r: int)
    requires IsRun(maxEntries, ttl, states, events) && k < |events| && events[k] == Enter(r)
    ensures r in states[k].readers && r in states[k + 1].readers
    ensures forall t :: IsRunning(states, events, k, states[k].readers[r].key, t)
              ==> states[k + 1].readers[r].phase == Waiting(t) && states[k + 1].tasks == states[k].tasks
    ensures (forall t :: !IsRunning(states, events, k, states[k].readers[r].key, t))
              ==> && states[k + 1].readers[r].phase == Owning(k + 1) && k + 1 in states[k + 1].tasks
                  && states[k + 1].tasks[k + 1].key == states[k].readers[r].key
                  && states[k + 1].tasks[k + 1].outcome.Pending?
  {
    var s := states[k];
    assert StepAt(states, events, k);
    RunInv(maxEntries, ttl, states, events, k);
    EnterOutcome(s, r);
    var key := s.readers[r].key;
    InflightIsRunning(maxEntries, ttl, states, events, k, key);
    if key in s.inflight {
      assert IsRunning(states, events, k, key, s.inflight[key]);
    }
  }

  // ---- resuming ----

  lemma JoinerOutcome(s: State, r: int)
    requires Enabled(s, JoinerResumes(r))
    ensures var s', outcome := Step(s, JoinerResumes(r)), s.tasks[s.readers[r].phase.task].outcome;
      && r in s'.readers && s'.cache == s.cache
      && s'.readers[r].phase == if outcome.Fetched? then Answered(outcome.entry) else Raised
  {
  }

  /** A call that joined a fetch gets what the fetch returned. */
  lemma JoinerGetsTheFetch(maxEntries: int, ttl: int, states: seq<State>, events: seq<Event>, k: nat, r: int,
                           f: nat, perms: Perms, at: int)
    requires IsRun(maxEntries, ttl, states, events) && k < |events| && events[k] == JoinerResumes(r)
    requires r in states[k].readers && states[k].readers[r].phase.Waiting?
    requires f < k && DoneAt(events, f, states[k].readers[r].phase.task, perms, at)
    ensures r in states[k + 1].readers
    ensures states[k + 1].readers[r].phase == Answered(Entry(perms, at, states[k].readers[r].phase.task))
  {
    DoneStays(maxEntries, ttl, states, events, f, k, states[k].readers[r].phase.task, perms, at);
    assert StepAt(states, events, k);
    JoinerOutcome(states[k], r);
  }

  /** The new cache of an owner that stores: one oldest answer goes exactly when the key is new and there is
      no room, and nothing else changes. */
  ghost predicate Replaces(before: map<Key, Entry>, after: map<Key, Entry>, maxEntries: int, key: Key, entry: Entry) {
    && key in after && after[key] == entry
    && (forall x :: x in after && x != key ==> x in before && after[x] == before[x])
    && (if key in before || |before| < maxEntries then forall x :: x in before ==> x in after
        else exists victim :: victim in before && victim !in after
               && (forall x :: x in before && x != victim ==> x in after)
               && forall x :: x in before ==> before[victim].fetchedAt <= before[x].fetchedAt)
  }

  lemma StoreReplaces(s: State, key: Key, entry: Entry, victim: Key)
    requires NeedsEviction(s, key) ==> IsOldest(s.cache, victim)
    ensures Replaces(s.cache, Store(s, key, entry, victim), s.maxEntries, key, entry)
  {
    if NeedsEviction(s, key) {
      assert victim in s.cache && victim !in Store(s, key, entry, victim);
    }
  }

  lemma OwnerOutcome(s: State, s': State, r: int, t: nat, aborted: bool, victim: Key, entry: Entry)
    requires Finishes(s, s', r, t, aborted, victim) && s.tasks[t].outcome == Fetched(entry) && !aborted
    requires |s.cache| <= if s.maxEntries > 0 then s.maxEntries else 0
    requires Stores(s, s.tasks[t], aborted) && NeedsEviction(s, s.tasks[t].key) ==> IsOldest(s.cache, victim)
    ensures r in s'.readers
    ensures Unfenced(s, s.tasks[t]) && s.maxEntries > 0 ==>
      Replaces(s.cache, s'.cache, s.maxEntries, s.tasks[t].key, entry)
    ensures !Unfenced(s, s.tasks[t]) || s.maxEntries <= 0 ==> s'.cache == s.cache
    ensures s'.readers[r].phase
         == if Unfenced(s, s.tasks[t]) && s.maxEntries <= 0 then Raised else Answered(entry)
  {
    if Unfenced(s, s.tasks[t]) && s.maxEntries > 0 {
      assert Stores(s, s.tasks[t], aborted);
      StoreReplaces(s, s.tasks[t].key, entry, victim);
    }
  }

  /** An owner whose fetch is done answers with it. It stores the answer exactly when its user was not
      invalidated since the fetch started and the cache may hold anything at all; a cache that may not makes
      the store, and so the call, raise. */
  lemma OwnerStoresExactly(maxEntries: int, ttl: int, states: seq<State>, events: seq<Event>, k: nat, r: int,
                           victim: Key, f: nat, t: nat, perms: Perms, at: int)
    requires IsRun(maxEntries, ttl, states, events) && k < |events| && events[k] == OwnerResumes(r, false, victim)
    requires r in states[k].readers && states[k].readers[r].phase == Owning(t)
    requires f < k && DoneAt(events, f, t, perms, at)
    ensures t in states[k].tasks && r in states[k + 1].readers
    ensures var key, entry := states[k].tasks[t].key, Entry(perms, at, t);
      var fenced := InvalidatedSince(events, t, k, key.user);
      && (!fenced && maxEntries > 0 ==> Replaces(states[k].cache, states[k + 1].cache, maxEntries, key, entry))
      && (fenced || maxEntries <= 0 ==> states[k + 1].cache == states[k].cache)
      && states[k + 1].readers[r].phase == if !fenced && maxEntries <= 0 then Raised else Answered(entry)
  {
    var s := states[k];
    RunInv(maxEntries, ttl, states, events, k);
    assert StepAt(states, events, k);
    DoneStays(maxEntries, ttl, states, events, f, k, t, perms, at);
    assert ReaderOk(s, s.readers[r]);
    UnfencedExactly(maxEntries, ttl, states, events, k, t);
    StepFinishes(s, r, false, victim);
    OwnerOutcome(s, states[k + 1], r, t, false, victim, Entry(perms, at, t));
  }

  /** An owner that is cancelled, or whose fetch failed, raises and stores nothing. */
  lemma OwnerRaises(s: State, r: int, aborted: bool, victim: Key)
    requires Enabled(s, OwnerResumes(r, aborted, victim))
    requires aborted || s.tasks[s.readers[r].phase.task].outcome.Failed?
    ensures var s' := Step(s, OwnerResumes(r, aborted, victim));
      r in s'.readers && s'.readers[r].phase == Raised && s'.cache == s.cache
  {
    StepFinishes(s, r, aborted, victim);
  }
}
