/** What holds in every interleaving of the permission resolver's steps. */
module PermsRuns {
  import opened PermsProtocol

  ghost predicate StepsTo(s: State, e: Event, s': State) {
    Enabled(s, e) && s' == Step(s, e)
  }

  ghost predicate StepAt(states: seq<State>, events: seq<Event>, k: int)
    requires 0 <= k < |events| && |states| == |events| + 1
  {
    StepsTo(states[k], events[k], states[k + 1])
  }

  /** A run from the fresh resolver: any interleaving of enabled steps. */
  ghost predicate IsRun(maxEntries: int, ttl: int, states: seq<State>, events: seq<Event>) {
    && |states| == |events| + 1
    && states[0] == Init(maxEntries, ttl)
    && forall k :: 0 <= k < |events| ==> StepAt(states, events, k)
  }

  lemma StepTicks(s: State, e: Event)
    requires Enabled(s, e)
    ensures Step(s, e).clock == s.clock + 1 && Step(s, e).maxEntries == s.maxEntries
  {
  }

  lemma StepsToInv(s: State, e: Event, s': State)
    requires Inv(s) && StepsTo(s, e, s')
    ensures Inv(s') && s'.clock == s.clock + 1 && s'.maxEntries == s.maxEntries
  {
    StepTicks(s, e);
    assert Inv(Step(s, e)) by {
      StepInv(s, e);
    }
  }

  lemma RunKeepsInv(maxEntries: int, ttl: int, states: seq<State>, events: seq<Event>, k: nat)
    requires IsRun(maxEntries, ttl, states, events) && k < |events| && Inv(states[k])
    ensures Inv(states[k + 1])
    ensures states[k + 1].clock == states[k].clock + 1 && states[k + 1].maxEntries == states[k].maxEntries
  {
    assert StepAt(states, events, k);
    StepsToInv(states[k], events[k], states[k + 1]);
  }

  lemma {:induction false} RunInv(maxEntries: int, ttl: int, states: seq<State>, events: seq<Event>, k: nat)
    requires IsRun(maxEntries, ttl, states, events) && k < |states|
    ensures Inv(states[k])
    ensures states[k].clock == k + 1 && states[k].maxEntries == maxEntries
  {
    if k == 0 {
      InitInv(maxEntries, ttl);
      assert states[0] == Init(maxEntries, ttl);
    } else {
      var j := k - 1;
      RunInv(maxEntries, ttl, states, events, j);
      RunKeepsInv(maxEntries, ttl, states, events, j);
      assert states[j + 1] == states[k];
    }
  }

  /** The step invalidates the user: by name, or with everybody. */
  predicate Invalidates(e: Event, user: User) {
    e.Clear? || (e.InvalidateMany? && user in e.users)
  }

  lemma OthersKeepFloors(s: State, e: Event)
    requires Enabled(s, e) && !e.InvalidateMany? && !e.Clear?
    ensures Step(s, e).invalidatedAt == s.invalidatedAt && Step(s, e).clearedAt == s.clearedAt
  {
  }

  lemma InvalidateRaisesFloor(s: State, users: set<User>, user: User)
    requires Floor(s, user) < s.clock
    ensures Floor(DoInvalidate(s, users), user) == if user in users then s.clock else Floor(s, user)
  {
  }

  lemma FloorGrows(s: State, e: Event, user: User)
    requires Floor(s, user) < s.clock && Enabled(s, e)
    ensures Floor(s, user) <= Floor(Step(s, e), user)
    ensures Invalidates(e, user) ==> Floor(Step(s, e), user) == s.clock
  {
    if e.InvalidateMany? {
      InvalidateRaisesFloor(s, e.users, user);
      SameFloor(DoInvalidate(s, e.users), Step(s, e));
    } else if e.Clear? {
      InvalidateRaisesFloor(s, (set k | k in s.cache :: k.user) + s.running.Keys, user);
    } else {
      OthersKeepFloors(s, e);
      SameFloor(s, Step(s, e));
    }
  }

  lemma RunFloor(maxEntries: int, ttl: int, states: seq<State>, events: seq<Event>, k: nat, user: User)
    requires IsRun(maxEntries, ttl, states, events) && k < |states|
    ensures Floor(states[k], user) < states[k].clock == k + 1
  {
    RunInv(maxEntries, ttl, states, events, k);
  }

  lemma RunFloorGrows(maxEntries: int, ttl: int, states: seq<State>, events: seq<Event>, k: nat, user: User)
    requires IsRun(maxEntries, ttl, states, events) && k < |events| && Floor(states[k], user) < states[k].clock
    ensures Floor(states[k], user) <= Floor(states[k + 1], user)
    ensures Invalidates(events[k], user) ==> Floor(states[k + 1], user) == states[k].clock
  {
    assert StepAt(states, events, k);
    FloorGrows(states[k], events[k], user);
  }

  lemma RunReader(maxEntries: int, ttl: int, states: seq<State>, events: seq<Event>, k: nat, r: int)
    requires IsRun(maxEntries, ttl, states, events) && k < |states| && r in states[k].readers
    ensures ReaderOk(states[k], states[k].readers[r])
  {
    RunInv(maxEntries, ttl, states, events, k);
  }

  /** A reader keeps what it asked and the floor it began with; a new one begins with the current floor. */
  ghost predicate Extends(s: State, s': State, r: int) {
    r in s'.readers ==>
      if r in s.readers then s'.readers[r].key == s.readers[r].key && s'.readers[r].floor == s.readers[r].floor
      else s'.readers[r].floor == Floor(s, s'.readers[r].key.user)
  }

  lemma OthersKeepReaders(s: State, e: Event)
    requires Enabled(s, e) && (e.FetchDone? || e.FetchFails? || e.InvalidateMany? || e.Clear?)
    ensures Step(s, e).readers == s.readers
  {
  }

  lemma StepExtends(s: State, e: Event, r: int)
    requires Enabled(s, e)
    ensures Extends(s, Step(s, e), r)
  {
    if e.FetchDone? || e.FetchFails? || e.InvalidateMany? || e.Clear? {
      OthersKeepReaders(s, e);
    } else if e.OwnerResumes? {
      StepFinishes(s, e.reader, e.aborted, e.victim);
    }
  }

  lemma RunExtends(maxEntries: int, ttl: int, states: seq<State>, events: seq<Event>, k: nat, r: int)
    requires IsRun(maxEntries, ttl, states, events) && k < |events|
    ensures Extends(states[k], states[k + 1], r)
  {
    assert StepAt(states, events, k);
    StepExtends(states[k], events[k], r);
  }

  /** After an invalidation the user's floor stays at or above it. */
  lemma {:induction false} FloorStays(maxEntries: int, ttl: int, states: seq<State>, events: seq<Event>,
                                      a: nat, k: nat, user: User)
    requires IsRun(maxEntries, ttl, states, events) && a < k < |states|
    requires Invalidates(events[a], user)
    ensures Floor(states[k], user) >= states[a].clock
  {
    RunFloor(maxEntries, ttl, states, events, k - 1, user);
    RunFloorGrows(maxEntries, ttl, states, events, k - 1, user);
    if a < k - 1 {
      FloorStays(maxEntries, ttl, states, events, a, k - 1, user);
    }
  }

  /** A reader that had not begun at step b carries a floor at or above every earlier invalidation. */
  lemma {:induction false} LaterReaderFloor(maxEntries: int, ttl: int, states: seq<State>, events: seq<Event>,
                                            a: nat, b: nat, c: nat, r: int)
    requires IsRun(maxEntries, ttl, states, events) && a < b <= c < |states|
    requires r !in states[b].readers && r in states[c].readers
    requires Invalidates(events[a], states[c].readers[r].key.user)
    ensures states[c].readers[r].floor >= states[a].clock
    decreases c
  {
    assert b < c;
    RunExtends(maxEntries, ttl, states, events, c - 1, r);
    if r in states[c - 1].readers {
      LaterReaderFloor(maxEntries, ttl, states, events, a, b, c - 1, r);
    } else {
      FloorStays(maxEntries, ttl, states, events, a, c - 1, states[c].readers[r].key.user);
    }
  }

  /** Where a fetch was started: the step that put it among the tasks. */
  ghost predicate StartedAt(states: seq<State>, d: nat, t: nat) {
    d + 1 < |states| && t !in states[d].tasks && t in states[d + 1].tasks
  }

  /** The only step that adds a task names it after the clock. */
  lemma NewTask(s: State, e: Event, s': State, t: nat)
    requires StepsTo(s, e, s') && t !in s.tasks && t in s'.tasks
    ensures e.Enter? && t == s.clock
  {
  }

  lemma {:induction false} TaskWasStarted(maxEntries: int, ttl: int, states: seq<State>, events: seq<Event>,
                                          k: nat, t: nat)
    requires IsRun(maxEntries, ttl, states, events) && k < |states| && t in states[k].tasks
    ensures 1 <= t <= k && StartedAt(states, t - 1, t) && events[t - 1].Enter?
  {
    assert k > 0;
    if t in states[k - 1].tasks {
      TaskWasStarted(maxEntries, ttl, states, events, k - 1, t);
    } else {
      RunFloor(maxEntries, ttl, states, events, k - 1, User(0));
      assert StepAt(states, events, k - 1);
      NewTask(states[k - 1], events[k - 1], states[k], t);
    }
  }

  /** Freshness. A `get` that begins after an invalidation of its user, or after a clear, is never
      answered, from the cache or by joining, with the result of a fetch started before it; and
      the answer is one fetched for exactly the key that was asked. */
  lemma NoStaleAnswer(maxEntries: int, ttl: int, states: seq<State>, events: seq<Event>,
                      a: nat, b: nat, c: nat, r: int) returns (d: nat)
    requires IsRun(maxEntries, ttl, states, events) && a < b <= c < |states|
    requires r !in states[b].readers && r in states[c].readers && states[c].readers[r].phase.Answered?
    requires Invalidates(events[a], states[c].readers[r].key.user)
    ensures a < d < c && events[d].Enter?
    ensures StartedAt(states, d, states[c].readers[r].phase.entry.started)
    ensures FetchedFor(states[c], states[c].readers[r].key, states[c].readers[r].phase.entry)
  {
    var reader := states[c].readers[r];
    RunFloor(maxEntries, ttl, states, events, a, reader.key.user);
    RunReader(maxEntries, ttl, states, events, c, r);
    LaterReaderFloor(maxEntries, ttl, states, events, a, b, c, r);
    TaskWasStarted(maxEntries, ttl, states, events, c, reader.phase.entry.started);
    d := reader.phase.entry.started - 1;
  }

  /** Forgetting epochs is safe: an unfinished fetch that predates an invalidation of its user never
      again finds its captured epoch current, so it is never stored. */
  lemma FencedForGood(maxEntries: int, ttl: int, states: seq<State>, events: seq<Event>,
                      a: nat, k: nat, t: nat)
    requires IsRun(maxEntries, ttl, states, events) && a < k < |states|
    requires t in states[a].tasks && t in states[k].tasks && states[k].tasks[t].owned
    requires Invalidates(events[a], states[k].tasks[t].key.user)
    ensures !Unfenced(states[k], states[k].tasks[t])
    ensures forall aborted :: !Stores(states[k], states[k].tasks[t], aborted)
  {
    RunInv(maxEntries, ttl, states, events, a);
    RunInv(maxEntries, ttl, states, events, k);
    FloorStays(maxEntries, ttl, states, events, a, k, states[k].tasks[t].key.user);
    assert TaskStamp(states[a], t) && TaskFence(states[k], t);
  }

  /** The bookkeeping in every reachable state: owners are counted, only running users have epochs,
      and the in-flight map is exactly the running, unfenced fetches. */
  lemma Bookkeeping(maxEntries: int, ttl: int, states: seq<State>, events: seq<Event>, k: nat)
    requires IsRun(maxEntries, ttl, states, events) && k < |states|
    ensures forall u :: (if u in states[k].running then states[k].running[u] else 0) == |Owners(states[k], u)|
    ensures states[k].epochs.Keys <= states[k].running.Keys
    ensures forall t :: t in states[k].tasks ==>
      (states[k].tasks[t].owned && Unfenced(states[k], states[k].tasks[t]) <==>
       states[k].tasks[t].key in states[k].inflight && states[k].inflight[states[k].tasks[t].key] == t)
    ensures |states[k].cache| <= if maxEntries > 0 then maxEntries else 0
  {
    RunInv(maxEntries, ttl, states, events, k);
    var s := states[k];
    forall t | t in s.tasks
      ensures s.tasks[t].owned && Unfenced(s, s.tasks[t]) <==>
              s.tasks[t].key in s.inflight && s.inflight[s.tasks[t].key] == t
    {
      assert TaskFence(s, t) && TaskInflight(s, t);
    }
  }

  ghost predicate TaskLater(s: State, k: Key, t: nat, started: nat)
    requires t in s.tasks
  {
    s.tasks[t].key == k && s.tasks[t].owned && Fresh(s, t) ==> started < t
  }

  /** The key's answer is `entry` or a later one, and so is everything that can still be stored for it. */
  ghost predicate NotBefore(s: State, k: Key, entry: Entry) {
    && entry.started < s.clock
    && (k in s.cache ==> s.cache[k] == entry || entry.started < s.cache[k].started)
    && forall t :: t in s.tasks ==> TaskLater(s, k, t, entry.started)
  }

  lemma OthersKeepEntries(s: State, e: Event, k: Key)
    requires Enabled(s, e) && !e.OwnerResumes? && k in Step(s, e).cache
    ensures k in s.cache && Step(s, e).cache[k] == s.cache[k]
  {
  }

  lemma OwnerStoresLater(s: State, s': State, r: int, t: nat, aborted: bool, victim: Key, k: Key, entry: Entry)
    requires Finishes(s, s', r, t, aborted, victim) && k in s'.cache
    requires ReaderOk(s, s.readers[r]) && TaskFence(s, t) && TaskStamp(s, t) && TaskLater(s, k, t, entry.started)
    requires k in s.cache ==> s.cache[k] == entry || entry.started < s.cache[k].started
    ensures s'.cache[k] == entry || entry.started < s'.cache[k].started
  {
  }

  lemma TaskOnlySettles(s: State, e: Event, t: nat)
    requires Enabled(s, e) && t in s.tasks && t in Step(s, e).tasks && t < s.clock
    ensures Step(s, e).tasks[t].key == s.tasks[t].key
    ensures Step(s, e).tasks[t].owned ==> s.tasks[t].owned
  {
  }

  lemma TaskStaysLater(s: State, e: Event, k: Key, t: nat, started: nat)
    requires Inv(s) && Enabled(s, e) && t in Step(s, e).tasks && started < s.clock
    requires t in s.tasks ==> TaskLater(s, k, t, started)
    ensures TaskLater(Step(s, e), k, t, started)
  {
    FloorGrows(s, e, k.user);
    if t in s.tasks {
      assert TaskStamp(s, t);
      TaskOnlySettles(s, e, t);
    } else {
      NewTask(s, e, Step(s, e), t);
    }
  }

  lemma StoredNotBefore(s: State, e: Event, k: Key, entry: Entry)
    requires Inv(s) && Enabled(s, e) && NotBefore(s, k, entry) && k in Step(s, e).cache
    ensures Step(s, e).cache[k] == entry || entry.started < Step(s, e).cache[k].started
  {
    if e.OwnerResumes? {
      var t := s.readers[e.reader].phase.task;
      StepFinishes(s, e.reader, e.aborted, e.victim);
      assert ReaderOk(s, s.readers[e.reader]) && TaskFence(s, t) && TaskStamp(s, t);
      OwnerStoresLater(s, Step(s, e), e.reader, t, e.aborted, e.victim, k, entry);
    } else {
      OthersKeepEntries(s, e, k);
    }
  }

  lemma StepNotBefore(s: State, e: Event, s': State, k: Key, entry: Entry)
    requires Inv(s) && StepsTo(s, e, s') && NotBefore(s, k, entry)
    ensures NotBefore(s', k, entry)
  {
    StepTicks(s, e);
    if k in s'.cache {
      StoredNotBefore(s, e, k, entry);
    }
    forall t | t in s'.tasks ensures TaskLater(s', k, t, entry.started) {
      TaskStaysLater(s, e, k, t, entry.started);
    }
  }

  lemma CachedNotBefore(s: State, k: Key)
    requires Inv(s) && k in s.cache
    ensures NotBefore(s, k, s.cache[k])
  {
    assert EntryFresh(s, k);
    forall t | t in s.tasks ensures TaskLater(s, k, t, s.cache[k].started) {
      assert TaskAfterCache(s, t);
    }
  }

  lemma RunStartsNotBefore(maxEntries: int, ttl: int, states: seq<State>, events: seq<Event>, i: nat, k: Key)
    requires IsRun(maxEntries, ttl, states, events) && i < |states| && k in states[i].cache
    ensures NotBefore(states[i], k, states[i].cache[k])
  {
    RunInv(maxEntries, ttl, states, events, i);
    CachedNotBefore(states[i], k);
  }

  lemma RunStaysNotBefore(maxEntries: int, ttl: int, states: seq<State>, events: seq<Event>, j: nat, k: Key,
                          entry: Entry)
    requires IsRun(maxEntries, ttl, states, events) && j < |events| && NotBefore(states[j], k, entry)
    ensures NotBefore(states[j + 1], k, entry)
  {
    assert StepAt(states, events, j);
    RunInv(maxEntries, ttl, states, events, j);
    StepNotBefore(states[j], events[j], states[j + 1], k, entry);
  }

  lemma {:induction false} RunNotBefore(maxEntries: int, ttl: int, states: seq<State>, events: seq<Event>,
                                        i: nat, j: nat, k: Key)
    requires IsRun(maxEntries, ttl, states, events) && i <= j < |states| && k in states[i].cache
    ensures NotBefore(states[j], k, states[i].cache[k])
  {
    if i == j {
      RunStartsNotBefore(maxEntries, ttl, states, events, i, k);
    } else {
      var n := j - 1;
      RunNotBefore(maxEntries, ttl, states, events, i, n, k);
      RunStaysNotBefore(maxEntries, ttl, states, events, n, k, states[i].cache[k]);
      assert states[n + 1] == states[j];
    }
  }

  /** In every run the cached answer of a key is only ever followed by one whose fetch began later,
      also when the key was evicted or invalidated in between. */
  lemma CacheMovesForward(maxEntries: int, ttl: int, states: seq<State>, events: seq<Event>, i: nat, j: nat, k: Key)
    requires IsRun(maxEntries, ttl, states, events) && i <= j < |states|
    requires k in states[i].cache && k in states[j].cache
    ensures states[j].cache[k] == states[i].cache[k] || states[i].cache[k].started < states[j].cache[k].started
  {
    RunNotBefore(maxEntries, ttl, states, events, i, j, k);
  }

  lemma {:induction false} OldestExists(cache: map<Key, Entry>, keys: set<Key>) returns (victim: Key)
    requires keys != {} && keys <= cache.Keys
    ensures victim in keys && forall k :: k in keys ==> cache[victim].fetchedAt <= cache[k].fetchedAt
    decreases |keys|
  {
    var first :| first in keys;
    var rest := keys - {first};
    assert forall k :: k in keys ==> k == first || k in rest;
    victim := first;
    if rest != {} {
      var other := OldestExists(cache, rest);
      if cache[other].fetchedAt < cache[first].fetchedAt {
        victim := other;
      }
    }
  }

  /** The cleanup never finds its user missing from `_running`: an owner whose fetch has settled can
      always resume. */
  lemma OwnerCanResume(s: State, r: int, aborted: bool) returns (victim: Key)
    requires Inv(s) && r in s.readers && s.readers[r].phase.Owning?
    requires !s.tasks[s.readers[r].phase.task].outcome.Pending?
    ensures Enabled(s, OwnerResumes(r, aborted, victim))
  {
    var t := s.readers[r].phase.task;
    assert ReaderOk(s, s.readers[r]);
    assert t in Owners(s, s.tasks[t].key.user);
    victim := s.tasks[t].key;
    if s.cache != map[] {
      victim := OldestExists(s.cache, s.cache.Keys);
    }
  }
}
