/** The permission resolver as a state machine: every step is the code that runs between two
    suspension points of src/service_toolkit/security/platform_perms_resolver.py. */
module PermsProtocol {
  import opened Options

  datatype User = User(id: int)

  /** Answers are kept apart by tenant, and those without one apart from all of them. */
  datatype Key = Key(user: User, tenant: Option<int>)

  datatype Perms = Perms(bits: int, version: int, roles: seq<string>, maxRoleWeight: int)

  /** A cached answer; `started` records the step at which its fetch was started. */
  datatype Entry = Entry(perms: Perms, fetchedAt: int, started: nat)

  datatype Outcome = Pending | Fetched(entry: Entry) | Failed

  /** A fetch, and the epoch its owner captured; `owned` until the owner has cleaned up after it. */
  datatype Task = Task(key: Key, epoch: int, outcome: Outcome, owned: bool)

  datatype Phase =
    | AtLock
    | Waiting(task: nat)
    | Owning(task: nat)
    | Answered(entry: Entry)
    | Raised

  /** One call of `get`; `floor` records the last invalidation of its user before it began. */
  datatype Reader = Reader(key: Key, floor: nat, phase: Phase)

  /** Tasks are named by the step that created them. The last three fields are history. */
  datatype State = State(
    maxEntries: int,
    ttl: int,
    cache: map<Key, Entry>,
    inflight: map<Key, nat>,
    epochs: map<User, int>,
    running: map<User, int>,
    tasks: map<nat, Task>,
    readers: map<int, Reader>,
    clock: nat,
    invalidatedAt: map<User, nat>,
    clearedAt: nat)

  datatype Event =
    | Begin(reader: int, key: Key, now: int)
    | Enter(reader: int)
    | FetchDone(task: nat, perms: Perms, now: int)
    | FetchFails(task: nat)
    | JoinerResumes(reader: int)
    | OwnerResumes(reader: int, aborted: bool, victim: Key)
    | Abort(reader: int)
    | InvalidateMany(users: set<User>)
    | Clear

  function Init(maxEntries: int, ttl: int): State {
    State(maxEntries, ttl, map[], map[], map[], map[], map[], map[], 1, map[], 0)
  }

  function Epoch(s: State, user: User): int {
    if user in s.epochs then s.epochs[user] else 0
  }

  /** The step of the last invalidation that concerned the user; 0 if there was none. */
  function Floor(s: State, user: User): nat {
    var own := if user in s.invalidatedAt then s.invalidatedAt[user] else 0;
    if own >= s.clearedAt then own else s.clearedAt
  }

  // ---- the steps ----

  predicate Hit(s: State, key: Key, now: int) {
    key in s.cache && now - s.cache[key].fetchedAt < s.ttl
  }

  function BeginPhase(s: State, key: Key, now: int): Phase {
    if Hit(s, key, now) then Answered(s.cache[key])
    else if key in s.inflight then Waiting(s.inflight[key])
    else AtLock
  }

  function DoBegin(s: State, r: int, key: Key, now: int): State {
    s.(readers := s.readers[r := Reader(key, Floor(s, key.user), BeginPhase(s, key, now))])
  }

  /** Under the lock: join the fetch in flight, or start one. */
  function DoEnter(s: State, r: int): State
    requires r in s.readers
  {
    var reader := s.readers[r];
    var key := reader.key;
    if key in s.inflight then
      s.(readers := s.readers[r := reader.(phase := Waiting(s.inflight[key]))])
    else
      s.(tasks := s.tasks[s.clock := Task(key, Epoch(s, key.user), Pending, true)],
         inflight := s.inflight[key := s.clock],
         running := s.running[key.user := (if key.user in s.running then s.running[key.user] else 0) + 1],
         readers := s.readers[r := reader.(phase := Owning(s.clock))])
  }

  /** The least `fetchedAt`, as the eviction picks it. */
  predicate IsOldest(cache: map<Key, Entry>, victim: Key) {
    victim in cache && forall k :: k in cache ==> cache[victim].fetchedAt <= cache[k].fetchedAt
  }

  predicate NeedsEviction(s: State, key: Key) {
    key !in s.cache && |s.cache| >= s.maxEntries
  }

  function Store(s: State, key: Key, entry: Entry, victim: Key): map<Key, Entry> {
    (if NeedsEviction(s, key) then s.cache - {victim} else s.cache)[key := entry]
  }

  predicate Unfenced(s: State, task: Task) {
    Epoch(s, task.key.user) == task.epoch
  }

  /** What the owner does with a finished fetch before cleaning up: store, or raise. */
  predicate Stores(s: State, task: Task, aborted: bool) {
    !aborted && task.outcome.Fetched? && Unfenced(s, task) && !(NeedsEviction(s, task.key) && s.cache == map[])
  }

  /** The owner answers unless the fetch failed, it was aborted, or evicting from an empty cache raised. */
  predicate OwnerAnswers(s: State, task: Task, aborted: bool) {
    !aborted && task.outcome.Fetched? && (Unfenced(s, task) ==> Stores(s, task, aborted))
  }

  predicate OwnsTask(s: State, r: int) {
    && r in s.readers && s.readers[r].phase.Owning? && s.readers[r].phase.task in s.tasks
    && s.tasks[s.readers[r].phase.task].key.user in s.running
  }

  /** The `finally` block: only this fetch's own entry leaves the in-flight map, and the user's epoch
      goes with the user's last running fetch. */
  function CleanedUp(s: State, r: int, phase: Phase): State
    requires OwnsTask(s, r)
  {
    var t := s.readers[r].phase.task;
    var key := s.tasks[t].key;
    var last := s.running[key.user] == 1;
    s.(inflight := if key in s.inflight && s.inflight[key] == t then s.inflight - {key} else s.inflight,
       running := if last then s.running - {key.user} else s.running[key.user := s.running[key.user] - 1],
       epochs := if last then s.epochs - {key.user} else s.epochs,
       tasks := s.tasks[t := s.tasks[t].(owned := false)],
       readers := s.readers[r := s.readers[r].(phase := phase)])
  }

  function StoredCache(s: State, task: Task, aborted: bool, victim: Key): map<Key, Entry> {
    if Stores(s, task, aborted) then Store(s, task.key, task.outcome.entry, victim) else s.cache
  }

  function OwnerPhase(s: State, task: Task, aborted: bool): Phase {
    if OwnerAnswers(s, task, aborted) then Answered(task.outcome.entry) else Raised
  }

  function DoOwnerResumes(s: State, r: int, aborted: bool, victim: Key): State
    requires OwnsTask(s, r)
  {
    var task := s.tasks[s.readers[r].phase.task];
    CleanedUp(s.(cache := StoredCache(s, task, aborted, victim)), r, OwnerPhase(s, task, aborted))
  }

  function BumpedEpochs(s: State, users: set<User>): map<User, int> {
    map u | u in s.epochs.Keys + (users * s.running.Keys) ::
      if u in users && u in s.running then Epoch(s, u) + 1 else Epoch(s, u)
  }

  function DoInvalidate(s: State, users: set<User>): State {
    s.(epochs := BumpedEpochs(s, users),
       cache := map k | k in s.cache && k.user !in users :: s.cache[k],
       inflight := map k | k in s.inflight && k.user !in users :: s.inflight[k],
       invalidatedAt := map u | u in s.invalidatedAt.Keys + users ::
         if u in users then s.clock else s.invalidatedAt[u])
  }

  /** `clear` concerns every user, also those it finds nothing for. */
  function DoClear(s: State): State {
    DoInvalidate(s, (set k | k in s.cache :: k.user) + s.running.Keys).(cache := map[], clearedAt := s.clock)
  }

  predicate Enabled(s: State, e: Event) {
    match e
    case Begin(r, _, _) => r !in s.readers
    case Enter(r) => r in s.readers && s.readers[r].phase.AtLock?
    case FetchDone(t, _, _) => t in s.tasks && s.tasks[t].outcome.Pending?
    case FetchFails(t) => t in s.tasks && s.tasks[t].outcome.Pending?
    case JoinerResumes(r) =>
      && r in s.readers && s.readers[r].phase.Waiting? && s.readers[r].phase.task in s.tasks
      && !s.tasks[s.readers[r].phase.task].outcome.Pending?
    case OwnerResumes(r, aborted, victim) =>
      && OwnsTask(s, r)
      && (var task := s.tasks[s.readers[r].phase.task];
          && !task.outcome.Pending?
          && (Stores(s, task, aborted) && NeedsEviction(s, task.key) ==> IsOldest(s.cache, victim)))
    case Abort(r) => r in s.readers && (s.readers[r].phase.AtLock? || s.readers[r].phase.Waiting?)
    case InvalidateMany(_) => true
    case Clear => true
  }

  function Settle(s: State, t: nat, outcome: Outcome): State
    requires t in s.tasks
  {
    s.(tasks := s.tasks[t := s.tasks[t].(outcome := outcome)])
  }

  function Effect(s: State, e: Event): State
    requires Enabled(s, e)
  {
    match e
    case Begin(r, key, now) => DoBegin(s, r, key, now)
    case Enter(r) => DoEnter(s, r)
    case FetchDone(t, perms, now) => Settle(s, t, Fetched(Entry(perms, now, t)))
    case FetchFails(t) => Settle(s, t, Failed)
    case JoinerResumes(r) =>
      var outcome := s.tasks[s.readers[r].phase.task].outcome;
      s.(readers := s.readers[r := s.readers[r].(phase :=
        if outcome.Fetched? then Answered(outcome.entry) else Raised)])
    case OwnerResumes(r, aborted, victim) => DoOwnerResumes(s, r, aborted, victim)
    case Abort(r) => s.(readers := s.readers[r := s.readers[r].(phase := Raised)])
    case InvalidateMany(users) => DoInvalidate(s, users)
    case Clear => DoClear(s)
  }

  function Step(s: State, e: Event): State
    requires Enabled(s, e)
  {
    Effect(s, e).(clock := s.clock + 1)
  }

  // ---- the invariant ----

  ghost function Owners(s: State, user: User): set<nat> {
    set t | t in s.tasks && s.tasks[t].owned && s.tasks[t].key.user == user
  }

  /** `_running` counts the owners that have not cleaned up; `_epochs` holds only running users. */
  ghost predicate RunningCounts(s: State) {
    && (forall u :: u in s.running <==> Owners(s, u) != {})
    && (forall u :: u in s.running ==> s.running[u] == |Owners(s, u)|)
    && s.epochs.Keys <= s.running.Keys
  }

  /** A task that started after the last invalidation of its user. */
  predicate Fresh(s: State, t: nat)
    requires t in s.tasks
  {
    Floor(s, s.tasks[t].key.user) < t
  }

  /** The captured epoch is the current one exactly when no invalidation came since the start. */
  ghost predicate TaskFence(s: State, t: nat)
    requires t in s.tasks
  {
    s.tasks[t].owned ==>
      && s.tasks[t].epoch <= Epoch(s, s.tasks[t].key.user)
      && (Unfenced(s, s.tasks[t]) <==> Fresh(s, t))
  }

  ghost predicate EpochsFence(s: State) {
    forall t :: t in s.tasks ==> TaskFence(s, t)
  }

  ghost predicate TaskInflight(s: State, t: nat)
    requires t in s.tasks
  {
    s.tasks[t].owned && Fresh(s, t) <==> s.tasks[t].key in s.inflight && s.inflight[s.tasks[t].key] == t
  }

  /** The in-flight map holds exactly the running, unfenced fetches. */
  ghost predicate InflightExact(s: State) {
    && (forall k :: k in s.inflight ==> s.inflight[k] in s.tasks && s.tasks[s.inflight[k]].key == k)
    && (forall t :: t in s.tasks ==> TaskInflight(s, t))
  }

  ghost predicate TaskStamp(s: State, t: nat)
    requires t in s.tasks
  {
    t < s.clock && (s.tasks[t].outcome.Fetched? ==> s.tasks[t].outcome.entry.started == t)
  }

  ghost predicate Stamps(s: State) {
    && (forall t :: t in s.tasks ==> TaskStamp(s, t))
    && (forall u :: Floor(s, u) < s.clock)
  }

  /** An unfenced fetch that is still to be stored started after the answer it would replace. */
  ghost predicate TaskAfterCache(s: State, t: nat)
    requires t in s.tasks
  {
    s.tasks[t].owned && Fresh(s, t) && s.tasks[t].key in s.cache ==> s.cache[s.tasks[t].key].started < t
  }

  /** The answer is what a fetch for exactly this key returned. */
  ghost predicate FetchedFor(s: State, key: Key, entry: Entry) {
    && entry.started in s.tasks
    && s.tasks[entry.started].key == key && s.tasks[entry.started].outcome == Fetched(entry)
  }

  /** A cached answer was fetched for its key, and after the last invalidation. */
  ghost predicate EntryFresh(s: State, k: Key)
    requires k in s.cache
  {
    Floor(s, k.user) < s.cache[k].started < s.clock && FetchedFor(s, k, s.cache[k])
  }

  ghost predicate CacheFresh(s: State) {
    && (forall k :: k in s.cache ==> EntryFresh(s, k))
    && (forall t :: t in s.tasks ==> TaskAfterCache(s, t))
  }

  ghost predicate CacheBounded(s: State) {
    |s.cache| <= if s.maxEntries > 0 then s.maxEntries else 0
  }

  ghost predicate ReaderFresh(s: State, reader: Reader) {
    match reader.phase
    case AtLock => true
    case Waiting(t) => t in s.tasks && s.tasks[t].key == reader.key && reader.floor < t
    case Owning(t) => t in s.tasks && s.tasks[t].key == reader.key && reader.floor < t && s.tasks[t].owned
    case Answered(entry) => reader.floor < entry.started && FetchedFor(s, reader.key, entry)
    case Raised => true
  }

  ghost predicate ReaderOk(s: State, reader: Reader) {
    ReaderFresh(s, reader) && reader.floor <= Floor(s, reader.key.user)
  }

  /** No two readers own the same fetch. */
  ghost predicate OneOwner(readers: map<int, Reader>) {
    forall q, r :: q in readers && r in readers && readers[q].phase.Owning? && q != r
      ==> readers[q].phase != readers[r].phase
  }

  ghost predicate ReadersFresh(s: State) {
    && (forall r :: r in s.readers ==> ReaderOk(s, s.readers[r]))
    && OneOwner(s.readers)
  }

  /** The part of the invariant that does not speak of readers. */
  ghost predicate CoreInv(s: State) {
    && RunningCounts(s)
    && EpochsFence(s)
    && InflightExact(s)
    && Stamps(s)
    && CacheFresh(s)
    && CacheBounded(s)
  }

  ghost predicate Inv(s: State) {
    CoreInv(s) && ReadersFresh(s)
  }

  lemma InitInv(maxEntries: int, ttl: int)
    ensures Inv(Init(maxEntries, ttl))
  {
  }

  // ---- every step keeps it ----

  lemma SameFloor(s: State, s': State)
    requires s'.invalidatedAt == s.invalidatedAt && s'.clearedAt == s.clearedAt
    ensures forall u :: Floor(s', u) == Floor(s, u)
  {
  }

  ghost predicate OnlyReaders(s: State, s': State) {
    s' == s.(readers := s'.readers, clock := s.clock + 1)
  }

  lemma ReadersOnlyRunning(s: State, s': State)
    requires RunningCounts(s) && OnlyReaders(s, s')
    ensures RunningCounts(s')
  {
    assert forall u :: Owners(s', u) == Owners(s, u);
  }

  lemma ReadersOnlyTask(s: State, s': State, t: nat)
    requires OnlyReaders(s, s') && t in s.tasks
    requires TaskFence(s, t) && TaskInflight(s, t) && TaskStamp(s, t) && TaskAfterCache(s, t)
    ensures TaskFence(s', t) && TaskInflight(s', t) && TaskStamp(s', t) && TaskAfterCache(s', t)
  {
    SameFloor(s, s');
  }

  /** A step that touches only the readers. */
  lemma ReadersOnly(s: State, s': State)
    requires CoreInv(s) && OnlyReaders(s, s')
    ensures CoreInv(s')
  {
    SameFloor(s, s');
    ReadersOnlyRunning(s, s');
    forall t | t in s'.tasks
      ensures TaskFence(s', t) && TaskInflight(s', t) && TaskStamp(s', t) && TaskAfterCache(s', t)
    {
      ReadersOnlyTask(s, s', t);
    }
    forall k | k in s'.cache ensures EntryFresh(s', k) {
      assert EntryFresh(s, k);
    }
  }

  lemma SameReader(s: State, s': State, reader: Reader)
    requires ReaderOk(s, reader) && s'.tasks == s.tasks
    requires s'.invalidatedAt == s.invalidatedAt && s'.clearedAt == s.clearedAt
    ensures ReaderOk(s', reader)
  {
  }

  /** One reader moves on to a phase that is fresh for it. */
  lemma OneReaderMoves(s: State, s': State, r: int, reader: Reader)
    requires ReadersFresh(s) && s' == s.(readers := s.readers[r := reader], clock := s.clock + 1)
    requires ReaderOk(s, reader) && !reader.phase.Owning?
    ensures ReadersFresh(s')
  {
    forall q | q in s'.readers ensures ReaderOk(s', s'.readers[q]) {
      assert q != r ==> s'.readers[q] == s.readers[q];
      SameReader(s, s', s'.readers[q]);
    }
  }

  lemma BeginInv(s: State, r: int, key: Key, now: int)
    requires Inv(s) && r !in s.readers
    ensures Inv(DoBegin(s, r, key, now).(clock := s.clock + 1))
  {
    var s' := DoBegin(s, r, key, now).(clock := s.clock + 1);
    ReadersOnly(s, s');
    var reader := s'.readers[r];
    if key in s.inflight {
      assert Fresh(s, s.inflight[key]);
    }
    assert ReaderOk(s, reader);
    OneReaderMoves(s, s', r, reader);
  }

  // -- starting a fetch --

  predicate StartsFetch(s: State, r: int) {
    r in s.readers && s.readers[r].phase.AtLock? && s.readers[r].key !in s.inflight
  }

  /** The reader r starts a fetch, field by field. */
  ghost predicate Starts(s: State, s': State, r: int) {
    && StartsFetch(s, r)
    && s'.clock == s.clock + 1 && s'.maxEntries == s.maxEntries && s'.cache == s.cache && s'.epochs == s.epochs
    && s'.invalidatedAt == s.invalidatedAt && s'.clearedAt == s.clearedAt
    && (var key := s.readers[r].key;
        && s'.tasks == s.tasks[s.clock := Task(key, Epoch(s, key.user), Pending, true)]
        && s'.inflight == s.inflight[key := s.clock]
        && s'.running == s.running[key.user := (if key.user in s.running then s.running[key.user] else 0) + 1])
    && s'.readers == s.readers[r := s.readers[r].(phase := Owning(s.clock))]
  }

  lemma StartOwners(s: State, s': State, r: int, u: User)
    requires Stamps(s) && Starts(s, s', r)
    ensures Owners(s', u) == if u == s.readers[r].key.user then Owners(s, u) + {s.clock} else Owners(s, u)
    ensures s.clock !in Owners(s, u)
  {
    assert s.clock in s.tasks ==> TaskStamp(s, s.clock);
  }

  lemma StartRunning(s: State, s': State, r: int)
    requires RunningCounts(s) && Stamps(s) && Starts(s, s', r)
    ensures RunningCounts(s')
  {
    forall u
      ensures u in s'.running <==> Owners(s', u) != {}
      ensures u in s'.running ==> s'.running[u] == |Owners(s', u)|
    {
      StartOwners(s, s', r, u);
      assert u == s.readers[r].key.user ==> s.clock in Owners(s', u);
    }
  }

  lemma StartTasks(s: State, s': State, r: int)
    requires EpochsFence(s) && InflightExact(s) && Stamps(s) && Starts(s, s', r)
    ensures EpochsFence(s') && InflightExact(s') && Stamps(s')
  {
    SameFloor(s, s');
    forall t | t in s'.tasks ensures TaskFence(s', t) && TaskInflight(s', t) && TaskStamp(s', t) {
      if t != s.clock {
        assert TaskFence(s, t) && TaskInflight(s, t) && TaskStamp(s, t);
      }
    }
    forall k | k in s'.inflight ensures s'.inflight[k] in s'.tasks && s'.tasks[s'.inflight[k]].key == k {
      if k != s.readers[r].key {
        assert TaskStamp(s, s.inflight[k]);
      }
    }
  }

  lemma StartKeepsAnswers(s: State, s': State, r: int, key: Key, entry: Entry)
    requires Stamps(s) && Starts(s, s', r) && FetchedFor(s, key, entry)
    ensures FetchedFor(s', key, entry)
  {
    assert TaskStamp(s, entry.started);
  }

  lemma StartCache(s: State, s': State, r: int)
    requires CacheFresh(s) && CacheBounded(s) && Stamps(s) && Starts(s, s', r)
    ensures CacheFresh(s') && CacheBounded(s')
  {
    SameFloor(s, s');
    forall k | k in s'.cache ensures EntryFresh(s', k) {
      assert EntryFresh(s, k);
      StartKeepsAnswers(s, s', r, k, s.cache[k]);
    }
    forall t | t in s'.tasks ensures TaskAfterCache(s', t) {
      if t != s.clock {
        assert TaskAfterCache(s, t);
      } else if s'.tasks[t].key in s.cache {
        assert EntryFresh(s, s'.tasks[t].key);
      }
    }
  }

  lemma StartReader(s: State, s': State, r: int, q: int)
    requires Stamps(s) && Starts(s, s', r) && q in s.readers && ReaderOk(s, s.readers[q])
    ensures ReaderOk(s', s'.readers[q])
    ensures q != r ==> s'.readers[q].phase != Owning(s.clock)
  {
    SameFloor(s, s');
    var phase := s.readers[q].phase;
    if phase.Answered? {
      StartKeepsAnswers(s, s', r, s.readers[q].key, phase.entry);
    } else if phase.Waiting? || phase.Owning? {
      assert TaskStamp(s, phase.task);
    }
  }

  lemma StartReaders(s: State, s': State, r: int)
    requires ReadersFresh(s) && Stamps(s) && Starts(s, s', r)
    ensures ReadersFresh(s')
  {
    forall q | q in s'.readers
      ensures ReaderOk(s', s'.readers[q]) && (q != r ==> s'.readers[q].phase != Owning(s.clock))
    {
      StartReader(s, s', r, q);
    }
  }

  lemma EnterInv(s: State, r: int)
    requires Inv(s) && Enabled(s, Enter(r))
    ensures Inv(Step(s, Enter(r)))
  {
    if StartsFetch(s, r) {
      var s' := Step(s, Enter(r));
      assert Starts(s, s', r);
      StartRunning(s, s', r);
      StartTasks(s, s', r);
      StartCache(s, s', r);
      StartReaders(s, s', r);
    } else {
      var s' := Step(s, Enter(r));
      ReadersOnly(s, s');
      assert ReaderOk(s, s.readers[r]) && Fresh(s, s.inflight[s.readers[r].key]);
      OneReaderMoves(s, s', r, s'.readers[r]);
    }
  }

  // -- a fetch settles --

  ghost predicate Settles(s: State, s': State, t: nat, outcome: Outcome) {
    && t in s.tasks && s.tasks[t].outcome.Pending? && (outcome.Fetched? ==> outcome.entry.started == t)
    && s' == Settle(s, t, outcome).(clock := s.clock + 1)
  }

  lemma SettleTask(s: State, s': State, t: nat, outcome: Outcome, x: nat)
    requires Settles(s, s', t, outcome) && x in s.tasks
    requires TaskFence(s, x) && TaskInflight(s, x) && TaskStamp(s, x) && TaskAfterCache(s, x)
    ensures TaskFence(s', x) && TaskInflight(s', x) && TaskStamp(s', x) && TaskAfterCache(s', x)
  {
    SameFloor(s, s');
  }

  lemma SettleKeepsAnswers(s: State, s': State, t: nat, outcome: Outcome, key: Key, entry: Entry)
    requires Settles(s, s', t, outcome) && FetchedFor(s, key, entry)
    ensures FetchedFor(s', key, entry)
  {
  }

  lemma SettleRunning(s: State, s': State, t: nat, outcome: Outcome)
    requires RunningCounts(s) && Settles(s, s', t, outcome)
    ensures RunningCounts(s')
  {
    assert forall u :: Owners(s', u) == Owners(s, u);
  }

  lemma SettleCore(s: State, s': State, t: nat, outcome: Outcome)
    requires CoreInv(s) && Settles(s, s', t, outcome)
    ensures CoreInv(s')
  {
    SameFloor(s, s');
    SettleRunning(s, s', t, outcome);
    forall x | x in s'.tasks
      ensures TaskFence(s', x) && TaskInflight(s', x) && TaskStamp(s', x) && TaskAfterCache(s', x)
    {
      SettleTask(s, s', t, outcome, x);
    }
    forall k | k in s'.cache ensures EntryFresh(s', k) {
      assert EntryFresh(s, k);
      SettleKeepsAnswers(s, s', t, outcome, k, s.cache[k]);
    }
  }

  lemma SettleReaders(s: State, s': State, t: nat, outcome: Outcome)
    requires ReadersFresh(s) && Settles(s, s', t, outcome)
    ensures ReadersFresh(s')
  {
    SameFloor(s, s');
    forall q | q in s'.readers ensures ReaderOk(s', s'.readers[q]) {
      var reader := s.readers[q];
      assert ReaderOk(s, reader);
      if reader.phase.Answered? {
        SettleKeepsAnswers(s, s', t, outcome, reader.key, reader.phase.entry);
      }
    }
  }

  lemma SettleInv(s: State, s': State, t: nat, outcome: Outcome)
    requires Inv(s) && Settles(s, s', t, outcome)
    ensures Inv(s')
  {
    SettleCore(s, s', t, outcome);
    SettleReaders(s, s', t, outcome);
  }

  // -- the owner resumes --

  /** The owner r of task t cleans up, field by field. */
  ghost predicate Finishes(s: State, s': State, r: int, t: nat, aborted: bool, victim: Key) {
    && r in s.readers && s.readers[r].phase == Owning(t) && t in s.tasks && s.tasks[t].key.user in s.running
    && s'.clock == s.clock + 1 && s'.maxEntries == s.maxEntries
    && s'.invalidatedAt == s.invalidatedAt && s'.clearedAt == s.clearedAt
    && s'.tasks == s.tasks[t := s.tasks[t].(owned := false)]
    && (var key := s.tasks[t].key;
        var last := s.running[key.user] == 1;
        && s'.inflight == (if key in s.inflight && s.inflight[key] == t then s.inflight - {key} else s.inflight)
        && s'.running == (if last then s.running - {key.user} else s.running[key.user := s.running[key.user] - 1])
        && s'.epochs == if last then s.epochs - {key.user} else s.epochs)
    && s'.cache == StoredCache(s, s.tasks[t], aborted, victim)
    && s'.readers == s.readers[r := s.readers[r].(phase := OwnerPhase(s, s.tasks[t], aborted))]
  }

  lemma FinishOwners(s: State, s': State, r: int, t: nat, aborted: bool, victim: Key, u: User)
    requires Finishes(s, s', r, t, aborted, victim) && s.tasks[t].owned
    ensures Owners(s', u) == if u == s.tasks[t].key.user then Owners(s, u) - {t} else Owners(s, u)
    ensures t in Owners(s, s.tasks[t].key.user)
  {
    assert forall x :: x in s'.tasks && x != t ==> s'.tasks[x] == s.tasks[x];
  }

  lemma FinishRunning(s: State, s': State, r: int, t: nat, aborted: bool, victim: Key)
    requires Finishes(s, s', r, t, aborted, victim) && s.tasks[t].owned && RunningCounts(s)
    ensures RunningCounts(s')
  {
    forall u
      ensures u in s'.running <==> Owners(s', u) != {}
      ensures u in s'.running ==> s'.running[u] == |Owners(s', u)|
    {
      FinishOwners(s, s', r, t, aborted, victim, u);
      if u == s.tasks[t].key.user {
        assert |Owners(s, u) - {t}| == |Owners(s, u)| - 1;
      }
    }
  }

  /** Forgetting an epoch is safe: it is dropped only when nobody can still compare with it. */
  lemma FinishEpochs(s: State, s': State, r: int, t: nat, aborted: bool, victim: Key)
    requires Finishes(s, s', r, t, aborted, victim) && EpochsFence(s) && RunningCounts(s')
    ensures EpochsFence(s')
  {
    SameFloor(s, s');
    forall x | x in s'.tasks ensures TaskFence(s', x) {
      if s'.tasks[x].owned {
        var u := s'.tasks[x].key.user;
        assert x in Owners(s', u) && u in s'.running;
        assert Epoch(s', u) == Epoch(s, u);
        assert TaskFence(s, x) && s.tasks[x] == s'.tasks[x];
      }
    }
  }

  lemma FinishInflight(s: State, s': State, r: int, t: nat, aborted: bool, victim: Key)
    requires Finishes(s, s', r, t, aborted, victim) && InflightExact(s) && Stamps(s)
    ensures InflightExact(s') && Stamps(s')
  {
    SameFloor(s, s');
    forall x | x in s'.tasks ensures TaskInflight(s', x) && TaskStamp(s', x) {
      assert TaskInflight(s, x) && TaskStamp(s, x);
    }
  }

  /** Two running, unfenced fetches for one key are the same fetch. */
  lemma FetchesAreSerial(s: State, a: nat, b: nat)
    requires InflightExact(s) && a in s.tasks && b in s.tasks
    requires s.tasks[a].owned && s.tasks[b].owned && Fresh(s, a) && Fresh(s, b)
    requires s.tasks[a].key == s.tasks[b].key
    ensures a == b
  {
    assert TaskInflight(s, a) && TaskInflight(s, b);
  }

  lemma FinishKeepsAnswers(s: State, s': State, r: int, t: nat, aborted: bool, victim: Key, key: Key, entry: Entry)
    requires Finishes(s, s', r, t, aborted, victim) && FetchedFor(s, key, entry)
    ensures FetchedFor(s', key, entry)
  {
  }

  lemma FinishEntries(s: State, s': State, r: int, t: nat, aborted: bool, victim: Key)
    requires Finishes(s, s', r, t, aborted, victim) && CacheFresh(s)
    requires s.tasks[t].owned && TaskStamp(s, t) && TaskFence(s, t)
    ensures forall k :: k in s'.cache ==> EntryFresh(s', k)
  {
    SameFloor(s, s');
    forall k | k in s'.cache ensures EntryFresh(s', k) {
      if Stores(s, s.tasks[t], aborted) && k == s.tasks[t].key {
        assert Fresh(s, t) && FetchedFor(s, k, s'.cache[k]);
      } else {
        assert k in s.cache && s'.cache[k] == s.cache[k] && EntryFresh(s, k);
      }
      FinishKeepsAnswers(s, s', r, t, aborted, victim, k, s'.cache[k]);
    }
  }

  lemma FinishOrder(s: State, s': State, r: int, t: nat, aborted: bool, victim: Key)
    requires Finishes(s, s', r, t, aborted, victim) && CacheFresh(s) && InflightExact(s)
    requires s.tasks[t].owned && TaskFence(s, t)
    ensures forall x :: x in s'.tasks ==> TaskAfterCache(s', x)
  {
    SameFloor(s, s');
    forall x | x in s'.tasks ensures TaskAfterCache(s', x) {
      if s'.tasks[x].owned && Fresh(s', x) {
        assert x != t && s.tasks[x] == s'.tasks[x];
        assert TaskAfterCache(s, x);
        if Stores(s, s.tasks[t], aborted) && s.tasks[x].key == s.tasks[t].key {
          FetchesAreSerial(s, x, t);
        }
      }
    }
  }

  lemma StoreBounded(s: State, key: Key, entry: Entry, victim: Key)
    requires CacheBounded(s) && (NeedsEviction(s, key) ==> victim in s.cache)
    ensures |Store(s, key, entry, victim)| <= if s.maxEntries > 0 then s.maxEntries else 0
  {
    var kept := if NeedsEviction(s, key) then s.cache - {victim} else s.cache;
    assert kept.Keys == if NeedsEviction(s, key) then s.cache.Keys - {victim} else s.cache.Keys;
    assert |kept| == |kept.Keys| && |s.cache| == |s.cache.Keys|;
    var stored := Store(s, key, entry, victim);
    assert stored.Keys == kept.Keys + {key};
    assert |stored| == |stored.Keys|;
  }

  lemma FinishReader(s: State, s': State, r: int, t: nat, aborted: bool, victim: Key, q: int)
    requires Finishes(s, s', r, t, aborted, victim) && q in s.readers && TaskStamp(s, t)
    requires ReaderOk(s, s.readers[q]) && (q != r ==> s.readers[q].phase != Owning(t))
    ensures ReaderOk(s', s'.readers[q])
  {
    SameFloor(s, s');
    var phase := s'.readers[q].phase;
    if phase.Answered? {
      assert FetchedFor(s, s.readers[q].key, phase.entry);
      FinishKeepsAnswers(s, s', r, t, aborted, victim, s.readers[q].key, phase.entry);
    }
  }

  lemma FinishReaders(s: State, s': State, r: int, t: nat, aborted: bool, victim: Key)
    requires Finishes(s, s', r, t, aborted, victim) && ReadersFresh(s) && TaskStamp(s, t)
    ensures ReadersFresh(s')
  {
    SameFloor(s, s');
    forall q | q in s'.readers ensures ReaderOk(s', s'.readers[q]) {
      FinishReader(s, s', r, t, aborted, victim, q);
    }
  }

  lemma OwnerResumesInv(s: State, s': State, r: int, t: nat, aborted: bool, victim: Key)
    requires Inv(s) && Finishes(s, s', r, t, aborted, victim)
    requires Stores(s, s.tasks[t], aborted) && NeedsEviction(s, s.tasks[t].key) ==> victim in s.cache
    ensures Inv(s')
  {
    assert ReaderOk(s, s.readers[r]) && TaskStamp(s, t) && TaskFence(s, t);
    FinishRunning(s, s', r, t, aborted, victim);
    FinishEpochs(s, s', r, t, aborted, victim);
    FinishInflight(s, s', r, t, aborted, victim);
    FinishEntries(s, s', r, t, aborted, victim);
    FinishOrder(s, s', r, t, aborted, victim);
    FinishReaders(s, s', r, t, aborted, victim);
    if Stores(s, s.tasks[t], aborted) {
      StoreBounded(s, s.tasks[t].key, s.tasks[t].outcome.entry, victim);
    }
  }

  // -- invalidation --

  /** Either nothing changes for the user, or every trace of older fetches is fenced. */
  ghost predicate Fences(s: State, s': State, u: User) {
    if Floor(s', u) == s.clock then
      && (u in s.running ==> Epoch(s', u) == Epoch(s, u) + 1)
      && (forall k :: k in s'.cache ==> k.user != u)
      && (forall k :: k in s'.inflight ==> k.user != u)
    else
      && Floor(s', u) == Floor(s, u)
      && Epoch(s', u) == Epoch(s, u)
      && (forall k: Key :: k.user == u ==> (k in s'.cache <==> k in s.cache) && (k in s'.inflight <==> k in s.inflight))
  }

  ghost predicate FencingStep(s: State, s': State) {
    && s' == s.(epochs := s'.epochs, cache := s'.cache, inflight := s'.inflight, clock := s.clock + 1,
                invalidatedAt := s'.invalidatedAt, clearedAt := s'.clearedAt)
    && (forall u :: Fences(s, s', u))
    && (forall k :: k in s'.cache ==> k in s.cache && s'.cache[k] == s.cache[k])
    && (forall k :: k in s'.inflight ==> k in s.inflight && s'.inflight[k] == s.inflight[k])
    && s'.epochs.Keys <= s.running.Keys
  }

  lemma FencingTasks(s: State, s': State)
    requires Inv(s) && FencingStep(s, s')
    ensures RunningCounts(s') && EpochsFence(s')
  {
    assert forall u :: Owners(s', u) == Owners(s, u);
    forall t | t in s'.tasks ensures TaskFence(s', t) {
      if s.tasks[t].owned {
        var u := s.tasks[t].key.user;
        assert Fences(s, s', u) && TaskFence(s, t) && TaskStamp(s, t);
        assert t in Owners(s, u) && u in s.running;
      }
    }
  }

  lemma FencingInflight(s: State, s': State)
    requires Inv(s) && FencingStep(s, s')
    ensures InflightExact(s')
  {
    forall t | t in s'.tasks ensures TaskInflight(s', t) {
      assert Fences(s, s', s.tasks[t].key.user) && TaskInflight(s, t) && TaskStamp(s, t);
    }
  }

  lemma SmallerMap(m: map<Key, Entry>, m': map<Key, Entry>)
    requires m'.Keys <= m.Keys
    ensures |m'| <= |m|
  {
    assert m.Keys == m'.Keys + (m.Keys - m'.Keys);
    assert |m| == |m.Keys| && |m'| == |m'.Keys|;
  }

  lemma FencingRest(s: State, s': State)
    requires Inv(s) && FencingStep(s, s')
    ensures Stamps(s') && CacheFresh(s') && CacheBounded(s') && ReadersFresh(s')
  {
    forall u ensures Floor(s, u) <= Floor(s', u) < s'.clock {
      assert Fences(s, s', u);
    }
    forall k | k in s'.cache ensures EntryFresh(s', k) {
      assert Fences(s, s', k.user) && EntryFresh(s, k);
    }
    forall t | t in s'.tasks ensures TaskStamp(s', t) && TaskAfterCache(s', t) {
      assert Fences(s, s', s.tasks[t].key.user) && TaskStamp(s, t) && TaskAfterCache(s, t);
    }
    SmallerMap(s.cache, s'.cache);
    forall q | q in s'.readers ensures ReaderOk(s', s'.readers[q]) {
      assert ReaderOk(s, s.readers[q]);
    }
  }

  lemma FencingInv(s: State, s': State)
    requires Inv(s) && FencingStep(s, s')
    ensures Inv(s')
  {
    FencingTasks(s, s');
    FencingInflight(s, s');
    FencingRest(s, s');
  }

  lemma InvalidateFencesUser(s: State, users: set<User>, u: User)
    requires Floor(s, u) < s.clock
    ensures Fences(s, DoInvalidate(s, users).(clock := s.clock + 1), u)
  {
    var s' := DoInvalidate(s, users).(clock := s.clock + 1);
    assert Floor(s', u) == if u in users then s.clock else Floor(s, u);
    assert Epoch(s', u) == if u in users && u in s.running then Epoch(s, u) + 1 else Epoch(s, u);
  }

  lemma InvalidateFences(s: State, users: set<User>)
    requires RunningCounts(s) && Stamps(s)
    ensures FencingStep(s, DoInvalidate(s, users).(clock := s.clock + 1))
  {
    var s' := DoInvalidate(s, users).(clock := s.clock + 1);
    forall u ensures Fences(s, s', u) {
      InvalidateFencesUser(s, users, u);
    }
  }

  lemma ClearFencesUser(s: State, u: User)
    requires Floor(s, u) < s.clock && forall k :: k in s.inflight ==> k.user in s.running
    ensures Fences(s, DoClear(s).(clock := s.clock + 1), u)
  {
    var s' := DoClear(s).(clock := s.clock + 1);
    assert Floor(s', u) == s.clock;
    assert u in s.running ==> Epoch(s', u) == Epoch(s, u) + 1;
    assert s'.inflight.Keys == {};
  }

  lemma InflightRuns(s: State, k: Key)
    requires RunningCounts(s) && InflightExact(s) && k in s.inflight
    ensures k.user in s.running
  {
    assert TaskInflight(s, s.inflight[k]);
    assert s.inflight[k] in Owners(s, k.user);
  }

  /** What clearing leaves alone, and what it only takes away from. */
  lemma ClearShape(s: State)
    requires s.epochs.Keys <= s.running.Keys
    ensures var s' := DoClear(s).(clock := s.clock + 1);
      && s' == s.(epochs := s'.epochs, cache := s'.cache, inflight := s'.inflight, clock := s.clock + 1,
                  invalidatedAt := s'.invalidatedAt, clearedAt := s'.clearedAt)
      && s'.cache == map[]
      && (forall k :: k in s'.inflight ==> k in s.inflight && s'.inflight[k] == s.inflight[k])
      && s'.epochs.Keys <= s.running.Keys
  {
  }

  lemma ClearFences(s: State)
    requires RunningCounts(s) && InflightExact(s) && Stamps(s)
    ensures FencingStep(s, DoClear(s).(clock := s.clock + 1))
  {
    forall k | k in s.inflight ensures k.user in s.running {
      InflightRuns(s, k);
    }
    var s' := DoClear(s).(clock := s.clock + 1);
    ClearShape(s);
    forall u ensures Fences(s, s', u) {
      ClearFencesUser(s, u);
    }
  }

  lemma StepFinishes(s: State, r: int, aborted: bool, victim: Key)
    requires Enabled(s, OwnerResumes(r, aborted, victim))
    ensures Finishes(s, Step(s, OwnerResumes(r, aborted, victim)), r, s.readers[r].phase.task, aborted, victim)
  {
  }

  lemma ReaderEndsInv(s: State, s': State, r: int, phase: Phase)
    requires Inv(s) && r in s.readers
    requires s' == s.(readers := s.readers[r := s.readers[r].(phase := phase)], clock := s.clock + 1)
    requires phase.Raised?
      || (s.readers[r].phase.Waiting? && s.readers[r].phase.task in s.tasks
          && s.tasks[s.readers[r].phase.task].outcome.Fetched?
          && phase == Answered(s.tasks[s.readers[r].phase.task].outcome.entry))
    ensures Inv(s')
  {
    ReadersOnly(s, s');
    assert ReaderOk(s, s.readers[r]);
    if phase.Answered? {
      assert TaskStamp(s, s.readers[r].phase.task);
    }
    OneReaderMoves(s, s', r, s'.readers[r]);
  }

  /** Every step keeps the invariant. */
  lemma StepInv(s: State, e: Event)
    requires Inv(s) && Enabled(s, e)
    ensures Inv(Step(s, e))
  {
    match e
    case Begin(r, key, now) => BeginInv(s, r, key, now);
    case Enter(r) => EnterInv(s, r);
    case FetchDone(t, perms, now) => SettleInv(s, Step(s, e), t, Fetched(Entry(perms, now, t)));
    case FetchFails(t) => SettleInv(s, Step(s, e), t, Failed);
    case JoinerResumes(r) => ReaderEndsInv(s, Step(s, e), r, Step(s, e).readers[r].phase);
    case OwnerResumes(r, aborted, victim) =>
      StepFinishes(s, r, aborted, victim);
      OwnerResumesInv(s, Step(s, e), r, s.readers[r].phase.task, aborted, victim);
    case Abort(r) => ReaderEndsInv(s, Step(s, e), r, Raised);
    case InvalidateMany(users) =>
      InvalidateFences(s, users);
      FencingInv(s, Step(s, e));
    case Clear =>
      ClearFences(s);
      FencingInv(s, Step(s, e));
  }
}
