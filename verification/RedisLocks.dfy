/** The Redis lock and the leader lease as a state machine over one key
    (src/service_toolkit/state/redis.py). Each script call is one atomic step. */
module RedisLocks {
  import opened Options

  /** A lock instance; its random token is its identity. */
  datatype Token = Token(id: nat)

  /** What Redis stores under the key: the token and the instant it expires. */
  datatype Record = Record(token: Token, expiresAt: int)

  /** The renewal task of a lease: never started, running, or finished. */
  datatype Renewal = NoTask | Running | Done

  /** A lock with the lease around it. `leaseEnd` is when the lease it last obtained ends. */
  datatype Lock = Lock(held: bool, lost: bool, renewal: Renewal, leaseEnd: int)

  datatype State = State(now: int, stored: Option<Record>, locks: map<Token, Lock>)

  datatype Event =
    | Tick(now: int)
    | Create(token: Token)
    | Acquire(token: Token, ttl: int)
    | Release(token: Token)
    | Extend(token: Token, ttl: int)
    | LeaseAcquire(token: Token, ttl: int)
    | LeaseRenew(token: Token, ttl: int)
    | LeaseLetGo(token: Token)

  function Init(now: int): State {
    State(now, None, map[])
  }

  /** The key as Redis sees it: gone once it has expired. */
  function LiveRecord(stored: Option<Record>, now: int): Option<Record> {
    if stored.Some? && now < stored.value.expiresAt then stored else None
  }

  function Stored(s: State): Option<Record> {
    LiveRecord(s.stored, s.now)
  }

  predicate Owns(s: State, token: Token) {
    Stored(s).Some? && Stored(s).value.token == token
  }

  /** The smallest time to live the code sends is one millisecond. */
  function TtlMs(ttl: int): int {
    if ttl >= 1 then ttl else 1
  }

  // ---- the lock ----

  /** SET NX PX: succeeds when the key is absent; the flag follows the answer either way. */
  function DoAcquire(s: State, token: Token, ttl: int): State
    requires token in s.locks
  {
    var lock := s.locks[token];
    if Stored(s).None? then
      s.(stored := Some(Record(token, s.now + TtlMs(ttl))),
         locks := s.locks[token := lock.(held := true, leaseEnd := s.now + TtlMs(ttl))])
    else
      s.(locks := s.locks[token := lock.(held := false)])
  }

  function AcquireAnswer(s: State): bool {
    Stored(s).None?
  }

  /** Compare and delete. */
  function DoRelease(s: State, token: Token): State
    requires token in s.locks
  {
    var lock := s.locks[token];
    if !lock.held then s
    else
      s.(stored := if Owns(s, token) then None else s.stored,
         locks := s.locks[token := lock.(held := false)])
  }

  predicate ReleaseAnswer(s: State, token: Token)
    requires token in s.locks
  {
    s.locks[token].held && Owns(s, token)
  }

  /** Compare and set the expiry. */
  function DoExtend(s: State, token: Token, ttl: int): State
    requires token in s.locks
  {
    var lock := s.locks[token];
    if !lock.held then s
    else if Owns(s, token) then
      s.(stored := Some(Record(token, s.now + TtlMs(ttl))),
         locks := s.locks[token := lock.(leaseEnd := s.now + TtlMs(ttl))])
    else
      s.(locks := s.locks[token := lock.(held := false)])
  }

  predicate ExtendAnswer(s: State, token: Token)
    requires token in s.locks
  {
    s.locks[token].held && Owns(s, token)
  }

  // ---- the lease ----

  predicate LeaseHeld(lock: Lock) {
    lock.held && !lock.lost
  }

  function DoLeaseAcquire(s: State, token: Token, ttl: int): State
    requires token in s.locks
  {
    if s.locks[token].renewal.Running? then s
    else
      var s' := DoAcquire(s, token, ttl);
      if AcquireAnswer(s) then
        s'.(locks := s'.locks[token := s'.locks[token].(lost := false, renewal := Running)])
      else s'
  }

  /** One round of the renewal loop. */
  function DoLeaseRenew(s: State, token: Token, ttl: int): State
    requires token in s.locks
  {
    var s' := DoExtend(s, token, ttl);
    if ExtendAnswer(s, token) then s'
    else s'.(locks := s'.locks[token := s'.locks[token].(lost := true, renewal := Done)])
  }

  /** The first half of the lease's release: the task goes and the loss is flagged; the lock itself is
      released in a later step. */
  function DoLeaseLetGo(s: State, token: Token): State
    requires token in s.locks
  {
    s.(locks := s.locks[token := s.locks[token].(lost := true, renewal := NoTask)])
  }

  predicate Enabled(s: State, e: Event) {
    match e
    case Tick(now) => s.now <= now
    case Create(token) => token !in s.locks
    case Acquire(token, _) => token in s.locks
    case Release(token) => token in s.locks
    case Extend(token, _) => token in s.locks
    case LeaseAcquire(token, _) => token in s.locks
    case LeaseRenew(token, _) => token in s.locks && s.locks[token].renewal.Running?
    case LeaseLetGo(token) => token in s.locks
  }

  function Step(s: State, e: Event): State
    requires Enabled(s, e)
  {
    match e
    case Tick(now) => s.(now := now)
    case Create(token) => s.(locks := s.locks[token := Lock(false, false, NoTask, s.now)])
    case Acquire(token, ttl) => DoAcquire(s, token, ttl)
    case Release(token) => DoRelease(s, token)
    case Extend(token, ttl) => DoExtend(s, token, ttl)
    case LeaseAcquire(token, ttl) => DoLeaseAcquire(s, token, ttl)
    case LeaseRenew(token, ttl) => DoLeaseRenew(s, token, ttl)
    case LeaseLetGo(token) => DoLeaseLetGo(s, token)
  }

  // ---- the invariant ----

  /** The lock believes it is held and the lease it obtained has not run out. */
  predicate InsideLease(s: State, token: Token) {
    token in s.locks && s.locks[token].held && s.now < s.locks[token].leaseEnd
  }

  /** A lock inside its lease owns the key, until exactly the end of that lease. */
  ghost predicate LockOk(s: State, token: Token)
    requires token in s.locks
  {
    s.locks[token].held ==> (s.now < s.locks[token].leaseEnd <==> Owns(s, token))
                            && (Owns(s, token) ==> s.stored == Some(Record(token, s.locks[token].leaseEnd)))
  }

  ghost predicate Inv(s: State) {
    && (forall token :: token in s.locks ==> LockOk(s, token))
    && (s.stored.Some? ==> s.stored.value.token in s.locks)
  }

  /** Every step keeps the invariant. */
  lemma StepInv(s: State, e: Event)
    requires Inv(s) && Enabled(s, e)
    ensures Inv(Step(s, e))
  {
    var s' := Step(s, e);
    forall token | token in s'.locks ensures LockOk(s', token) {
      assert token in s.locks ==> LockOk(s, token);
    }
  }

  // ---- every run ----

  ghost predicate StepAt(states: seq<State>, events: seq<Event>, k: int)
    requires 0 <= k < |events| && |states| == |events| + 1
  {
    Enabled(states[k], events[k]) && states[k + 1] == Step(states[k], events[k])
  }

  /** Any interleaving of calls by any number of locks, with time passing in between. */
  ghost predicate IsRun(states: seq<State>, events: seq<Event>) {
    && |states| == |events| + 1 && states[0] == Init(states[0].now)
    && forall k :: 0 <= k < |events| ==> StepAt(states, events, k)
  }

  lemma {:induction false} RunInv(states: seq<State>, events: seq<Event>, k: nat)
    requires IsRun(states, events) && k < |states|
    ensures Inv(states[k])
  {
    if k > 0 {
      RunInv(states, events, k - 1);
      assert StepAt(states, events, k - 1);
      StepInv(states[k - 1], events[k - 1]);
    }
  }

  /** Mutual exclusion: at most one lock is inside an unexpired lease. */
  lemma MutualExclusion(states: seq<State>, events: seq<Event>, k: nat, a: Token, b: Token)
    requires IsRun(states, events) && k < |states|
    requires InsideLease(states[k], a) && InsideLease(states[k], b)
    ensures a == b
  {
    RunInv(states, events, k);
    assert LockOk(states[k], a) && LockOk(states[k], b);
  }

  /** A lock that reports held really owns the key exactly while its last lease has not run out. */
  lemma HeldIsOwnershipUntilExpiry(states: seq<State>, events: seq<Event>, k: nat, token: Token)
    requires IsRun(states, events) && k < |states|
    requires token in states[k].locks && states[k].locks[token].held
    ensures Owns(states[k], token) <==> states[k].now < states[k].locks[token].leaseEnd
  {
    RunInv(states, events, k);
    assert LockOk(states[k], token);
  }

  /** Held alone is not exclusive: after an expiry two locks can both report it. */
  lemma HeldAloneIsNotExclusive() returns (states: seq<State>, events: seq<Event>, a: Token, b: Token)
    ensures IsRun(states, events) && a != b
    ensures a in states[|events|].locks && b in states[|events|].locks
    ensures states[|events|].locks[a].held && states[|events|].locks[b].held
  {
    a, b := Token(0), Token(1);
    events := [Create(a), Create(b), Acquire(a, 10), Tick(20), Acquire(b, 10)];
    var s1 := Step(Init(0), Create(a));
    var s2 := Step(s1, Create(b));
    var s3 := Step(s2, Acquire(a, 10));
    var s4 := Step(s3, Tick(20));
    var s5 := Step(s4, Acquire(b, 10));
    states := [Init(0), s1, s2, s3, s4, s5];
    assert s5.locks[a].held && s5.locks[b].held;
    forall k | 0 <= k < |events| ensures StepAt(states, events, k) {
      assert k == 0 || k == 1 || k == 2 || k == 3 || k == 4;
    }
  }

  /** The lock a step belongs to; the clock belongs to nobody. */
  function Actor(e: Event): Option<Token> {
    match e
    case Tick(_) => None
    case Create(token) => Some(token)
    case Acquire(token, _) => Some(token)
    case Release(token) => Some(token)
    case Extend(token, _) => Some(token)
    case LeaseAcquire(token, _) => Some(token)
    case LeaseRenew(token, _) => Some(token)
    case LeaseLetGo(token) => Some(token)
  }

  /** No step of one lock disturbs another: its flags stay, and while it owns the key neither the
      key nor its expiry changes. */
  lemma OthersAreUndisturbed(s: State, e: Event, other: Token)
    requires Enabled(s, e) && other in s.locks && Actor(e) != Some(other)
    ensures other in Step(s, e).locks && Step(s, e).locks[other] == s.locks[other]
    ensures Owns(s, other) ==> Step(s, e).stored == s.stored
    ensures !Owns(s, other) ==> !Owns(Step(s, e), other)
  {
  }

  /** The lock obtained the key in this step. */
  predicate Acquires(s: State, e: Event, token: Token) {
    && Enabled(s, e) && AcquireAnswer(s)
    && ((e.Acquire? && e.token == token) || (e.LeaseAcquire? && e.token == token && !s.locks[token].renewal.Running?))
  }

  lemma OnlyAcquireTurnsHeldOn(s: State, e: Event, token: Token)
    requires Enabled(s, e) && token in s.locks && !s.locks[token].held && !Acquires(s, e, token)
    ensures token in Step(s, e).locks && !Step(s, e).locks[token].held
  {
  }

  /** The step asked Redis to extend the lock, and the answer was false. */
  predicate ExtendFails(s: State, e: Event, token: Token) {
    && Enabled(s, e) && ((e.Extend? && e.token == token) || (e.LeaseRenew? && e.token == token))
    && !ExtendAnswer(s, token)
  }

  /** Once an extension has failed, the lease does not report held until a new successful acquire. */
  lemma {:induction false} NotHeldUntilReacquired(states: seq<State>, events: seq<Event>, a: nat, k: nat, token: Token)
    requires IsRun(states, events) && a < k < |states| && ExtendFails(states[a], events[a], token)
    requires forall j :: a < j < k ==> !Acquires(states[j], events[j], token)
    ensures token in states[k].locks && !states[k].locks[token].held && !LeaseHeld(states[k].locks[token])
  {
    assert StepAt(states, events, k - 1);
    if a < k - 1 {
      NotHeldUntilReacquired(states, events, a, k - 1, token);
      OnlyAcquireTurnsHeldOn(states[k - 1], events[k - 1], token);
    }
  }

  // ---- the flags and the lease, from the events ----

  /** The step extended the lock's lease. */
  predicate Extends(s: State, e: Event, token: Token) {
    && Enabled(s, e) && ((e.Extend? && e.token == token) || (e.LeaseRenew? && e.token == token))
    && ExtendAnswer(s, token)
  }

  lemma LeaseStep(s: State, e: Event, token: Token)
    requires Enabled(s, e) && token in s.locks
    ensures token in Step(s, e).locks
    ensures Step(s, e).locks[token].leaseEnd
         == if Acquires(s, e, token) || Extends(s, e, token) then s.now + (if e.ttl >= 1 then e.ttl else 1)
            else s.locks[token].leaseEnd
  {
  }

  /** A lease lasts from the last successful acquire or extension of its lock for the time asked for there,
      and for at least one millisecond. */
  lemma {:induction false} LeaseLasts(states: seq<State>, events: seq<Event>, j: nat, k: nat, token: Token)
    requires IsRun(states, events) && j < k < |states|
    requires Acquires(states[j], events[j], token) || Extends(states[j], events[j], token)
    requires forall m :: j < m < k ==>
      !Acquires(states[m], events[m], token) && !Extends(states[m], events[m], token)
    ensures token in states[k].locks
    ensures states[k].locks[token].leaseEnd == states[j].now + if events[j].ttl >= 1 then events[j].ttl else 1
  {
    var i := k - 1;
    assert StepAt(states, events, i);
    if j < i {
      LeaseLasts(states, events, j, i, token);
    }
    LeaseStep(states[i], events[i], token);
    assert states[i + 1] == states[k];
  }

  /** The step takes the lock's flag away: a release, an acquire that Redis refuses or a failed extension. */
  predicate Drops(s: State, e: Event, token: Token) {
    && Enabled(s, e) && !Acquires(s, e, token) && !Extends(s, e, token)
    && match e
       case Acquire(x, _) => x == token
       case Release(x) => x == token
       case Extend(x, _) => x == token
       case LeaseRenew(x, _) => x == token
       case LeaseAcquire(x, _) => x == token && !s.locks[x].renewal.Running?
       case _ => false
  }

  /** The lease is lost: let go, or not renewed. */
  predicate Loses(s: State, e: Event, token: Token) {
    && Enabled(s, e)
    && ((e.LeaseLetGo? && e.token == token) || (e.LeaseRenew? && e.token == token && !ExtendAnswer(s, token)))
  }

  /** Before its creation a lock does nothing. */
  lemma {:induction false} NotYetThere(states: seq<State>, events: seq<Event>, i: nat, token: Token)
    requires IsRun(states, events) && i < |states| && token !in states[i].locks
    ensures forall j :: 0 <= j < i ==>
      !Acquires(states[j], events[j], token) && !Loses(states[j], events[j], token)
  {
    if i > 0 {
      var h := i - 1;
      assert StepAt(states, events, h) && states[h + 1] == states[i];
      NotYetThere(states, events, h, token);
    }
  }

  lemma HeldStep(s: State, e: Event, token: Token)
    requires Enabled(s, e) && token in Step(s, e).locks
    ensures Step(s, e).locks[token].held
       <==> Acquires(s, e, token) || (token in s.locks && s.locks[token].held && !Drops(s, e, token))
  {
  }

  ghost predicate KeptSince(states: seq<State>, events: seq<Event>, j: int, k: int, token: Token)
    requires 0 <= j && k <= |events| <= |states|
  {
    forall m :: j < m < k ==> !Drops(states[m], events[m], token)
  }

  /** A lock reports held exactly from a successful acquire on, until a release, a refused acquire or a
      failed extension of its own. */
  lemma {:induction false} HeldExactly(states: seq<State>, events: seq<Event>, k: nat, token: Token)
    requires IsRun(states, events) && k < |states| && token in states[k].locks
    ensures states[k].locks[token].held <==>
      exists j :: 0 <= j < k && Acquires(states[j], events[j], token) && KeptSince(states, events, j, k, token)
  {
    assert k > 0;
    var i := k - 1;
    assert StepAt(states, events, i) && states[i + 1] == states[k];
    HeldStep(states[i], events[i], token);
    if token in states[i].locks {
      HeldExactly(states, events, i, token);
    } else {
      NotYetThere(states, events, i, token);
    }
    if Acquires(states[i], events[i], token) {
      assert KeptSince(states, events, i, k, token);
    }
  }

  lemma LostStep(s: State, e: Event, token: Token)
    requires Enabled(s, e) && token in Step(s, e).locks
    ensures Step(s, e).locks[token].lost <==>
      || Loses(s, e, token)
      || (token in s.locks && s.locks[token].lost && !(e.LeaseAcquire? && Acquires(s, e, token)))
  {
  }

  ghost predicate LeasedSince(states: seq<State>, events: seq<Event>, j: int, k: int, token: Token)
    requires 0 <= j && k <= |events| <= |states|
  {
    exists m :: j < m < k && events[m].LeaseAcquire? && Acquires(states[m], events[m], token)
  }

  /** The lost flag of a lease is set exactly from its loss on, until the lease is acquired anew. */
  lemma {:induction false} LostExactly(states: seq<State>, events: seq<Event>, k: nat, token: Token)
    requires IsRun(states, events) && k < |states| && token in states[k].locks
    ensures states[k].locks[token].lost <==>
      exists j :: 0 <= j < k && Loses(states[j], events[j], token) && !LeasedSince(states, events, j, k, token)
  {
    assert k > 0;
    var i := k - 1;
    assert StepAt(states, events, i) && states[i + 1] == states[k];
    LostStep(states[i], events[i], token);
    if token in states[i].locks {
      LostExactly(states, events, i, token);
    } else {
      NotYetThere(states, events, i, token);
    }
    if Loses(states[i], events[i], token) {
      assert !LeasedSince(states, events, i, k, token);
    }
  }

  /** A lease reports held exactly while its lock does and it has not been lost since it was last acquired. */
  lemma LeaseHeldExactly(states: seq<State>, events: seq<Event>, k: nat, token: Token)
    requires IsRun(states, events) && k < |states| && token in states[k].locks
    ensures LeaseHeld(states[k].locks[token]) <==>
      && (exists j :: 0 <= j < k && Acquires(states[j], events[j], token) && KeptSince(states, events, j, k, token))
      && (forall j :: 0 <= j < k && Loses(states[j], events[j], token) ==> LeasedSince(states, events, j, k, token))
  {
    HeldExactly(states, events, k, token);
    LostExactly(states, events, k, token);
  }

  /** A lease that reports held while its last lease has not run out is the only one. */
  lemma OneLeader(states: seq<State>, events: seq<Event>, k: nat, a: Token, b: Token)
    requires IsRun(states, events) && k < |states| && a in states[k].locks && b in states[k].locks
    requires LeaseHeld(states[k].locks[a]) && LeaseHeld(states[k].locks[b])
    requires states[k].now < states[k].locks[a].leaseEnd && states[k].now < states[k].locks[b].leaseEnd
    ensures a == b
  {
    MutualExclusion(states, events, k, a, b);
  }

  lemma RenewalStep(s: State, e: Event, token: Token)
    requires Enabled(s, e) && token in Step(s, e).locks
    ensures Step(s, e).locks[token].renewal.Running? <==>
      || (e.LeaseAcquire? && Acquires(s, e, token))
      || (token in s.locks && s.locks[token].renewal.Running? && !Loses(s, e, token))
  {
  }

  ghost predicate NotLostSince(states: seq<State>, events: seq<Event>, j: int, k: int, token: Token)
    requires 0 <= j && k <= |events| <= |states|
  {
    forall m :: j < m < k ==> !Loses(states[m], events[m], token)
  }

  /** The renewal task of a lease runs exactly from a successful acquire on, until the lease is lost. */
  lemma {:induction false} RenewsExactly(states: seq<State>, events: seq<Event>, k: nat, token: Token)
    requires IsRun(states, events) && k < |states| && token in states[k].locks
    ensures states[k].locks[token].renewal.Running? <==>
      exists j :: && 0 <= j < k && events[j].LeaseAcquire? && Acquires(states[j], events[j], token)
                  && NotLostSince(states, events, j, k, token)
  {
    assert k > 0;
    var i := k - 1;
    assert StepAt(states, events, i) && states[i + 1] == states[k];
    RenewalStep(states[i], events[i], token);
    if token in states[i].locks {
      RenewsExactly(states, events, i, token);
    } else {
      NotYetThere(states, events, i, token);
    }
    if Acquires(states[i], events[i], token) {
      assert NotLostSince(states, events, i, k, token);
    }
  }

  /** What the calls answer is what they did: the lock is held, the key is gone, the lease goes on. */
  lemma AnswersAreTrue(s: State, token: Token, ttl: int)
    requires token in s.locks
    ensures AcquireAnswer(s) <==> Step(s, Acquire(token, ttl)).locks[token].held
    ensures AcquireAnswer(s) ==> Owns(Step(s, Acquire(token, ttl)), token)
    ensures ReleaseAnswer(s, token) <==> Owns(s, token) && Stored(Step(s, Release(token))).None?
    ensures ExtendAnswer(s, token) <==> Step(s, Extend(token, ttl)).locks[token].held
    ensures ExtendAnswer(s, token) ==> Owns(Step(s, Extend(token, ttl)), token)
  {
  }

  // ---- a key nobody reports ----

  /** The lock owns the key and does not report it. */
  predicate Stranded(s: State, token: Token) {
    token in s.locks && Owns(s, token) && !s.locks[token].held
  }

  /** The lock asks for the key while the key is its own. */
  predicate AsksAgain(s: State, e: Event, token: Token) {
    && Enabled(s, e) && Owns(s, token)
    && ((e.Acquire? && e.token == token) || (e.LeaseAcquire? && e.token == token && !s.locks[token].renewal.Running?))
  }

  /** No call gives a stranded key back: it stays until it expires. */
  lemma StrandedStays(s: State, e: Event, token: Token)
    requires Stranded(s, token) && Enabled(s, e)
    ensures token in Step(s, e).locks && !Step(s, e).locks[token].held
    ensures Step(s, e).stored == s.stored
  {
  }

  /** Asking again is the only step that strands a key. */
  lemma StrandedBy(s: State, e: Event, token: Token)
    requires Inv(s) && Enabled(s, e) && !Stranded(s, token)
    ensures Stranded(Step(s, e), token) <==> AsksAgain(s, e, token)
    ensures AsksAgain(s, e, token) ==> Step(s, e).stored == s.stored
  {
    assert token in s.locks ==> LockOk(s, token);
  }

  lemma {:induction false} TimePasses(states: seq<State>, events: seq<Event>, j: nat, k: nat)
    requires IsRun(states, events) && j <= k < |states|
    ensures states[j].now <= states[k].now
  {
    if j < k {
      TimePasses(states, events, j, k - 1);
      assert StepAt(states, events, k - 1);
    }
  }

  /** The key that was stranded at step j is the one stored at state k. */
  ghost predicate StrandedAt(states: seq<State>, events: seq<Event>, j: nat, k: nat, token: Token)
    requires j < |events| && k < |states| && |states| == |events| + 1
  {
    AsksAgain(states[j], events[j], token) && states[j].stored == states[k].stored
  }

  lemma {:induction false} StrandedUntilExpiry(states: seq<State>, events: seq<Event>, j: nat, k: nat, token: Token)
    requires IsRun(states, events) && j < k < |states| && AsksAgain(states[j], events[j], token)
    requires states[k].now < states[j].stored.value.expiresAt
    ensures Stranded(states[k], token) && states[k].stored == states[j].stored
  {
    RunInv(states, events, k - 1);
    assert StepAt(states, events, k - 1);
    TimePasses(states, events, k - 1, k);
    if j < k - 1 {
      StrandedUntilExpiry(states, events, j, k - 1, token);
      StrandedStays(states[k - 1], events[k - 1], token);
    } else if Stranded(states[j], token) {
      StrandedStays(states[j], events[j], token);
    } else {
      StrandedBy(states[j], events[j], token);
    }
  }

  lemma {:induction false} StrandedSince(states: seq<State>, events: seq<Event>, k: nat, token: Token)
    returns (j: nat)
    requires IsRun(states, events) && k < |states| && Stranded(states[k], token)
    ensures j < k && StrandedAt(states, events, j, k, token)
  {
    if k > 0 {
      RunInv(states, events, k - 1);
      assert StepAt(states, events, k - 1);
      if Stranded(states[k - 1], token) {
        StrandedStays(states[k - 1], events[k - 1], token);
        j := StrandedSince(states, events, k - 1, token);
      } else {
        StrandedBy(states[k - 1], events[k - 1], token);
        j := k - 1;
      }
    }
  }

  /** In every run a lock owns the key without reporting it exactly when it asked for that very key
      again while it was its own. */
  lemma StrandedExactlyAfterAskingAgain(states: seq<State>, events: seq<Event>, k: nat, token: Token)
    requires IsRun(states, events) && k < |states|
    ensures Stranded(states[k], token) <==>
            Owns(states[k], token) && exists j: nat :: j < k && StrandedAt(states, events, j, k, token)
  {
    if Stranded(states[k], token) {
      var j := StrandedSince(states, events, k, token);
    } else if Owns(states[k], token) {
      forall j: nat | j < k ensures !StrandedAt(states, events, j, k, token) {
        if StrandedAt(states, events, j, k, token) {
          StrandedUntilExpiry(states, events, j, k, token);
        }
      }
    }
  }

  /** A lease that is taken up again between the two halves of its release is stranded: the release
      leaves the key behind. */
  lemma ReleaseCanLeaveTheKey() returns (states: seq<State>, events: seq<Event>, a: Token)
    ensures IsRun(states, events) && events != [] && events[|events| - 1] == Release(a)
    ensures Stranded(states[|events|], a)
  {
    a := Token(0);
    events := [Create(a), LeaseAcquire(a, 10), LeaseLetGo(a), LeaseAcquire(a, 10), Release(a)];
    var s1 := Step(Init(0), Create(a));
    var s2 := Step(s1, LeaseAcquire(a, 10));
    var s3 := Step(s2, LeaseLetGo(a));
    var s4 := Step(s3, LeaseAcquire(a, 10));
    var s5 := Step(s4, Release(a));
    states := [Init(0), s1, s2, s3, s4, s5];
    forall k | 0 <= k < |events| ensures StepAt(states, events, k) {
      assert k == 0 || k == 1 || k == 2 || k == 3 || k == 4;
    }
  }

  // ---- one lock at a time ----

  /** What one lock can see: the key and itself. */
  function Project(s: State, token: Token): State
    requires token in s.locks
  {
    s.(locks := map[token := s.locks[token]])
  }

  /** A step of a lock does in the whole system what it does on the lock's own view. */
  lemma StepIsLocal(s: State, e: Event, token: Token)
    requires Enabled(s, e) && token in s.locks && Actor(e) == Some(token)
    ensures Enabled(Project(s, token), e)
    ensures Step(Project(s, token), e) == Project(Step(s, e), token)
  {
    var p := Project(s, token);
    assert Stored(p) == Stored(s);
    assert Step(p, e).locks == map[token := Step(s, e).locks[token]];
  }
}
