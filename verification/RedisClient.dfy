/** The lock and the lease as objects that share one Redis key (src/service_toolkit/state/redis.py). */
module RedisClient {
  import opened Options
  import opened RedisLocks

  /** One key of the server: SET NX PX and the two compare scripts, each atomic. */
  class RedisKey {
    var now: int
    var stored: Option<Record>

    constructor (now: int)
      ensures this.now == now && stored == None
    {
      this.now, stored := now, None;
    }

    function Live(): Option<Record>
      reads this
    {
      LiveRecord(stored, now)
    }

    method SetNxPx(token: Token, ttlMs: int) returns (ok: bool)
      modifies this`stored
      ensures ok == old(Live()).None?
      ensures stored == if ok then Some(Record(token, now + ttlMs)) else old(stored)
    {
      ok := Live().None?;
      if ok {
        stored := Some(Record(token, now + ttlMs));
      }
    }

    method CompareAndDelete(token: Token) returns (deleted: bool)
      modifies this`stored
      ensures deleted == (old(Live()).Some? && old(Live()).value.token == token)
      ensures stored == if deleted then None else old(stored)
    {
      deleted := Live().Some? && Live().value.token == token;
      if deleted {
        stored := None;
      }
    }

    method CompareAndExpire(token: Token, ttlMs: int) returns (extended: bool)
      modifies this`stored
      ensures extended == (old(Live()).Some? && old(Live()).value.token == token)
      ensures stored == if extended then Some(Record(token, now + ttlMs)) else old(stored)
    {
      extended := Live().Some? && Live().value.token == token;
      if extended {
        stored := Some(Record(token, now + ttlMs));
      }
    }
  }

  class RedisLock {
    const redis: RedisKey
    const token: Token
    const ttl: int
    var held: bool
    ghost var leaseEnd: int

    /** The lock's view of the system. */
    ghost function View(): State
      reads this, redis
    {
      State(redis.now, redis.stored, map[token := Lock(held, false, NoTask, leaseEnd)])
    }

    constructor (redis: RedisKey, token: Token, ttl: int)
      ensures this.redis == redis && this.token == token && this.ttl == ttl
      ensures View() == Step(State(redis.now, redis.stored, map[]), Create(token))
    {
      this.redis, this.token, this.ttl, held := redis, token, ttl, false;
      leaseEnd := redis.now;
    }

    method Acquire() returns (ok: bool)
      modifies this, redis`stored
      ensures View() == Step(old(View()), RedisLocks.Acquire(token, ttl))
      ensures ok == held == AcquireAnswer(old(View()))
    {
      var ttlMs := if ttl >= 1 then ttl else 1;
      ok := redis.SetNxPx(token, ttlMs);
      held := ok;
      if ok {
        leaseEnd := redis.now + ttlMs;
      }
    }

    method Release() returns (ok: bool)
      modifies this, redis`stored
      ensures View() == Step(old(View()), RedisLocks.Release(token))
      ensures ok == ReleaseAnswer(old(View()), token)
    {
      if !held {
        return false;
      }
      ok := redis.CompareAndDelete(token);
      held := false;
    }

    method Extend(ttlOverride: Option<int>) returns (ok: bool)
      modifies this, redis`stored
      ensures var used := if ttlOverride.None? then ttl else ttlOverride.value;
        View() == Step(old(View()), RedisLocks.Extend(token, used))
      ensures ok == ExtendAnswer(old(View()), token)
    {
      if !held {
        return false;
      }
      var used := if ttlOverride.None? then ttl else ttlOverride.value;
      var ttlMs := if used >= 1 then used else 1;
      ok := redis.CompareAndExpire(token, ttlMs);
      if !ok {
        held := false;
      } else {
        leaseEnd := redis.now + ttlMs;
      }
    }
  }

  class LeaderLease {
    const lock: RedisLock
    var lost: bool
    var renewal: Renewal

    /** The lease's view: its lock, its loss flag and its renewal task. */
    ghost function View(): State
      reads this, lock, lock.redis
    {
      State(lock.redis.now, lock.redis.stored, map[lock.token := Lock(lock.held, lost, renewal, lock.leaseEnd)])
    }

    constructor (redis: RedisKey, token: Token, ttl: int)
      ensures fresh(lock) && lock.redis == redis && lock.token == token && lock.ttl == ttl
      ensures View() == Step(State(redis.now, redis.stored, map[]), Create(token))
    {
      lock := new RedisLock(redis, token, ttl);
      lost, renewal := false, NoTask;
    }

    method Held() returns (held: bool)
      ensures held == LeaseHeld(View().locks[lock.token])
    {
      held := lock.held && !lost;
    }

    method Acquire() returns (ok: bool)
      modifies this, lock, lock.redis`stored
      ensures View() == Step(old(View()), LeaseAcquire(lock.token, lock.ttl))
      ensures ok == if old(renewal).Running? then LeaseHeld(old(View()).locks[lock.token])
                    else AcquireAnswer(old(View()))
    {
      if renewal.Running? {
        ok := Held();
        return;
      }
      ok := lock.Acquire();
      if !ok {
        return;
      }
      lost := false;
      renewal := Running;
    }

    /** One round of `_renew_loop` after its sleep. */
    method RenewOnce()
      requires renewal.Running?
      modifies this, lock, lock.redis`stored
      ensures View() == Step(old(View()), LeaseRenew(lock.token, lock.ttl))
    {
      var ok := lock.Extend(Some(lock.ttl));
      if !ok {
        lost := true;
        renewal := Done;
      }
    }

    /** `release` up to the point where it waits for the cancelled task. */
    method LetGo()
      modifies this
      ensures View() == Step(old(View()), LeaseLetGo(lock.token))
    {
      renewal := NoTask;
      lost := true;
    }

    /** The rest of `release`. */
    method ReleaseLock()
      modifies this, lock, lock.redis`stored
      ensures View() == Step(old(View()), RedisLocks.Release(lock.token))
    {
      var released := lock.Release();
      assert View().locks == Step(old(View()), RedisLocks.Release(lock.token)).locks;
    }
  }
}
