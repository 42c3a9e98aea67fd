/** The resolver with its four dictionaries, changed in place
    (src/service_toolkit/security/platform_perms_resolver.py). */
module PermsResolver {
  import opened PermsProtocol

  lemma BumpOne(s: State, done: set<User>, uid: User)
    requires uid !in done
    ensures BumpedEpochs(s, done + {uid})
         == if uid in s.running then BumpedEpochs(s, done)[uid := Epoch(s, uid) + 1] else BumpedEpochs(s, done)
    ensures (if uid in BumpedEpochs(s, done) then BumpedEpochs(s, done)[uid] else 0) == Epoch(s, uid)
  {
  }

  lemma BumpNone(s: State, doomed: set<User>)
    ensures BumpedEpochs(s, doomed - doomed) == s.epochs
  {
  }

  /** Only a running user has an epoch to move on. */
  function BumpedEpoch(epochs: map<User, int>, running: map<User, int>, uid: User): map<User, int> {
    if uid in running then epochs[uid := (if uid in epochs then epochs[uid] else 0) + 1] else epochs
  }

  /** One round of the loop over the doomed users. */
  lemma BumpRound(s: State, epochs: map<User, int>, doomed: set<User>, todo: set<User>, uid: User)
    requires epochs == BumpedEpochs(s, doomed - todo) && uid in todo && todo <= doomed
    ensures BumpedEpochs(s, doomed - (todo - {uid})) == BumpedEpoch(epochs, s.running, uid)
  {
    assert doomed - (todo - {uid}) == (doomed - todo) + {uid};
    BumpOne(s, doomed - todo, uid);
  }

  class PlatformPermsResolver {
    const maxEntries: int
    const ttl: int
    var cache: map<Key, Entry>
    var inflight: map<Key, nat>
    var epochs: map<User, int>
    var running: map<User, int>
    // The tasks and readers of the event loop, and the history used to state freshness.
    var tasks: map<nat, Task>
    var readers: map<int, Reader>
    var clock: nat
    var invalidatedAt: map<User, nat>
    var clearedAt: nat

    function View(): State
      reads this
    {
      State(maxEntries, ttl, cache, inflight, epochs, running, tasks, readers, clock, invalidatedAt, clearedAt)
    }

    constructor (ttlSeconds: int, maxEntries: int)
      ensures View() == Init(maxEntries, ttlSeconds)
    {
      this.maxEntries, ttl := maxEntries, ttlSeconds;
      cache, inflight, epochs, running := map[], map[], map[], map[];
      tasks, readers, clock, invalidatedAt, clearedAt := map[], map[], 1, map[], 0;
    }

    /** `get` up to its first suspension: a fresh entry answers at once. */
    method BeginGet(r: int, key: Key, now: int)
      requires Enabled(View(), Begin(r, key, now))
      modifies this
      ensures View() == Step(old(View()), Begin(r, key, now))
    {
      var phase := AtLock;
      if key in cache && now - cache[key].fetchedAt < ttl {
        phase := Answered(cache[key]);
      } else if key in inflight {
        phase := Waiting(inflight[key]);
      }
      assert phase == BeginPhase(View(), key, now);
      readers := readers[r := Reader(key, Floor(View(), key.user), phase)];
      clock := clock + 1;
    }

    /** The critical section of `_fetch_and_cache`. */
    method EnterLock(r: int)
      requires Enabled(View(), Enter(r))
      modifies this
      ensures View() == Step(old(View()), Enter(r))
    {
      var reader := readers[r];
      var key := reader.key;
      if key in inflight {
        readers := readers[r := reader.(phase := Waiting(inflight[key]))];
      } else {
        var epoch := if key.user in epochs then epochs[key.user] else 0;
        tasks := tasks[clock := Task(key, epoch, Pending, true)];
        inflight := inflight[key := clock];
        running := running[key.user := (if key.user in running then running[key.user] else 0) + 1];
        readers := readers[r := reader.(phase := Owning(clock))];
      }
      clock := clock + 1;
    }

    method StoreEntry(key: Key, entry: Entry, victim: Key)
      requires NeedsEviction(View(), key) ==> IsOldest(cache, victim)
      modifies this
      ensures View() == old(View()).(cache := Store(old(View()), key, entry, victim))
    {
      if key !in cache && |cache| >= maxEntries {
        cache := cache - {victim};
      }
      cache := cache[key := entry];
    }

    /** The owner's part after `await task`: store unless fenced, then the `finally` block. */
    method ResumeOwner(r: int, aborted: bool, victim: Key)
      requires Enabled(View(), OwnerResumes(r, aborted, victim))
      modifies this
      ensures View() == Step(old(View()), OwnerResumes(r, aborted, victim))
    {
      var phase := StoreUnlessFenced(tasks[readers[r].phase.task], aborted, victim);
      Cleanup(r, phase);
      clock := clock + 1;
    }

    /** What the owner returns or raises, after storing an answer that is not fenced. */
    method StoreUnlessFenced(task: Task, aborted: bool, victim: Key) returns (phase: Phase)
      requires Stores(View(), task, aborted) && NeedsEviction(View(), task.key) ==> IsOldest(cache, victim)
      modifies this
      ensures View() == old(View()).(cache := StoredCache(old(View()), task, aborted, victim))
      ensures phase == OwnerPhase(old(View()), task, aborted)
    {
      if aborted || !task.outcome.Fetched? {
        return Raised;
      }
      var current := if task.key.user in epochs then epochs[task.key.user] else 0;
      if current == task.epoch {
        if task.key !in cache && |cache| >= maxEntries && cache == map[] {
          return Raised;
        }
        StoreEntry(task.key, task.outcome.entry, victim);
      }
      return Answered(task.outcome.entry);
    }

    method Cleanup(r: int, phase: Phase)
      requires OwnsTask(View(), r)
      modifies this
      ensures View() == CleanedUp(old(View()), r, phase)
    {
      var reader := readers[r];
      var t := reader.phase.task;
      var task := tasks[t];
      var user := task.key.user;
      if task.key in inflight && inflight[task.key] == t {
        inflight := inflight - {task.key};
      }
      var remaining := running[user] - 1;
      if remaining != 0 {
        running := running[user := remaining];
      } else {
        running := running - {user};
        epochs := epochs - {user};
      }
      tasks := tasks[t := task.(owned := false)];
      readers := readers[r := reader.(phase := phase)];
    }

    method BumpEpochs(doomed: set<User>)
      modifies this`epochs
      ensures View() == old(View()).(epochs := BumpedEpochs(old(View()), doomed))
    {
      ghost var s := View();
      var todo := doomed;
      BumpNone(s, doomed);
      while todo != {}
        invariant todo <= doomed
        invariant epochs == BumpedEpochs(s, doomed - todo)
        decreases |todo|
      {
        var uid :| uid in todo;
        BumpRound(s, epochs, doomed, todo, uid);
        if uid in running {
          epochs := epochs[uid := (if uid in epochs then epochs[uid] else 0) + 1];
        }
        todo := todo - {uid};
      }
      assert doomed - todo == doomed;
    }

    method DropCached(doomed: set<User>)
      modifies this
      ensures View() == old(View()).(cache := map k | k in old(cache) && k.user !in doomed :: old(cache)[k])
    {
      var todo := set k | k in cache && k.user in doomed;
      while todo != {}
        invariant forall k :: k in todo ==> k in cache && k.user in doomed
        invariant forall k :: k in cache <==> k in old(cache) && (k.user in doomed ==> k in todo)
        invariant forall k :: k in cache ==> cache[k] == old(cache)[k]
        invariant View() == old(View()).(cache := cache)
        decreases |todo|
      {
        var key :| key in todo;
        cache := cache - {key};
        todo := todo - {key};
      }
    }

    method DropInflight(doomed: set<User>)
      modifies this
      ensures View() == old(View()).(
        inflight := map k | k in old(inflight) && k.user !in doomed :: old(inflight)[k])
    {
      var todo := set k | k in inflight && k.user in doomed;
      while todo != {}
        invariant forall k :: k in todo ==> k in inflight && k.user in doomed
        invariant forall k :: k in inflight <==> k in old(inflight) && (k.user in doomed ==> k in todo)
        invariant forall k :: k in inflight ==> inflight[k] == old(inflight)[k]
        invariant View() == old(View()).(inflight := inflight)
        decreases |todo|
      {
        var key :| key in todo;
        inflight := inflight - {key};
        todo := todo - {key};
      }
    }

    /** After it none of the users has a cached answer, and no fetch begun before it is joined or stored. */
    method Invalidate(userIds: seq<User>)
      modifies this
      ensures View() == Step(old(View()), InvalidateMany(set u | u in userIds))
    {
      var doomed := set u | u in userIds;
      Fence(doomed);
      clock := clock + 1;
    }

    /** The body shared by invalidation and clearing. */
    method Fence(doomed: set<User>)
      modifies this
      ensures View() == DoInvalidate(old(View()), doomed)
    {
      ghost var s := View();
      BumpEpochs(doomed);
      DropCached(doomed);
      DropInflight(doomed);
      invalidatedAt := map u | u in invalidatedAt.Keys + doomed :: if u in doomed then clock else invalidatedAt[u];
      assert View() == DoInvalidate(s, doomed);
    }

    method ClearAll()
      modifies this
      ensures View() == Step(old(View()), Clear)
    {
      Fence((set k | k in cache :: k.user) + running.Keys);
      cache := map[];
      clearedAt := clock;
      clock := clock + 1;
    }
  }
}
