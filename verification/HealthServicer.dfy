/** The health servicer with its dictionaries, changed in place (src/service_toolkit/grpc/health.py). */
module HealthService {
  import opened Options
  import opened HealthProtocol

  /** The watchers with those in `ids` told of the status. */
  function NotifySome(live: map<Id, Watcher>, ids: set<Id>, status: int): map<Id, Watcher> {
    map id | id in live :: if id in ids then Notified(live[id], status) else live[id]
  }

  lemma NotifyNone(live: map<Id, Watcher>, status: int)
    ensures NotifySome(live, {}, status) == live
  {
  }

  /** One round of the loop over the watchers of a service. */
  lemma NotifyOneMore(live: map<Id, Watcher>, done: set<Id>, id: Id, status: int)
    requires id !in done
    ensures var told := NotifySome(live, done, status);
      && (id in told ==> told[id] == live[id])
      && NotifySome(live, done + {id}, status) == if id in live then told[id := Notified(live[id], status)] else told
  {
  }

  lemma NotifyRegistered(s: State, service: string, status: int)
    ensures Publish(s, service, status).live
         == NotifySome(s.live, if service in s.watchers then s.watchers[service] else {}, status)
  {
  }

  class HealthServicer {
    var status: map<string, int>
    var watchers: map<string, set<Id>>
    var shuttingDown: bool
    var live: map<Id, Watcher>

    function View(): State
      reads this
    {
      State(status, watchers, shuttingDown, live)
    }

    constructor ()
      ensures View() == Init()
    {
      status := map["" := SERVING];
      watchers, shuttingDown, live := map[], false, map[];
    }

    /** The status of a known service; an unknown one is aborted with NOT_FOUND. */
    method Check(service: string) returns (reply: Option<int>)
      ensures reply == None <==> service !in status
      ensures reply.Some? ==> reply.value == status[service] == Current(View(), service)
    {
      reply := if service in status then Some(status[service]) else None;
    }

    method Watching(service: string) returns (count: nat)
      ensures Inv(View()) ==> count == |set id | id in live && live[id].service == service|
    {
      count := if service in watchers then |watchers[service]| else 0;
      if Inv(View()) {
        var mine := set id | id in live && live[id].service == service;
        assert mine == if service in watchers then watchers[service] else {} by {
          assert forall id :: id in mine <==> Registered(View(), service, id);
        }
      }
    }

    /** `_set`. */
    method Report(service: string, newStatus: int)
      modifies this`status, this`live
      ensures View() == Publish(old(View()), service, newStatus)
    {
      status := status[service := newStatus];
      var mine: set<Id> := if service in watchers then watchers[service] else {};
      var todo := mine;
      ghost var before, done: set<Id> := live, {};
      NotifyNone(live, newStatus);
      while todo != {}
        invariant todo + done == mine && todo !! done
        invariant status == old(status)[service := newStatus]
        invariant live == NotifySome(before, done, newStatus)
        decreases |todo|
      {
        var id :| id in todo;
        NotifyOneMore(before, done, id, newStatus);
        if id in live {
          var w := live[id];
          live := live[id := w.(status := newStatus, changed := true, history := w.history + [newStatus])];
        }
        todo := todo - {id};
        done := done + {id};
      }
      assert done == mine;
      NotifyRegistered(old(View()), service, newStatus);
    }

    method SetStatus(service: string, newStatus: int)
      modifies this
      ensures View() == Step(old(View()), Set(service, newStatus))
      ensures status == if old(shuttingDown) then old(status) else old(status)[service := newStatus]
    {
      if shuttingDown {
        return;
      }
      Report(service, newStatus);
    }

    method EnterGracefulShutdown()
      requires RegistrationsExact(View())
      modifies this
      ensures View() == Step(old(View()), Shutdown)
    {
      if shuttingDown {
        return;
      }
      ShutDownAll(View());
      shuttingDown := true;
      var todo := status.Keys;
      ghost var done: set<string> := {};
      while todo != {}
        invariant done == old(status).Keys - todo && todo <= old(status).Keys
        invariant View() == ShutDownPart(old(View()), done)
        decreases |todo|
      {
        var service :| service in todo;
        ShutDownOneMore(old(View()), done, service);
        Report(service, NOT_SERVING);
        todo := todo - {service};
        done := done + {service};
      }
      assert done == old(status).Keys;
    }

    /** The start of a Watch call: its own registration. */
    method BeginWatch(id: Id, service: string)
      requires Enabled(View(), Watch(id, service))
      modifies this
      ensures View() == Step(old(View()), Watch(id, service))
    {
      var current := if service in status then status[service] else SERVICE_UNKNOWN;
      watchers := watchers[service := (if service in watchers then watchers[service] else {}) + {id}];
      live := live[id := Watcher(service, current, true, None, Idle, [], [current])];
    }

    /** The Watch loop from `changed.wait()` to the next suspension. */
    method WakeUp(id: Id)
      requires Enabled(View(), Wake(id))
      modifies this
      ensures View() == Step(old(View()), Wake(id))
    {
      var w := live[id].(changed := false);
      if w.sent != Some(w.status) {
        w := w.(phase := Writing(w.status));
      }
      live := live[id := w];
    }

    method FinishWrite(id: Id)
      requires Enabled(View(), WriteDone(id))
      modifies this
      ensures View() == Step(old(View()), WriteDone(id))
    {
      var w := live[id];
      live := live[id := w.(sent := Some(w.phase.sending), written := w.written + [w.phase.sending], phase := Idle)];
    }

    /** The `finally` block of a Watch call. */
    method EndWatch(id: Id)
      requires Enabled(View(), End(id))
      modifies this
      ensures View() == Step(old(View()), End(id))
    {
      var service := live[id].service;
      if service in watchers {
        var rest := watchers[service] - {id};
        if rest == {} {
          watchers := watchers - {service};
        } else {
          watchers := watchers[service := rest];
        }
      }
      live := live - {id};
    }
  }
}
