/** gRPC health Watch as a state machine (src/service_toolkit/grpc/health.py). Every method runs
    without suspension; a Watch call is suspended only on its event and on its write. */
module HealthProtocol {
  import opened Options

  const SERVING := 1
  const NOT_SERVING := 2
  const SERVICE_UNKNOWN := 3

  /** The identity of one Watch call. */
  datatype Id = Id(number: nat)

  /** Suspended on the event, or in the middle of writing a status to the client. */
  datatype Phase = Idle | Writing(sending: int)

  /** One Watch call. `written` is what its client has received, and `history` the statuses its
      service has had since the call was registered. */
  datatype Watcher = Watcher(
    service: string, status: int, changed: bool, sent: Option<int>, phase: Phase,
    written: seq<int>, history: seq<int>)

  datatype State = State(
    status: map<string, int>, watchers: map<string, set<Id>>, shuttingDown: bool, live: map<Id, Watcher>)

  datatype Event =
    | Set(service: string, status: int)
    | Shutdown
    | Watch(id: Id, service: string)
    | Wake(id: Id)
    | WriteDone(id: Id)
    | End(id: Id)

  function Init(): State {
    State(map["" := SERVING], map[], false, map[])
  }

  function Current(s: State, service: string): int {
    if service in s.status then s.status[service] else SERVICE_UNKNOWN
  }

  predicate Registered(s: State, service: string, id: Id) {
    service in s.watchers && id in s.watchers[service]
  }

  function Notified(w: Watcher, status: int): Watcher {
    w.(status := status, changed := true, history := w.history + [status])
  }

  /** `_set`: record the status and wake every watcher registered for the service. */
  function Publish(s: State, service: string, status: int): State {
    s.(status := s.status[service := status],
       live := map id | id in s.live ::
         if Registered(s, service, id) then Notified(s.live[id], status) else s.live[id])
  }

  /** Every known service turns NOT_SERVING. */
  function ShutDown(s: State): State {
    s.(shuttingDown := true,
       status := map service | service in s.status :: NOT_SERVING,
       live := map id | id in s.live ::
         if s.live[id].service in s.status && Registered(s, s.live[id].service, id)
         then Notified(s.live[id], NOT_SERVING) else s.live[id])
  }

  function NewWatcher(s: State, service: string): Watcher {
    var status := Current(s, service);
    Watcher(service, status, true, None, Idle, [], [status])
  }

  function Register(s: State, id: Id, service: string): State {
    s.(watchers := s.watchers[service := (if service in s.watchers then s.watchers[service] else {}) + {id}],
       live := s.live[id := NewWatcher(s, service)])
  }

  /** The loop body from the wake-up to the next suspension. */
  function Woken(w: Watcher): Watcher {
    w.(changed := false, phase := if Some(w.status) != w.sent then Writing(w.status) else Idle)
  }

  function Wrote(w: Watcher): Watcher
    requires w.phase.Writing?
  {
    w.(sent := Some(w.phase.sending), written := w.written + [w.phase.sending], phase := Idle)
  }

  /** The `finally` block: this watcher's registration only. */
  function Unregister(s: State, id: Id): State
    requires id in s.live
  {
    var service := s.live[id].service;
    var rest := (if service in s.watchers then s.watchers[service] else {}) - {id};
    s.(watchers := if service !in s.watchers then s.watchers
                   else if rest == {} then s.watchers - {service} else s.watchers[service := rest],
       live := s.live - {id})
  }

  predicate Enabled(s: State, e: Event) {
    match e
    case Set(_, _) => true
    case Shutdown => true
    case Watch(id, _) => id !in s.live
    case Wake(id) => id in s.live && s.live[id].phase.Idle? && s.live[id].changed
    case WriteDone(id) => id in s.live && s.live[id].phase.Writing?
    case End(id) => id in s.live
  }

  function Step(s: State, e: Event): State
    requires Enabled(s, e)
  {
    match e
    case Set(service, status) => if s.shuttingDown then s else Publish(s, service, status)
    case Shutdown => if s.shuttingDown then s else ShutDown(s)
    case Watch(id, service) => Register(s, id, service)
    case Wake(id) => s.(live := s.live[id := Woken(s.live[id])])
    case WriteDone(id) => s.(live := s.live[id := Wrote(s.live[id])])
    case End(id) => Unregister(s, id)
  }

  // ---- subsequences ----

  function Last(xs: seq<int>): int
    requires xs != []
  {
    xs[|xs| - 1]
  }

  function Front(xs: seq<int>): seq<int>
    requires xs != []
  {
    xs[..|xs| - 1]
  }

  /** `xs` is obtained from `ys` by leaving elements out. */
  predicate Subsequence(xs: seq<int>, ys: seq<int>) {
    || xs == []
    || (ys != [] && Last(xs) == Last(ys) && Subsequence(Front(xs), Front(ys)))
    || (ys != [] && Subsequence(xs, Front(ys)))
  }

  lemma SubsequenceGrows(xs: seq<int>, ys: seq<int>, y: int)
    requires Subsequence(xs, ys)
    ensures Subsequence(xs, ys + [y])
  {
    assert Front(ys + [y]) == ys;
  }

  lemma SubsequenceExtends(xs: seq<int>, ys: seq<int>, z: int)
    requires ys != [] && Last(ys) == z && Subsequence(xs, Front(ys))
    ensures Subsequence(xs + [z], ys)
  {
    assert Front(xs + [z]) == xs;
  }

  /** A subsequence that does not end like the whole does not need its last element. */
  lemma SubsequenceSkips(xs: seq<int>, ys: seq<int>)
    requires Subsequence(xs, ys) && ys != [] && (xs != [] ==> Last(xs) != Last(ys))
    ensures Subsequence(xs, Front(ys))
  {
  }

  predicate NoRepeats(xs: seq<int>) {
    forall i :: 0 < i < |xs| ==> xs[i - 1] != xs[i]
  }

  // ---- the invariant ----

  /** What the client will have received once the write in progress is done. */
  function Sending(w: Watcher): seq<int> {
    w.written + if w.phase.Writing? then [w.phase.sending] else []
  }

  ghost predicate WatcherOk(s: State, w: Watcher) {
    && w.status == Current(s, w.service)
    && w.history != [] && Last(w.history) == w.status
    && (if w.written == [] then w.sent == None else w.sent == Some(Last(w.written)))
    // No lost wake-up: without a pending event, the current status is written or being written.
    && (w.phase.Idle? && !w.changed ==> w.sent == Some(w.status))
    && (w.phase.Writing? && !w.changed ==> w.phase.sending == w.status)
    && Subsequence(Sending(w), w.history) && NoRepeats(Sending(w))
  }

  /** The registrations are exactly the live watchers, each under its own service. */
  ghost predicate RegistrationsExact(s: State) {
    && (forall id :: id in s.live ==> Registered(s, s.live[id].service, id))
    && (forall service, id :: Registered(s, service, id) ==> id in s.live && s.live[id].service == service)
    && (forall service :: service in s.watchers ==> s.watchers[service] != {})
  }

  ghost predicate FinalOnShutdown(s: State) {
    s.shuttingDown ==> forall service :: service in s.status ==> s.status[service] == NOT_SERVING
  }

  ghost predicate Inv(s: State) {
    && RegistrationsExact(s)
    && FinalOnShutdown(s)
    && forall id :: id in s.live ==> WatcherOk(s, s.live[id])
  }

  lemma InitInv()
    ensures Inv(Init())
  {
  }

  lemma NotifiedOk(s: State, s': State, w: Watcher, status: int)
    requires WatcherOk(s, w) && Current(s', w.service) == status
    ensures WatcherOk(s', Notified(w, status))
  {
    SubsequenceGrows(Sending(w), w.history, status);
    assert Sending(Notified(w, status)) == Sending(w);
  }

  lemma SameCurrentOk(s: State, s': State, w: Watcher)
    requires WatcherOk(s, w) && Current(s', w.service) == Current(s, w.service)
    ensures WatcherOk(s', w)
  {
  }

  /** Changing watchers in place, without moving them, keeps the registrations exact. */
  lemma SameRegistrations(s: State, s': State)
    requires RegistrationsExact(s) && s'.watchers == s.watchers && s'.live.Keys == s.live.Keys
    requires forall id :: id in s.live ==> s'.live[id].service == s.live[id].service
    ensures RegistrationsExact(s')
  {
    forall id | id in s'.live ensures Registered(s', s'.live[id].service, id) {
      assert Registered(s, s.live[id].service, id);
    }
    forall service, id | Registered(s', service, id) ensures id in s'.live && s'.live[id].service == service {
      assert Registered(s, service, id);
    }
  }

  lemma PublishInv(s: State, service: string, status: int)
    requires Inv(s) && !s.shuttingDown
    ensures Inv(Publish(s, service, status))
  {
    var s' := Publish(s, service, status);
    SameRegistrations(s, s');
    forall id | id in s'.live ensures WatcherOk(s', s'.live[id]) {
      assert Registered(s, s.live[id].service, id);
      if s.live[id].service == service {
        NotifiedOk(s, s', s.live[id], status);
      } else {
        SameCurrentOk(s, s', s.live[id]);
      }
    }
  }

  lemma ShutDownInv(s: State)
    requires Inv(s)
    ensures Inv(ShutDown(s))
  {
    var s' := ShutDown(s);
    SameRegistrations(s, s');
    forall id | id in s'.live ensures WatcherOk(s', s'.live[id]) {
      assert Registered(s, s.live[id].service, id);
      if s.live[id].service in s.status {
        NotifiedOk(s, s', s.live[id], NOT_SERVING);
      } else {
        SameCurrentOk(s, s', s.live[id]);
      }
    }
  }

  lemma NewWatcherOk(s: State, service: string)
    ensures WatcherOk(s, NewWatcher(s, service))
  {
  }

  lemma RegisterExact(s: State, id: Id, service: string)
    requires RegistrationsExact(s) && id !in s.live
    ensures RegistrationsExact(Register(s, id, service))
  {
    var s' := Register(s, id, service);
    forall other, x | Registered(s', other, x) ensures x in s'.live && s'.live[x].service == other {
      assert other != service || x != id ==> Registered(s, other, x);
    }
    forall x | x in s'.live ensures Registered(s', s'.live[x].service, x) {
      assert x != id ==> Registered(s, s.live[x].service, x);
    }
  }

  lemma RegisterInv(s: State, id: Id, service: string)
    requires Inv(s) && id !in s.live
    ensures Inv(Register(s, id, service))
  {
    var s' := Register(s, id, service);
    NewWatcherOk(s, service);
    RegisterExact(s, id, service);
    forall x | x in s'.live ensures WatcherOk(s', s'.live[x]) {
      SameCurrentOk(s, s', s'.live[x]);
    }
  }

  /** Reading the status on waking: it comes after everything written, or it is what was last sent. */
  lemma WokenOk(s: State, w: Watcher)
    requires WatcherOk(s, w) && w.phase.Idle?
    ensures WatcherOk(s, Woken(w))
  {
    var w' := Woken(w);
    assert Sending(w) == w.written;
    if w'.phase.Writing? {
      SubsequenceSkips(w.written, w.history);
      SubsequenceExtends(w.written, w.history, w.status);
    } else {
      assert Sending(w') == w.written;
    }
  }

  lemma WroteOk(s: State, w: Watcher)
    requires WatcherOk(s, w) && w.phase.Writing?
    ensures WatcherOk(s, Wrote(w))
  {
    assert Sending(Wrote(w)) == Sending(w);
  }

  lemma OneWatcherInv(s: State, s': State, id: Id, w: Watcher)
    requires Inv(s) && id in s.live && s' == s.(live := s.live[id := w])
    requires WatcherOk(s, w) && w.service == s.live[id].service
    ensures Inv(s')
  {
    SameRegistrations(s, s');
    forall x | x in s'.live ensures WatcherOk(s', s'.live[x]) {
      SameCurrentOk(s, s', s'.live[x]);
    }
  }

  lemma UnregisterInv(s: State, id: Id)
    requires Inv(s) && id in s.live
    ensures Inv(Unregister(s, id))
  {
    var s' := Unregister(s, id);
    forall x | x in s'.live ensures WatcherOk(s', s'.live[x]) {
      SameCurrentOk(s, s', s.live[x]);
    }
    forall x | x in s'.live ensures Registered(s', s'.live[x].service, x) {
      assert Registered(s, s.live[x].service, x);
    }
    forall service, x | Registered(s', service, x) ensures x in s'.live && s'.live[x].service == service {
      assert Registered(s, service, x) && x != id;
    }
  }

  /** Every step keeps the invariant. */
  lemma StepInv(s: State, e: Event)
    requires Inv(s) && Enabled(s, e)
    ensures Inv(Step(s, e))
  {
    match e
    case Set(service, status) =>
      if !s.shuttingDown {
        PublishInv(s, service, status);
      }
    case Shutdown =>
      if !s.shuttingDown {
        ShutDownInv(s);
      }
    case Watch(id, service) => RegisterInv(s, id, service);
    case Wake(id) =>
      WokenOk(s, s.live[id]);
      OneWatcherInv(s, Step(s, e), id, Woken(s.live[id]));
    case WriteDone(id) =>
      WroteOk(s, s.live[id]);
      OneWatcherInv(s, Step(s, e), id, Wrote(s.live[id]));
    case End(id) => UnregisterInv(s, id);
  }

  // ---- every run ----

  ghost predicate StepAt(states: seq<State>, events: seq<Event>, k: int)
    requires 0 <= k < |events| && |states| == |events| + 1
  {
    Enabled(states[k], events[k]) && states[k + 1] == Step(states[k], events[k])
  }

  /** Any interleaving of status changes, arrivals, wake-ups, writes and departures. */
  ghost predicate IsRun(states: seq<State>, events: seq<Event>) {
    && |states| == |events| + 1 && states[0] == Init()
    && forall k :: 0 <= k < |events| ==> StepAt(states, events, k)
  }

  lemma {:induction false} RunInv(states: seq<State>, events: seq<Event>, k: nat)
    requires IsRun(states, events) && k < |states|
    ensures Inv(states[k])
  {
    if k == 0 {
      InitInv();
    } else {
      RunInv(states, events, k - 1);
      assert StepAt(states, events, k - 1);
      StepInv(states[k - 1], events[k - 1]);
    }
  }

  // ---- what the events say ----

  predicate Down(events: seq<Event>, k: nat)
    requires k <= |events|
  {
    exists j :: 0 <= j < k && events[j].Shutdown?
  }

  /** The step reports a status of the service, and shutdown has not begun. */
  predicate SetAt(events: seq<Event>, service: string, j: nat)
    requires j < |events|
  {
    events[j].Set? && events[j].service == service && !Down(events, j)
  }

  /** The last such step before state k. */
  function LastSet(events: seq<Event>, service: string, k: nat): (last: Option<nat>)
    requires k <= |events|
    ensures last.None? <==> forall j :: 0 <= j < k ==> !SetAt(events, service, j)
    ensures last.Some? ==> last.value < k && SetAt(events, service, last.value)
                           && forall j :: last.value < j < k ==> !SetAt(events, service, j)
  {
    if k == 0 then None else if SetAt(events, service, k - 1) then Some(k - 1) else LastSet(events, service, k - 1)
  }

  /** The service as a whole is known from the start, every other one from its first report on. */
  predicate KnownAt(events: seq<Event>, service: string, k: nat)
    requires k <= |events|
  {
    service == "" || LastSet(events, service, k).Some?
  }

  /** The status of a service before step k, from the events alone and in the numbers of the protocol
      (grpc.health.v1): 1 is SERVING, 2 NOT_SERVING and 3 SERVICE_UNKNOWN. */
  function StatusAt(events: seq<Event>, service: string, k: nat): int
    requires k <= |events|
  {
    var last := LastSet(events, service, k);
    if !KnownAt(events, service, k) then 3
    else if Down(events, k) then 2
    else if last.None? then 1
    else events[last.value].status
  }

  lemma DownNext(events: seq<Event>, k: nat)
    requires k < |events|
    ensures Down(events, k + 1) <==> Down(events, k) || events[k].Shutdown?
  {
    if Down(events, k) {
      var j :| 0 <= j < k && events[j].Shutdown?;
      assert 0 <= j < k + 1;
    }
  }

  /** What the state says about a service is what the events do. */
  ghost predicate Agrees(s: State, events: seq<Event>, service: string, k: nat)
    requires k <= |events|
  {
    && (s.shuttingDown <==> Down(events, k))
    && (service in s.status <==> KnownAt(events, service, k))
    && Current(s, service) == StatusAt(events, service, k)
  }

  lemma AgreesNext(s: State, events: seq<Event>, service: string, k: nat)
    requires k < |events| && Enabled(s, events[k]) && FinalOnShutdown(s) && Agrees(s, events, service, k)
    ensures Agrees(Step(s, events[k]), events, service, k + 1)
  {
    DownNext(events, k);
  }

  /** In every run the status of a service is that of the last report for it before shutdown, and
      NOT_SERVING from shutdown on; no other event changes it. */
  lemma {:induction false} StatusIsLastReported(states: seq<State>, events: seq<Event>, service: string, k: nat)
    requires IsRun(states, events) && k < |states|
    ensures states[k].shuttingDown <==> Down(events, k)
    ensures service in states[k].status <==> KnownAt(events, service, k)
    ensures Current(states[k], service) == StatusAt(events, service, k)
  {
    if k == 0 {
      assert Agrees(states[0], events, service, 0);
    } else {
      var j := k - 1;
      StatusIsLastReported(states, events, service, j);
      RunInv(states, events, j);
      assert StepAt(states, events, j);
      AgreesNext(states[j], events, service, j);
      assert states[j + 1] == states[k];
    }
  }

  /** No watcher loses an update: in every reachable state a live watcher holds its service's current
      status, and when it is idle with its event clear that status is the last thing it wrote. */
  lemma NoLostUpdate(states: seq<State>, events: seq<Event>, k: nat, id: Id)
    requires IsRun(states, events) && k < |states| && id in states[k].live
    ensures var s, w := states[k], states[k].live[id];
      && Registered(s, w.service, id)
      && w.status == Current(s, w.service) == StatusAt(events, w.service, k)
      && (w.phase.Idle? && !w.changed ==> w.written != [] && Last(w.written) == StatusAt(events, w.service, k))
  {
    RunInv(states, events, k);
    StatusIsLastReported(states, events, states[k].live[id].service, k);
    assert WatcherOk(states[k], states[k].live[id]);
  }

  lemma {:induction false} SubsequenceDropsLast(xs: seq<int>, x: int, ys: seq<int>)
    requires Subsequence(xs + [x], ys)
    ensures Subsequence(xs, ys)
    decreases |ys|
  {
    assert Front(xs + [x]) == xs;
    if !(Last(xs + [x]) == Last(ys) && Subsequence(xs, Front(ys))) {
      SubsequenceDropsLast(xs, x, Front(ys));
    }
  }

  /** What a client receives is the history of its service with statuses left out, never the same
      one twice in a row. */
  lemma WrittenIsCoalescedHistory(states: seq<State>, events: seq<Event>, k: nat, id: Id)
    requires IsRun(states, events) && k < |states| && id in states[k].live
    ensures Subsequence(states[k].live[id].written, states[k].live[id].history)
    ensures NoRepeats(states[k].live[id].written)
  {
    RunInv(states, events, k);
    var w := states[k].live[id];
    assert WatcherOk(states[k], w);
    if w.phase.Writing? {
      SubsequenceDropsLast(w.written, w.phase.sending, w.history);
      assert forall i :: 0 <= i < |w.written| ==> Sending(w)[i] == w.written[i];
    } else {
      assert Sending(w) == w.written;
    }
  }

  /** The step reports a status for the service. */
  predicate Reports(s: State, e: Event, service: string) {
    !s.shuttingDown && ((e.Set? && e.service == service) || (e.Shutdown? && service in s.status))
  }

  /** The status of the service before step a, and then every status reported for it up to step k: what
      each report carries, and NOT_SERVING when shutdown begins and the service is known. */
  function StatusesSince(events: seq<Event>, service: string, a: nat, k: nat): seq<int>
    requires a <= k <= |events|
  {
    if k == a then [StatusAt(events, service, a)]
    else
      var e := events[k - 1];
      StatusesSince(events, service, a, k - 1)
      + if SetAt(events, service, k - 1) then [e.status]
        else if e.Shutdown? && !Down(events, k - 1) && KnownAt(events, service, k - 1) then [2]
        else []
  }

  lemma HistoryStep(s: State, e: Event, id: Id)
    requires Inv(s) && Enabled(s, e) && id in s.live && id in Step(s, e).live
    ensures var w, w' := s.live[id], Step(s, e).live[id];
      && w'.service == w.service
      && w'.history == w.history + if Reports(s, e, w.service) then [Current(Step(s, e), w.service)] else []
  {
    assert Registered(s, s.live[id].service, id);
    if e.Set? && e.service != s.live[id].service {
      assert !Registered(s, e.service, id);
    }
  }

  lemma HistoryStarts(states: seq<State>, events: seq<Event>, id: Id, service: string, a: nat)
    requires IsRun(states, events) && a < |events| && events[a] == Watch(id, service)
    ensures id in states[a + 1].live && states[a + 1].live[id].service == service
    ensures states[a + 1].live[id].history == [StatusAt(events, service, a + 1)]
  {
    assert StepAt(states, events, a);
    StatusIsLastReported(states, events, service, a + 1);
  }

  /** A report shows in the events, with the status it carries. */
  lemma ReportsCarry(states: seq<State>, events: seq<Event>, service: string, k: nat)
    requires IsRun(states, events) && k < |events|
    ensures Reports(states[k], events[k], service) <==>
      SetAt(events, service, k) || (events[k].Shutdown? && !Down(events, k) && KnownAt(events, service, k))
    ensures SetAt(events, service, k) ==> Current(states[k + 1], service) == events[k].status
    ensures events[k].Shutdown? && Reports(states[k], events[k], service) ==> Current(states[k + 1], service) == 2
  {
    StatusIsLastReported(states, events, service, k);
    assert StepAt(states, events, k);
  }

  lemma HistoryGoesOn(states: seq<State>, events: seq<Event>, id: Id, a: nat, k: nat)
    requires IsRun(states, events) && a <= k < |events| && id in states[k].live && id in states[k + 1].live
    requires states[k].live[id].history == StatusesSince(events, states[k].live[id].service, a, k)
    ensures var w' := states[k + 1].live[id];
      && w'.service == states[k].live[id].service
      && w'.history == StatusesSince(events, w'.service, a, k + 1)
  {
    RunInv(states, events, k);
    assert StepAt(states, events, k);
    HistoryStep(states[k], events[k], id);
    ReportsCarry(states, events, states[k].live[id].service, k);
  }

  /** A watcher's history is what the events say its service went through since it registered: what its
      client receives is measured against the reports themselves. */
  lemma {:induction false} HistoryIsTheServices(states: seq<State>, events: seq<Event>, id: Id, service: string,
                                                a: nat, k: nat)
    requires IsRun(states, events) && a < k < |states| && events[a] == Watch(id, service)
    requires forall j :: a < j <= k ==> id in states[j].live
    ensures states[k].live[id].service == service
    ensures states[k].live[id].history == StatusesSince(events, service, a + 1, k)
  {
    if a + 1 == k {
      HistoryStarts(states, events, id, service, a);
    } else {
      var j := k - 1;
      HistoryIsTheServices(states, events, id, service, a, j);
      HistoryGoesOn(states, events, id, a + 1, j);
      assert states[j + 1] == states[k];
    }
  }

  /** Once shutdown has begun it is final: later states know the same services, all NOT_SERVING. */
  lemma {:induction false} ShutdownIsFinal(states: seq<State>, events: seq<Event>, a: nat, k: nat)
    requires IsRun(states, events) && a <= k < |states| && states[a].shuttingDown
    ensures states[k].shuttingDown && states[k].status == states[a].status
    ensures forall service :: service in states[k].status ==> states[k].status[service] == NOT_SERVING
  {
    RunInv(states, events, k);
    if a < k {
      ShutdownIsFinal(states, events, a, k - 1);
      assert StepAt(states, events, k - 1);
    }
  }

  /** Shutting down leaves no service out. */
  lemma ShutdownReachesAll(s: State)
    requires Inv(s)
    ensures var s' := Step(s, Shutdown);
      && s'.shuttingDown && s'.status.Keys == s.status.Keys
      && forall service :: service in s'.status ==> s'.status[service] == NOT_SERVING
  {
  }

  // ---- catching up ----

  /** The watcher's own next step, if it has one: finish the write, or wake up. */
  function Advance(w: Watcher): Watcher {
    if w.phase.Writing? then Wrote(w) else if w.changed then Woken(w) else w
  }

  function OwnStep(s: State, id: Id): State
    requires id in s.live
  {
    s.(live := s.live[id := Advance(s.live[id])])
  }

  /** A step of the protocol that is the watcher's own, or none when it has nothing to do. */
  ghost predicate OwnMove(s: State, s': State, id: Id) {
    || (Enabled(s, WriteDone(id)) && s' == Step(s, WriteDone(id)))
    || (Enabled(s, Wake(id)) && s' == Step(s, Wake(id)))
    || (!Enabled(s, WriteDone(id)) && !Enabled(s, Wake(id)) && s' == s)
  }

  lemma OwnStepIsMove(s: State, id: Id)
    requires id in s.live
    ensures OwnMove(s, OwnStep(s, id), id)
  {
    assert s.live[id := s.live[id]] == s.live;
  }

  lemma AdvanceOk(s: State, w: Watcher)
    requires WatcherOk(s, w)
    ensures WatcherOk(s, Advance(w)) && Advance(w).service == w.service && Advance(w).status == w.status
  {
    if w.phase.Writing? {
      WroteOk(s, w);
    } else if w.changed {
      WokenOk(s, w);
    }
  }

  /** However far behind a watcher is, three steps of its own, with no status change in between,
      bring its client up to date; then it has nothing left to do. */
  lemma CatchesUp(s: State, id: Id)
    requires Inv(s) && id in s.live
    ensures var s1 := OwnStep(s, id);
      var s2 := OwnStep(s1, id);
      var s3 := OwnStep(s2, id);
      && OwnMove(s, s1, id) && OwnMove(s1, s2, id) && OwnMove(s2, s3, id)
      && s3.live[id].written != []
      && Last(s3.live[id].written) == Current(s, s.live[id].service) == Current(s3, s.live[id].service)
      && !Enabled(s3, WriteDone(id)) && !Enabled(s3, Wake(id))
  {
    var w := s.live[id];
    assert WatcherOk(s, w);
    AdvanceOk(s, w);
    AdvanceOk(s, Advance(w));
    AdvanceOk(s, Advance(Advance(w)));
    var s1 := OwnStep(s, id);
    OwnStepIsMove(s, id);
    var s2 := OwnStep(s1, id);
    OwnStepIsMove(s1, id);
    var s3 := OwnStep(s2, id);
    OwnStepIsMove(s2, id);
    var w' := Advance(Advance(Advance(w)));
    assert w'.phase.Idle? && !w'.changed;
    assert s3.live[id] == w';
  }

  // ---- shutting down service by service ----

  /** The state after the services in `done` have been reported. */
  function ShutDownPart(s: State, done: set<string>): State {
    s.(shuttingDown := true,
       status := map service | service in s.status :: if service in done then NOT_SERVING else s.status[service],
       live := map id | id in s.live ::
         if s.live[id].service in s.status && s.live[id].service in done
         then Notified(s.live[id], NOT_SERVING) else s.live[id])
  }

  lemma ShutDownOneMore(s: State, done: set<string>, service: string)
    requires RegistrationsExact(s) && service in s.status && service !in done
    ensures Publish(ShutDownPart(s, done), service, NOT_SERVING) == ShutDownPart(s, done + {service})
  {
    var a, b := Publish(ShutDownPart(s, done), service, NOT_SERVING), ShutDownPart(s, done + {service});
    assert a.status == b.status;
    forall id | id in s.live ensures a.live[id] == b.live[id] {
      assert Registered(s, s.live[id].service, id);
      assert Registered(s, service, id) <==> s.live[id].service == service;
    }
    assert a.live == b.live;
  }

  lemma ShutDownAll(s: State)
    requires RegistrationsExact(s)
    ensures ShutDownPart(s, s.status.Keys) == ShutDown(s)
    ensures ShutDownPart(s, {}) == s.(shuttingDown := true)
  {
    var a, b := ShutDownPart(s, s.status.Keys), ShutDown(s);
    forall id | id in s.live ensures a.live[id] == b.live[id] {
      assert Registered(s, s.live[id].service, id);
    }
    assert a.live == b.live && a.status == b.status;
    assert ShutDownPart(s, {}).live == s.live && ShutDownPart(s, {}).status == s.status;
  }
}
