/** Events over whole runs: every dispatched handler is traced back to the registry at the time of the
    dispatch, and every handler in the registry to the step that put it there. */
module EventRuns {
  import opened Wrappers
  import opened Json
  import opened Values
  import opened Worker
  import opened RpcUtils
  import opened Events

  /** Step number k of the run is this step. */
  ghost predicate At(keepQueued: bool, run: seq<State>, k: int, step: Step) {
    0 <= k && k + 1 < |run| && Takes(keepQueued, run[k], step, run[k + 1])
  }

  lemma {:induction false} SomeStep(keepQueued: bool, run: seq<State>, n: nat) returns (step: Step)
    requires IsRun(keepQueued, run) && 0 < n < |run|
    ensures At(keepQueued, run, n - 1, step)
  {
    assert Follows(keepQueued, run[n - 1], run[n]);
    step :| Takes(keepQueued, run[n - 1], step, run[n]);
  }

  // ---------------------------------------------------------------- dispatch

  /** Step k receives an event of this type with this data. */
  ghost predicate ReceivesAt(keepQueued: bool, run: seq<State>, k: int, body: Text, evType: string, data: Value) {
    At(keepQueued, run, k, Receive(body)) && DecodeEvent(body) == Ok((evType, data))
  }

  lemma {:induction false} EventsStay(keepQueued: bool, run: seq<State>, k: nat, n: nat)
    requires IsRun(keepQueued, run) && k <= n < |run|
    ensures run[k].events <= run[n].events
    decreases n
  {
    if k < n {
      EventsStay(keepQueued, run, k, n - 1);
      var step := SomeStep(keepQueued, run, n);
    }
  }

  /** The event received by step k is, ever after, the one with the type and data of the message and
      with the handlers that the registry then held under its type. */
  lemma {:induction false} DispatchReadsRegistry(
    keepQueued: bool, run: seq<State>, k: nat, n: nat, body: Text, evType: string, data: Value)
    requires IsRun(keepQueued, run) && k < n < |run| && ReceivesAt(keepQueued, run, k, body, evType, data)
    ensures
      var e := |run[k].events|;
      e < |run[n].events| && run[n].events[e] == Event(evType, data, HandlersOf(run[k].reg.handlers, evType))
  {
    EventsStay(keepQueued, run, k + 1, n);
  }

  /** Fan-out, over every run and under every pool schedule.  For an event received by step k, and at
      any time after, each handler id that stood in the registry under its type at step k has exactly one
      task or one invocation, any other id has none, and each invocation gets the event's own type
      and data. */
  lemma {:induction false} FanOutExactlyOnce(
    keepQueued: bool, run: seq<State>, k: nat, n: nat, body: Text, evType: string, data: Value, id: int)
    requires IsRun(keepQueued, run) && k < n < |run| && ReceivesAt(keepQueued, run, k, body, evType, data)
    ensures
      var task := Task(|run[k].events|, id);
      && (run[n].pool[task] + InvokedTimes(run[n].invoked, task) ==
          if id in HandlersOf(run[k].reg.handlers, evType) then 1 else 0)
      && (forall x | 0 <= x < |run[n].invoked| && run[n].invoked[x].task == task ::
            run[n].invoked[x].args == [VString(evType), data])
  {
    DispatchReadsRegistry(keepQueued, run, k, n, body, evType, data);
    RunsKeepInv(keepQueued, run, n);
  }

  /** Nothing is dispatched that was not received. */
  lemma {:induction false} EventWasReceived(keepQueued: bool, run: seq<State>, n: nat, e: nat) returns (k: nat, body: Text)
    requires IsRun(keepQueued, run) && n < |run| && e < |run[n].events|
    ensures k < n && |run[k].events| == e
    ensures ReceivesAt(keepQueued, run, k, body, run[n].events[e].evType, run[n].events[e].data)
    decreases n
  {
    var step := SomeStep(keepQueued, run, n);
    if e < |run[n - 1].events| {
      EventsStay(keepQueued, run, n - 1, n);
      k, body := EventWasReceived(keepQueued, run, n - 1, e);
    } else {
      k, body := n - 1, step.body;
    }
  }

  /** Under every schedule in which no queued handler is unregistered, each invocation calls the
      bound handler that stood under its id in the registry when its event was received. */
  lemma {:induction false} QueuedHandlersAreCalled(run: seq<State>, n: nat, x: nat)
    returns (k: nat, body: Text, evType: string, data: Value)
    requires IsRun(true, run) && n < |run| && x < |run[n].invoked|
    ensures k < n && ReceivesAt(true, run, k, body, evType, data)
    ensures
      var i := run[n].invoked[x];
      var handlers := HandlersOf(run[k].reg.handlers, evType);
      && i.task.event == |run[k].events|
      && i.task.id in handlers && i.entry == handlers[i.task.id] && i.entry.Bound?
      && i.args == [VString(evType), data]
  {
    RunsKeepKept(run, n, run[n]);
    RunsKeepInv(true, run, n);
    var i := run[n].invoked[x];
    var e := run[n].events[i.task.event];
    assert AllBound(e.handlers);
    k, body := EventWasReceived(true, run, n, i.task.event);
    evType, data := e.evType, e.data;
    DispatchReadsRegistry(true, run, k, n, body, evType, data);
  }

  /** Step k receives a message that is not an event. */
  ghost predicate FailsAt(keepQueued: bool, run: seq<State>, k: int) {
    exists body :: At(keepQueued, run, k, Receive(body)) && DecodeEvent(body).Err?
  }

  lemma {:induction false} StepDies(keepQueued: bool, s: State, step: Step, t: State)
    requires Takes(keepQueued, s, step, t)
    ensures !s.dead && (t.dead <==> step.Receive? && DecodeEvent(step.body).Err?)
  {}

  /** The event thread dies on the first message that is not an event, and on nothing else; in particular
      an event of an unknown type does no harm. */
  lemma {:induction false} DiesExactly(keepQueued: bool, run: seq<State>, n: nat)
    requires IsRun(keepQueued, run) && n < |run|
    ensures run[n].dead <==> FailsAt(keepQueued, run, n - 1)
    ensures run[n].dead ==> n + 1 == |run|
  {
    if n > 0 {
      var step := SomeStep(keepQueued, run, n);
      StepDies(keepQueued, run[n - 1], step, run[n]);
      if run[n].dead { assert At(keepQueued, run, n - 1, Receive(step.body)); }
      if FailsAt(keepQueued, run, n - 1) {
        var body :| At(keepQueued, run, n - 1, Receive(body)) && DecodeEvent(body).Err?;
        StepDies(keepQueued, run[n - 1], Receive(body), run[n]);
      }
    }
    if n + 1 < |run| {
      var step := SomeStep(keepQueued, run, n + 1);
      StepDies(keepQueued, run[n], step, run[n + 1]);
    }
  }

  // ---------------------------------------------------------------- what stands in the registry

  ghost predicate Stands(s: State, evType: string, id: int, entry: Entry) {
    id in HandlersOf(s.reg.handlers, evType) && HandlersOf(s.reg.handlers, evType)[id] == entry
  }

  /** Step k ran a task whose handler was gone. */
  ghost predicate RunsMissing(keepQueued: bool, run: seq<State>, k: int, evType: string, id: int) {
    exists t :: At(keepQueued, run, k, Run(t)) && t.id == id && run[k].events[t.event].evType == evType
      && id !in HandlersOf(run[k].reg.handlers, evType)
  }

  /** Step k put the entry under the id. */
  ghost predicate PutsAt(keepQueued: bool, run: seq<State>, k: int, evType: string, id: int, entry: Entry) {
    match entry
    case Bound(m) => At(keepQueued, run, k, Register(evType, m)) && id == run[k].reg.lastId + 1
    case Empty => RunsMissing(keepQueued, run, k, evType, id)
  }

  /** No step between k and n removes the handler; under the empty event type none can. */
  ghost predicate NotRemoved(keepQueued: bool, run: seq<State>, k: int, n: nat, evType: string, id: int) {
    evType == "" || forall l | k < l < n :: !At(keepQueued, run, l, Unregister(id))
  }

  /** What one step does to one handler. */
  lemma {:induction false} HandlerStep(keepQueued: bool, s: State, step: Step, t: State, evType: string, id: int)
    requires Takes(keepQueued, s, step, t) && RegistryInv(s.reg, s.registered)
    ensures id in HandlersOf(s.reg.handlers, evType) ==>
      if step == Unregister(id) && evType != "" then id !in HandlersOf(t.reg.handlers, evType)
      else Stands(t, evType, id, HandlersOf(s.reg.handlers, evType)[id])
    ensures id !in HandlersOf(s.reg.handlers, evType) && id in HandlersOf(t.reg.handlers, evType) ==>
      || (step.Register? && step.evType == evType && id == s.reg.lastId + 1 && Stands(t, evType, id, Bound(step.m)))
      || (step.Run? && step.task.id == id && s.events[step.task.event].evType == evType && Stands(t, evType, id, Empty))
  {
    if evType in s.reg.handlers { assert EntriesInv(s.registered, evType, s.reg.handlers[evType]); }
  }

  lemma {:induction false} LastStepPuts(keepQueued: bool, run: seq<State>, n: nat, evType: string, id: int)
    requires IsRun(keepQueued, run) && 0 < n < |run| && RegistryInv(run[n - 1].reg, run[n - 1].registered)
    requires id !in HandlersOf(run[n - 1].reg.handlers, evType) && id in HandlersOf(run[n].reg.handlers, evType)
    ensures PutsAt(keepQueued, run, n - 1, evType, id, HandlersOf(run[n].reg.handlers, evType)[id])
  {
    var step := SomeStep(keepQueued, run, n);
    HandlerStep(keepQueued, run[n - 1], step, run[n], evType, id);
    if step.Run? { assert At(keepQueued, run, n - 1, Run(step.task)); }
  }

  lemma {:induction false} LastStepKeeps(keepQueued: bool, run: seq<State>, k: int, n: nat, evType: string, id: int)
    requires IsRun(keepQueued, run) && 0 < n < |run| && RegistryInv(run[n - 1].reg, run[n - 1].registered)
    requires id in HandlersOf(run[n - 1].reg.handlers, evType) && id in HandlersOf(run[n].reg.handlers, evType)
    requires NotRemoved(keepQueued, run, k, n - 1, evType, id)
    ensures NotRemoved(keepQueued, run, k, n, evType, id)
    ensures HandlersOf(run[n].reg.handlers, evType)[id] == HandlersOf(run[n - 1].reg.handlers, evType)[id]
  {
    var step := SomeStep(keepQueued, run, n);
    HandlerStep(keepQueued, run[n - 1], step, run[n], evType, id);
    if Takes(keepQueued, run[n - 1], Unregister(id), run[n]) {
      HandlerStep(keepQueued, run[n - 1], Unregister(id), run[n], evType, id);
    }
  }

  lemma {:induction false} StandsBecause(keepQueued: bool, run: seq<State>, n: nat, evType: string, id: int) returns (k: int)
    requires IsRun(keepQueued, run) && n < |run| && id in HandlersOf(run[n].reg.handlers, evType)
    ensures 0 <= k < n && NotRemoved(keepQueued, run, k, n, evType, id)
    ensures PutsAt(keepQueued, run, k, evType, id, HandlersOf(run[n].reg.handlers, evType)[id])
    decreases n
  {
    RunsKeepInv(keepQueued, run, n - 1);
    if id in HandlersOf(run[n - 1].reg.handlers, evType) {
      k := StandsBecause(keepQueued, run, n - 1, evType, id);
      LastStepKeeps(keepQueued, run, k, n, evType, id);
    } else {
      k := n - 1;
      LastStepPuts(keepQueued, run, n, evType, id);
    }
  }

  lemma {:induction false} PutStandsAtOnce(keepQueued: bool, run: seq<State>, k: int, evType: string, id: int, entry: Entry)
    requires IsRun(keepQueued, run) && PutsAt(keepQueued, run, k, evType, id, entry)
    ensures Stands(run[k + 1], evType, id, entry)
  {}

  lemma {:induction false} LastStepLeaves(keepQueued: bool, run: seq<State>, n: nat, evType: string, id: int, entry: Entry)
    requires IsRun(keepQueued, run) && 0 < n < |run| && Stands(run[n - 1], evType, id, entry)
    requires evType == "" || !At(keepQueued, run, n - 1, Unregister(id))
    ensures Stands(run[n], evType, id, entry)
  {
    var step := SomeStep(keepQueued, run, n);
    RunsKeepInv(keepQueued, run, n - 1);
    HandlerStep(keepQueued, run[n - 1], step, run[n], evType, id);
  }

  lemma {:induction false} PutStands(keepQueued: bool, run: seq<State>, k: int, n: nat, evType: string, id: int, entry: Entry)
    requires IsRun(keepQueued, run) && k < n < |run|
    requires PutsAt(keepQueued, run, k, evType, id, entry) && NotRemoved(keepQueued, run, k, n, evType, id)
    ensures Stands(run[n], evType, id, entry)
    decreases n
  {
    if k + 1 == n {
      PutStandsAtOnce(keepQueued, run, k, evType, id, entry);
    } else {
      PutStands(keepQueued, run, k, n - 1, evType, id, entry);
      LastStepLeaves(keepQueued, run, n, evType, id, entry);
    }
  }

  /** Exactly what stands in the handler registry, over every run.  A bound handler stands under an id
      iff it was registered as that id, and not unregistered since.  An empty one stands under an id
      iff a worker ran a task for it while it was gone, and it was not unregistered since. */
  lemma {:induction false} HandlersExactly(keepQueued: bool, run: seq<State>, n: nat, evType: string, id: int, entry: Entry)
    requires IsRun(keepQueued, run) && n < |run|
    ensures Stands(run[n], evType, id, entry) <==>
      exists k :: k < n && PutsAt(keepQueued, run, k, evType, id, entry) && NotRemoved(keepQueued, run, k, n, evType, id)
  {
    if Stands(run[n], evType, id, entry) {
      var k := StandsBecause(keepQueued, run, n, evType, id);
    }
    forall k | k < n && PutsAt(keepQueued, run, k, evType, id, entry) && NotRemoved(keepQueued, run, k, n, evType, id)
      ensures Stands(run[n], evType, id, entry)
    {
      PutStands(keepQueued, run, k, n, evType, id, entry);
    }
  }

  /** Running a task changes the registry exactly when its handler is gone, and then it puts an
      empty handler back under the id. */
  lemma {:induction false} IndexingChangesRegistry(s: State, t: Task)
    requires Enabled(false, s, Run(t))
    ensures
      var evType := s.events[t.event].evType;
      var r := Apply(false, s, Run(t));
      && (r.reg == s.reg <==> t.id in HandlersOf(s.reg.handlers, evType))
      && (t.id !in HandlersOf(s.reg.handlers, evType) ==> r.reg.handlers[evType][t.id] == Empty)
  {
    assert t.id in Apply(false, s, Run(t)).reg.handlers[s.events[t.event].evType];
  }

  // ---------------------------------------------------------------- it happens

  lemma {:induction false} TakeStep(s: State, step: Step) returns (t: State)
    requires Reachable(false, s) && Enabled(false, s, step)
    ensures Reachable(false, t) && t == Apply(false, s, step)
  {
    t := Apply(false, s, step);
    var run :| IsRun(false, run) && run[|run| - 1] == s;
    var longer := run + [t];
    assert Takes(false, s, step, t);
    forall m, n | 0 <= m && m + 1 == n < |longer| ensures Follows(false, longer[m], longer[n]) {
      if n < |run| { assert Follows(false, run[m], run[n]); }
    }
    assert IsRun(false, longer);
  }

  lemma {:induction false} EventDecodes(evType: string, data: Json)
    ensures DecodeEvent(Dump(JArr([JString(evType), data]))) == Ok((evType, Decode(data)))
  {
    var values := DecodeAll([JString(evType), data]);
    assert values[0] == VString(evType) && values[1] == Decode(data);
  }

  lemma {:induction false} OneQueued(evType: string, m: Method) returns (t: State)
    ensures Reachable(false, t) && !t.dead && t.reg == Registry(1, map[evType := map[1 := Bound(m)]])
    ensures t.events == [Event(evType, VNull, map[1 := Bound(m)])] && Task(0, 1) in t.pool && t.invoked == []
  {
    assert IsRun(false, [INIT]);
    t := TakeStep(INIT, Register(evType, m));
    assert HandlersOf(t.reg.handlers, evType) == map[1 := Bound(m)];
    EventDecodes(evType, JNull);
    t := TakeStep(t, Receive(Dump(JArr([JString(evType), JNull]))));
    assert TasksFor(0, map[1 := Bound(m)])[Task(0, 1)] == 1;
  }

  /** The race happens, for every handler under a non-empty type: it is unregistered while its task is
      queued, the worker calls an empty function, and that stands in the registry again. */
  lemma {:induction false} UnregisterQueuedHappens(evType: string, m: Method) returns (t: State)
    requires evType != ""
    ensures Reachable(false, t) && Stands(t, evType, 1, Empty)
    ensures t.invoked == [Invocation(Task(0, 1), Empty, [VString(evType), VNull])]
  {
    t := OneQueued(evType, m);
    t := TakeStep(t, Unregister(1));
    assert HandlersOf(t.reg.handlers, evType) == map[];
    t := TakeStep(t, Run(Task(0, 1)));
  }
}
