/** The event side of the server: the handler registry, dispatch of an event to pool tasks, and the
    workers that look their handler up again when they run. */
module Events {
  import opened Wrappers
  import opened Json
  import opened Values
  import opened RpcUtils
  import opened Worker

  type Handlers = map<string, map<int, Entry>>

  /** `evt_cb_id` and `event_handler_map`. */
  datatype Registry = Registry(lastId: nat, handlers: Handlers)

  // ---------------------------------------------------------------- registry operations

  function HandlersOf(h: Handlers, evType: string): map<int, Entry> {
    if evType in h then h[evType] else map[]
  }

  /** `register_event_handler`: the next id, under the given type. */
  function Registered(reg: Registry, evType: string, m: Method): Registry {
    var id := reg.lastId + 1;
    Registry(id, reg.handlers[evType := HandlersOf(reg.handlers, evType)[id := Bound(m)]])
  }

  /** `unregister_event_handler`: the id disappears from every non-empty event type. */
  function Unregistered(reg: Registry, id: int): Registry {
    reg.(handlers := map t | t in reg.handlers :: if t == "" then reg.handlers[t] else reg.handlers[t] - {id})
  }

  /** The worker's `event_handler_map[event_type][cb_id]`: a missing handler is created empty. */
  function Indexed(reg: Registry, evType: string, id: int): Registry {
    if id in HandlersOf(reg.handlers, evType) then reg
    else reg.(handlers := reg.handlers[evType := HandlersOf(reg.handlers, evType)[id := Empty]])
  }

  // ---------------------------------------------------------------- the step system

  /** A registration, in the order of the ids 1, 2, 3, ... */
  datatype Registration = Registration(evType: string, m: Method)

  /** A received event with its handlers at the time of dispatch. */
  datatype Event = Event(evType: string, data: Value, handlers: map<int, Entry>)

  /** A pool task: event number and handler id. */
  datatype Task = Task(event: nat, id: int)

  datatype Invocation = Invocation(task: Task, entry: Entry, args: seq<Value>)

  datatype State = State(
    reg: Registry,
    registered: seq<Registration>,
    events: seq<Event>,
    pool: multiset<Task>,
    invoked: seq<Invocation>,
    dead: bool)

  datatype Step =
    | Register(evType: string, m: Method)
    | Unregister(id: int)
    | Receive(body: Text)
    | Run(task: Task)

  ghost const INIT := State(Registry(0, map[]), [], [], multiset{}, [], false)

  /** The casts of `_on_event_message`. */
  ghost function DecodeEvent(body: Text): Result<(string, Value)> {
    match LoadJson(body)
    case Err(e) => Err(e)
    case Ok(data) =>
      if |data| < 1 then Err(OutOfRange)
      else if !data[0].VString? then Err(BadAnyCast)
      else if |data| < 2 then Err(OutOfRange)
      else Ok((data[0].s, data[1]))
  }

  /** An event is accepted exactly if its body has at least two fields, the first of them a string. */
  lemma {:induction false} DecodeEventExact(body: Text, evType: string, data: Value)
    ensures DecodeEvent(body) == Ok((evType, data)) <==>
      LoadJson(body).Ok? && |LoadJson(body).value| >= 2 && LoadJson(body).value[..2] == [VString(evType), data]
    ensures DecodeEvent(body) == Err(BadAnyCast) <==>
      LoadJson(body).Ok? && |LoadJson(body).value| >= 1 && !LoadJson(body).value[0].VString?
    ensures DecodeEvent(body) == Err(ParseError) <==> body.NotJson?
  {
    if LoadJson(body).Ok? && |LoadJson(body).value| >= 2 {
      var vs := LoadJson(body).value;
      assert vs[..2] == [vs[0], vs[1]];
    }
  }

  /** One task per handler. */
  ghost function TasksFor(n: nat, handlers: map<int, Entry>): (r: multiset<Task>)
    ensures forall t :: r[t] == if t.event == n && t.id in handlers then 1 else 0
  {
    multiset(set id | id in handlers :: Task(n, id))
  }

  /** `keepQueued`: no handler is unregistered while one of its tasks is queued. */
  ghost predicate Enabled(keepQueued: bool, s: State, step: Step) {
    && !s.dead
    && match step
       case Register(_, _) => s.reg.lastId < INT_MAX
       case Unregister(id) => keepQueued ==> forall t | t in s.pool :: t.id != id
       case Receive(_) => true
       case Run(t) => t in s.pool && t.event < |s.events|
  }

  ghost function Apply(keepQueued: bool, s: State, step: Step): State
    requires Enabled(keepQueued, s, step)
  {
    match step
    case Register(evType, m) =>
      s.(reg := Registered(s.reg, evType, m), registered := s.registered + [Registration(evType, m)])
    case Unregister(id) => s.(reg := Unregistered(s.reg, id))
    case Receive(body) =>
      (match DecodeEvent(body)
       case Err(_) => s.(dead := true)
       case Ok((evType, data)) =>
         var handlers := HandlersOf(s.reg.handlers, evType);
         s.(events := s.events + [Event(evType, data, handlers)], pool := s.pool + TasksFor(|s.events|, handlers)))
    case Run(t) =>
      var e := s.events[t.event];
      var reg := Indexed(s.reg, e.evType, t.id);
      s.(reg := reg, pool := s.pool - multiset{t},
         invoked := s.invoked + [Invocation(t, reg.handlers[e.evType][t.id], [VString(e.evType), e.data])])
  }

  ghost predicate Takes(keepQueued: bool, s: State, step: Step, t: State) {
    Enabled(keepQueued, s, step) && t == Apply(keepQueued, s, step)
  }

  ghost predicate Follows(keepQueued: bool, s: State, t: State) {
    exists step :: Takes(keepQueued, s, step, t)
  }

  ghost predicate IsRun(keepQueued: bool, run: seq<State>) {
    && run != []
    && run[0] == INIT
    && forall m, n {:trigger Follows(keepQueued, run[m], run[n])} | 0 <= m && m + 1 == n < |run| :: Follows(keepQueued, run[m], run[n])
  }

  ghost predicate Reachable(keepQueued: bool, s: State) {
    exists run :: IsRun(keepQueued, run) && run[|run| - 1] == s
  }

  // ---------------------------------------------------------------- the invariant

  /** The entry stands where its id was registered, and is that registration or was created empty. */
  ghost predicate EntryInv(registered: seq<Registration>, evType: string, id: int, entry: Entry) {
    && 1 <= id <= |registered| && registered[id - 1].evType == evType
    && (entry.Bound? ==> entry.m == registered[id - 1].m)
  }

  ghost predicate EntriesInv(registered: seq<Registration>, evType: string, entries: map<int, Entry>) {
    forall id | id in entries :: EntryInv(registered, evType, id, entries[id])
  }

  ghost predicate RegistryInv(reg: Registry, registered: seq<Registration>) {
    && reg.lastId == |registered|
    && forall t | t in reg.handlers :: EntriesInv(registered, t, reg.handlers[t])
  }

  function InvokedTimes(invoked: seq<Invocation>, t: Task): nat {
    if invoked == [] then 0
    else InvokedTimes(invoked[..|invoked| - 1], t) + if invoked[|invoked| - 1].task == t then 1 else 0
  }

  ghost predicate DispatchInv(s: State) {
    && (forall n | 0 <= n < |s.events| :: EntriesInv(s.registered, s.events[n].evType, s.events[n].handlers))
    && (forall t: Task ::
          s.pool[t] + InvokedTimes(s.invoked, t) == if t.event < |s.events| && t.id in s.events[t.event].handlers then 1 else 0)
    && (forall k | 0 <= k < |s.invoked| ::
          s.invoked[k].task.event < |s.events| &&
          s.invoked[k].args == [VString(s.events[s.invoked[k].task.event].evType), s.events[s.invoked[k].task.event].data])
  }

  ghost predicate Inv(s: State) {
    RegistryInv(s.reg, s.registered) && DispatchInv(s)
  }

  lemma {:induction false} EntriesGrow(registered: seq<Registration>, more: Registration, evType: string, entries: map<int, Entry>)
    requires EntriesInv(registered, evType, entries)
    ensures EntriesInv(registered + [more], evType, entries)
  {}

  lemma {:induction false} RegisterKeepsInv(reg: Registry, registered: seq<Registration>, evType: string, m: Method)
    requires RegistryInv(reg, registered)
    ensures RegistryInv(Registered(reg, evType, m), registered + [Registration(evType, m)])
  {}

  lemma {:induction false} UnregisterKeepsInv(reg: Registry, registered: seq<Registration>, id: int)
    requires RegistryInv(reg, registered)
    ensures RegistryInv(Unregistered(reg, id), registered)
  {}

  lemma {:induction false} IndexKeepsInv(reg: Registry, registered: seq<Registration>, evType: string, id: int)
    requires RegistryInv(reg, registered) && 1 <= id <= |registered| && registered[id - 1].evType == evType
    ensures RegistryInv(Indexed(reg, evType, id), registered)
  {}

  lemma {:induction false} InvokedAppend(invoked: seq<Invocation>, last: Invocation, t: Task)
    ensures InvokedTimes(invoked + [last], t) == InvokedTimes(invoked, t) + if last.task == t then 1 else 0
  {}

  lemma {:induction false} RunKeepsInv(s: State, t: Task, entry: Entry)
    requires DispatchInv(s) && t in s.pool && t.event < |s.events|
    ensures
      var e := s.events[t.event];
      var i := Invocation(t, entry, [VString(e.evType), e.data]);
      DispatchInv(s.(pool := s.pool - multiset{t}, invoked := s.invoked + [i]))
  {
    var e := s.events[t.event];
    var i := Invocation(t, entry, [VString(e.evType), e.data]);
    forall u: Task
      ensures (s.pool - multiset{t})[u] + InvokedTimes(s.invoked + [i], u) == s.pool[u] + InvokedTimes(s.invoked, u)
    {
      InvokedAppend(s.invoked, i, u);
    }
  }

  lemma {:induction false} NotInvokedYet(s: State, t: Task)
    requires DispatchInv(s) && t.event >= |s.events|
    ensures s.pool[t] == 0 && InvokedTimes(s.invoked, t) == 0
  {}

  lemma {:induction false} ReceiveKeepsInv(s: State, evType: string, data: Value)
    requires Inv(s)
    ensures
      var handlers := HandlersOf(s.reg.handlers, evType);
      Inv(s.(events := s.events + [Event(evType, data, handlers)], pool := s.pool + TasksFor(|s.events|, handlers)))
  {
    var handlers := HandlersOf(s.reg.handlers, evType);
    var events := s.events + [Event(evType, data, handlers)];
    forall t: Task
      ensures (s.pool + TasksFor(|s.events|, handlers))[t] + InvokedTimes(s.invoked, t) ==
              if t.event < |events| && t.id in events[t.event].handlers then 1 else 0
    {
      if t.event >= |s.events| { NotInvokedYet(s, t); }
    }
  }

  lemma {:induction false} RegisterStepKeepsInv(s: State, evType: string, m: Method)
    requires Inv(s)
    ensures Inv(s.(reg := Registered(s.reg, evType, m), registered := s.registered + [Registration(evType, m)]))
  {
    RegisterKeepsInv(s.reg, s.registered, evType, m);
    forall n | 0 <= n < |s.events|
      ensures EntriesInv(s.registered + [Registration(evType, m)], s.events[n].evType, s.events[n].handlers)
    {
      EntriesGrow(s.registered, Registration(evType, m), s.events[n].evType, s.events[n].handlers);
    }
  }

  lemma {:induction false} RunStepKeepsInv(keepQueued: bool, s: State, t: Task)
    requires Inv(s) && Enabled(keepQueued, s, Run(t))
    ensures Inv(Apply(keepQueued, s, Run(t)))
  {
    var e := s.events[t.event];
    assert t.id in e.handlers && EntriesInv(s.registered, e.evType, e.handlers);
    IndexKeepsInv(s.reg, s.registered, e.evType, t.id);
    RunKeepsInv(s, t, Indexed(s.reg, e.evType, t.id).handlers[e.evType][t.id]);
  }

  lemma {:induction false} StepKeepsInv(keepQueued: bool, s: State, step: Step)
    requires Inv(s) && Enabled(keepQueued, s, step)
    ensures Inv(Apply(keepQueued, s, step))
  {
    match step
    case Register(evType, m) => RegisterStepKeepsInv(s, evType, m);
    case Unregister(id) => UnregisterKeepsInv(s.reg, s.registered, id);
    case Receive(body) =>
      if DecodeEvent(body).Ok? { ReceiveKeepsInv(s, DecodeEvent(body).value.0, DecodeEvent(body).value.1); }
    case Run(t) => RunStepKeepsInv(keepQueued, s, t);
  }

  lemma {:induction false} FollowsKeepsInv(keepQueued: bool, s: State, t: State)
    requires Inv(s) && Follows(keepQueued, s, t)
    ensures Inv(t)
  {
    var step :| Takes(keepQueued, s, step, t);
    StepKeepsInv(keepQueued, s, step);
  }

  lemma {:induction false} RunsKeepInv(keepQueued: bool, run: seq<State>, n: nat)
    requires IsRun(keepQueued, run) && n < |run|
    ensures Inv(run[n])
  {
    if n > 0 {
      RunsKeepInv(keepQueued, run, n - 1);
      assert Follows(keepQueued, run[n - 1], run[n]);
      FollowsKeepsInv(keepQueued, run[n - 1], run[n]);
    }
  }

  lemma {:induction false} ReachableInv(keepQueued: bool, s: State)
    requires Reachable(keepQueued, s)
    ensures Inv(s)
  {
    var run :| IsRun(keepQueued, run) && run[|run| - 1] == s;
    RunsKeepInv(keepQueued, run, |run| - 1);
  }

  // ---------------------------------------------------------------- the registry

  /** In every reachable state all handler ids lie in 1..`evt_cb_id`, no id stands under two event
      types, and the next id is unused, so the assert of `register_event_handler` never fails. */
  lemma {:induction false} IdsAreUnique(keepQueued: bool, s: State)
    requires Reachable(keepQueued, s)
    ensures forall t, id | t in s.reg.handlers && id in s.reg.handlers[t] :: 1 <= id <= s.reg.lastId
    ensures forall t, u, id | t in s.reg.handlers && u in s.reg.handlers && id in s.reg.handlers[t] && id in s.reg.handlers[u] :: t == u
    ensures forall t :: s.reg.lastId + 1 !in HandlersOf(s.reg.handlers, t)
  {
    ReachableInv(keepQueued, s);
    forall t, id | t in s.reg.handlers && id in s.reg.handlers[t]
      ensures 1 <= id <= s.reg.lastId && s.registered[id - 1].evType == t
    {
      assert EntriesInv(s.registered, t, s.reg.handlers[t]);
    }
  }

  /** Unregistering an id that stands under a non-empty event type removes exactly that handler and
      leaves every other one; an id under the empty event type, or under none, stays as it is. */
  lemma {:induction false} UnregisterRemovesOne(keepQueued: bool, s: State, evType: string, id: int)
    requires Reachable(keepQueued, s) && evType in s.reg.handlers && id in s.reg.handlers[evType]
    ensures evType != "" ==>
      Unregistered(s.reg, id) == s.reg.(handlers := s.reg.handlers[evType := s.reg.handlers[evType] - {id}])
    ensures evType == "" ==> Unregistered(s.reg, id) == s.reg
  {
    IdsAreUnique(keepQueued, s);
    var after := Unregistered(s.reg, id).handlers;
    forall t | t in s.reg.handlers && t != evType ensures after[t] == s.reg.handlers[t] {
      assert id !in s.reg.handlers[t];
    }
    if evType != "" {
      assert after == s.reg.handlers[evType := s.reg.handlers[evType] - {id}];
    } else {
      assert after == s.reg.handlers;
    }
  }

  // ---------------------------------------------------------------- fan-out

  /** What holds as long as no handler is unregistered while one of its tasks is queued. */
  ghost predicate AllBound(entries: map<int, Entry>) {
    forall id | id in entries :: entries[id].Bound?
  }

  ghost predicate StillThere(s: State, t: Task) {
    && t.event < |s.events| && t.id in s.events[t.event].handlers
    && t.id in HandlersOf(s.reg.handlers, s.events[t.event].evType)
    && HandlersOf(s.reg.handlers, s.events[t.event].evType)[t.id] == s.events[t.event].handlers[t.id]
  }

  ghost predicate KeptInv(s: State) {
    && (forall t | t in s.reg.handlers :: AllBound(s.reg.handlers[t]))
    && (forall n | 0 <= n < |s.events| :: AllBound(s.events[n].handlers))
    && (forall t | t in s.pool :: StillThere(s, t))
    && (forall k | 0 <= k < |s.invoked| ::
          && s.invoked[k].task.event < |s.events|
          && s.invoked[k].task.id in s.events[s.invoked[k].task.event].handlers
          && s.invoked[k].entry == s.events[s.invoked[k].task.event].handlers[s.invoked[k].task.id])
  }

  lemma {:induction false} RegisterKeepsKept(s: State, evType: string, m: Method)
    requires Inv(s) && KeptInv(s)
    ensures KeptInv(s.(reg := Registered(s.reg, evType, m), registered := s.registered + [Registration(evType, m)]))
  {
    var t := s.(reg := Registered(s.reg, evType, m), registered := s.registered + [Registration(evType, m)]);
    forall u | u in t.pool ensures StillThere(t, u) {
      assert StillThere(s, u);
      var handlers := HandlersOf(s.reg.handlers, s.events[u.event].evType);
      assert EntriesInv(s.registered, s.events[u.event].evType, handlers);
      assert EntryInv(s.registered, s.events[u.event].evType, u.id, handlers[u.id]);
      assert u.id != s.reg.lastId + 1;
    }
  }

  lemma {:induction false} UnregisterKeepsKept(s: State, id: int)
    requires KeptInv(s) && forall t | t in s.pool :: t.id != id
    ensures KeptInv(s.(reg := Unregistered(s.reg, id)))
  {}

  lemma {:induction false} ReceiveKeepsKept(s: State, evType: string, data: Value)
    requires KeptInv(s)
    ensures
      var handlers := HandlersOf(s.reg.handlers, evType);
      KeptInv(s.(events := s.events + [Event(evType, data, handlers)], pool := s.pool + TasksFor(|s.events|, handlers)))
  {}

  lemma {:induction false} TakenKeepsKept(s: State, t: Task, i: Invocation)
    requires KeptInv(s) && t in s.pool && i.task == t && StillThere(s, t)
    requires i.entry == s.events[t.event].handlers[t.id]
    ensures KeptInv(s.(pool := s.pool - multiset{t}, invoked := s.invoked + [i]))
  {
    var r := s.(pool := s.pool - multiset{t}, invoked := s.invoked + [i]);
    forall u | u in r.pool ensures StillThere(r, u) { assert StillThere(s, u); }
  }

  lemma {:induction false} RunKeepsKept(s: State, t: Task)
    requires KeptInv(s) && Enabled(true, s, Run(t))
    ensures Apply(true, s, Run(t)).reg == s.reg
    ensures KeptInv(Apply(true, s, Run(t)))
  {
    assert StillThere(s, t);
    var e := s.events[t.event];
    TakenKeepsKept(s, t, Invocation(t, e.handlers[t.id], [VString(e.evType), e.data]));
  }

  lemma {:induction false} StepKeepsKept(s: State, step: Step)
    requires Inv(s) && KeptInv(s) && Enabled(true, s, step)
    ensures KeptInv(Apply(true, s, step))
  {
    match step
    case Register(evType, m) => RegisterKeepsKept(s, evType, m);
    case Unregister(id) => UnregisterKeepsKept(s, id);
    case Receive(body) =>
      if DecodeEvent(body).Ok? { ReceiveKeepsKept(s, DecodeEvent(body).value.0, DecodeEvent(body).value.1); }
    case Run(u) => RunKeepsKept(s, u);
  }

  lemma {:induction false} FollowsKeepsKept(s: State, t: State)
    requires Inv(s) && KeptInv(s) && Follows(true, s, t)
    ensures KeptInv(t)
  {
    var step :| Takes(true, s, step, t);
    StepKeepsKept(s, step);
  }

  lemma {:induction false} RunsKeepKept(run: seq<State>, n: nat, s: State)
    requires IsRun(true, run) && n < |run| && run[n] == s
    ensures KeptInv(s)
  {
    if n > 0 {
      var p := run[n - 1];
      RunsKeepKept(run, n - 1, p);
      RunsKeepInv(true, run, n - 1);
      assert Follows(true, run[n - 1], run[n]);
      FollowsKeepsKept(p, s);
    }
  }

  lemma {:induction false} ReachableKept(s: State)
    requires Reachable(true, s)
    ensures KeptInv(s)
  {
    var run :| IsRun(true, run) && run[|run| - 1] == s;
    RunsKeepKept(run, |run| - 1, s);
  }

  /** Under every schedule in which no queued handler is unregistered, running a queued task
      leaves the registry unchanged. */
  lemma {:induction false} QueuedTaskKeepsRegistry(s: State, t: Task)
    requires Reachable(true, s) && Enabled(true, s, Run(t))
    ensures Apply(true, s, Run(t)).reg == s.reg
  {
    ReachableKept(s);
    ReachableInv(true, s);
    RunKeepsKept(s, t);
  }
}
