/** The client as a step system: any number of callers and publishers, and one event thread.

    Every lock acquisition, every critical section, every map operation and every move of a result
    is a step of its own, so all interleavings of include/client.inl and src/client.cc are covered:
    `req_events_mtx` (here the table lock), the mutex of each slot, `send_mtx`, and `pub_mtx`.
    The event thread finds, decodes and sets without the table lock. */
module RpcClient {
  import opened Wrappers
  import opened Json
  import opened Values
  import opened RpcUtils
  import opened Worker
  import opened Slots

  /** `spurious`: condition variables may wake without a notification.
      `onePublisher`: publish calls do not overlap. */
  datatype Config = Config(callbackQueue: string, rpcQueue: string, spurious: bool, onePublisher: bool)

  // ---------------------------------------------------------------- callers

  datatype CallPc =
    | WantTable
    | Registering
    | WantSend
    | Sending
    | WantResult
    | Indexing
    | Checking
    | Waiting
    | Woken(timedOut: bool)
    | Leaving(timedOut: bool)
    | Taking
    | Erasing(ret: Reply)
    | Deciding(ret: Reply)
    | Finished(out: CallResult)

  /** One invocation of `Caller::call`.  `id` is empty exactly for a call that failed because its
      method name is empty.  `unnotified` records a spurious wakeup. */
  datatype Call = Call(key: string, meth: string, args: seq<Value>, id: string, pc: CallPc, unnotified: bool)

  datatype WakeKind = Notified | Spurious | Timeout

  // ---------------------------------------------------------------- event thread

  /** A message from the callback queue; `tag` is its delivery tag. */
  datatype Message = Message(tag: nat, corr: string, body: Text)

  datatype EventPc =
    | Idle
    | Found(id: string, body: Text)
    | Decoded(id: string, reply: Reply)
    | Setting(id: string, reply: Reply)

  /** How the process dies: the event thread dereferences a slot that is not in the table, or lets
      an exception or a failed assert of the reply decoder escape. */
  datatype Crash = NullSlot | BadReply

  // ---------------------------------------------------------------- publishers

  datatype PubPc =
    | Looking
    | Declaring
    | Binding
    | Inserting
    | WantGate
    | AtGate
    | Parking
    | Parked(notified: bool)
    | Unparked
    | WantChannel
    | Publishing
    | Done

  datatype Pub = Pub(key: string, body: Json, pc: PubPc)

  datatype Sender = ByCall(i: nat) | ByPub(p: nat)

  /** Commands on the send channel, in order.  `p` is the number of the publish call that published the
      event. */
  datatype Command =
    | Declare(key: string)
    | Bind(key: string)
    | PublishEvent(p: nat, key: string, body: Json)
    | PublishRequest(key: string, env: Envelope)

  datatype Gate = Gate(pubs: seq<Pub>, owner: Option<nat>, inited: bool, keys: set<string>)

  datatype Client = Client(
    calls: seq<Call>,
    slots: map<string, Slot>,
    tableOwner: Option<nat>,
    ev: EventPc,
    received: seq<Message>,
    crash: Option<Crash>,
    sendOwner: Option<Sender>,
    log: seq<Command>,
    gate: Gate)

  ghost const INIT := Client([], map[], None, Idle, [], None, None, [], Gate([], None, false, {}))

  datatype Step =
    | StartCall(key: string, meth: string, args: seq<Value>, id: string)
    | CallStep(i: nat)
    | WakeCall(i: nat, kind: WakeKind)
    | Receive(msg: Message)
    | EventStep
    | StartPublish(key: string, evType: string, data: Value)
    | PubStep(p: nat)
    | WakePub(p: nat)
    | BindConfirmed

  /** The body of an event. */
  function EventBody(evType: string, data: Value): Json {
    JArr([JString(evType), ToJson(data)])
  }

  /** The request that a call publishes. */
  function RequestOf(cfg: Config, c: Call): Envelope {
    Envelope(Dump(EncodeReq(c.id, c.meth, c.args)), c.id, cfg.callbackQueue)
  }

  // ---------------------------------------------------------------- steps of a caller

  ghost predicate FreshId(s: Client, id: string) {
    id != "" && forall i | 0 <= i < |s.calls| :: s.calls[i].id != id
  }

  predicate NeedsSlot(pc: CallPc) {
    pc.Checking? || pc.Waiting? || pc.Woken? || pc.Leaving? || pc.Taking?
  }

  ghost predicate CallEnabled(s: Client, i: nat) {
    && i < |s.calls|
    && var c := s.calls[i];
    && (NeedsSlot(c.pc) ==> c.id in s.slots)
    && match c.pc
       case WantTable => s.tableOwner.None?
       case WantSend => s.sendOwner.None?
       case WantResult => s.tableOwner.None?
       case Indexing => c.id in s.slots ==> s.slots[c.id].owner.None?
       case Waiting => false
       case Woken(_) => s.slots[c.id].owner.None?
       case Finished(_) => false
       case _ => true
  }

  ghost function MoveCall(s: Client, i: nat, pc: CallPc): seq<Call>
    requires i < |s.calls|
  {
    s.calls[i := s.calls[i].(pc := pc)]
  }

  /** The steps that a caller takes on its own slot, while it holds the table lock. */
  function SlotStep(pc: CallPc, slot: Slot): (CallPc, Slot)
    requires pc.Indexing? || (NeedsSlot(pc) && !pc.Waiting?)
  {
    match pc
    case Indexing => (Checking, slot.(owner := Some(ByCaller)))
    case Checking => (if slot.done then Taking else Waiting, Check(slot))
    case Woken(timedOut) => (Leaving(timedOut), slot.(owner := Some(ByCaller)))
    case Leaving(timedOut) => (if timedOut then Finished(TimedOut) else Taking, Leave(slot, timedOut))
    case Taking => (Erasing(slot.result), MoveOut(slot))
  }

  ghost function StepCall(cfg: Config, s: Client, i: nat): Client
    requires CallEnabled(s, i)
  {
    var c := s.calls[i];
    if c.pc.Indexing? || NeedsSlot(c.pc) then
      if c.id !in s.slots then s.(crash := Some(NullSlot))
      else
        var (pc, slot) := SlotStep(c.pc, s.slots[c.id]);
        s.(calls := MoveCall(s, i, pc), slots := s.slots[c.id := slot],
           tableOwner := if pc.Finished? then None else s.tableOwner)
    else match c.pc
    case WantTable => s.(calls := MoveCall(s, i, Registering), tableOwner := Some(i))
    case Registering => s.(calls := MoveCall(s, i, WantSend), slots := s.slots[c.id := NEW_SLOT], tableOwner := None)
    case WantSend => s.(calls := MoveCall(s, i, Sending), sendOwner := Some(ByCall(i)))
    case Sending =>
      s.(calls := MoveCall(s, i, WantResult), sendOwner := None, log := s.log + [PublishRequest(c.key, RequestOf(cfg, c))])
    case WantResult => s.(calls := MoveCall(s, i, Indexing), tableOwner := Some(i))
    case Erasing(ret) => s.(calls := MoveCall(s, i, Deciding(ret)), slots := s.slots - {c.id}, tableOwner := None)
    case Deciding(ret) => s.(calls := MoveCall(s, i, Finished(Conclude(ret))))
  }

  ghost predicate WakeEnabled(cfg: Config, s: Client, i: nat, kind: WakeKind) {
    && i < |s.calls| && s.calls[i].pc.Waiting? && s.calls[i].id in s.slots
    && (kind.Notified? ==> s.slots[s.calls[i].id].notified)
    && (kind.Spurious? ==> cfg.spurious)
  }

  ghost function StepWake(s: Client, i: nat, kind: WakeKind): Client
    requires i < |s.calls| && s.calls[i].id in s.slots
  {
    var c := s.calls[i].(pc := Woken(kind.Timeout?), unnotified := kind.Spurious?);
    s.(calls := s.calls[i := c], slots := s.slots[c.id := WakeUp(s.slots[c.id])])
  }

  // ---------------------------------------------------------------- steps of the event thread

  ghost predicate EventEnabled(s: Client) {
    match s.ev
    case Idle => false
    case Decoded(id, _) => id in s.slots ==> s.slots[id].owner.None?
    case _ => true
  }

  ghost function StepReceive(s: Client, msg: Message): Client {
    s.(received := s.received + [msg], ev := if msg.corr in s.slots then Found(msg.corr, msg.body) else Idle)
  }

  /** `on_response` after the find.  Indexing a missing id creates a null slot and dereferences it. */
  ghost function StepEvent(s: Client): Client
    requires EventEnabled(s)
  {
    match s.ev
    case Found(id, body) =>
      (match DecodeRep(body, "")
       case Ok(reply) => s.(ev := Decoded(id, reply))
       case Err(_) => s.(crash := Some(BadReply)))
    case Decoded(id, reply) =>
      if id !in s.slots then s.(crash := Some(NullSlot))
      else s.(ev := Setting(id, reply), slots := s.slots[id := s.slots[id].(owner := Some(ByEvent))])
    case Setting(id, reply) =>
      if id !in s.slots then s.(crash := Some(NullSlot))
      else s.(ev := Idle, slots := s.slots[id := SetDone(s.slots[id], reply)])
  }

  // ---------------------------------------------------------------- steps of a publisher

  ghost predicate PubEnabled(s: Client, p: nat) {
    && p < |s.gate.pubs|
    && match s.gate.pubs[p].pc
       case WantGate => s.gate.owner.None?
       case Unparked => s.gate.owner.None?
       case WantChannel => s.sendOwner.None?
       case Parked(_) => false
       case Done => false
       case _ => true
  }

  ghost function MovePub(g: Gate, p: nat, pc: PubPc): Gate
    requires p < |g.pubs|
  {
    g.(pubs := g.pubs[p := g.pubs[p].(pc := pc)])
  }

  ghost function StepPub(s: Client, p: nat): Client
    requires PubEnabled(s, p)
  {
    var g := s.gate;
    var pub := g.pubs[p];
    match pub.pc
    case Looking => s.(gate := MovePub(g, p, if pub.key in g.keys then WantGate else Declaring))
    case Declaring => s.(gate := MovePub(g, p, Binding), log := s.log + [Declare(pub.key)])
    case Binding => s.(gate := MovePub(g, p, Inserting), log := s.log + [Bind(pub.key)])
    case Inserting => s.(gate := MovePub(g, p, WantGate).(keys := g.keys + {pub.key}))
    case WantGate => s.(gate := MovePub(g, p, AtGate).(owner := Some(p)))
    case AtGate => s.(gate := MovePub(g, p, if g.inited then WantChannel else Parking))
    case Parking => s.(gate := MovePub(g, p, Parked(false)).(owner := None))
    case Unparked => s.(gate := MovePub(g, p, WantChannel).(owner := Some(p)))
    case WantChannel => s.(gate := MovePub(g, p, Publishing), sendOwner := Some(ByPub(p)))
    case Publishing =>
      s.(gate := MovePub(g, p, Done).(owner := None), sendOwner := None, log := s.log + [PublishEvent(p, pub.key, pub.body)])
  }

  ghost predicate WakePubEnabled(cfg: Config, s: Client, p: nat) {
    p < |s.gate.pubs| && s.gate.pubs[p].pc.Parked? && (s.gate.pubs[p].pc.notified || cfg.spurious)
  }

  /** The `onSuccess` callback of a bind: the flag is set and the waiters are notified, without
      `pub_mtx`. */
  ghost function StepBindConfirmed(s: Client): Client {
    var g := s.gate;
    s.(gate := g.(inited := true, pubs := NotifyAll(g.pubs)))
  }

  ghost function NotifyAll(pubs: seq<Pub>): (r: seq<Pub>)
    ensures |r| == |pubs|
    ensures forall p | 0 <= p < |pubs| ::
      r[p] == if pubs[p].pc.Parked? then pubs[p].(pc := Parked(true)) else pubs[p]
  {
    seq(|pubs|, p requires 0 <= p < |pubs| => if pubs[p].pc.Parked? then pubs[p].(pc := Parked(true)) else pubs[p])
  }

  // ---------------------------------------------------------------- the whole system

  ghost predicate Enabled(cfg: Config, s: Client, step: Step) {
    && s.crash.None?
    && match step
       case StartCall(_, meth, _, id) => meth != "" ==> FreshId(s, id)
       case CallStep(i) => CallEnabled(s, i)
       case WakeCall(i, kind) => WakeEnabled(cfg, s, i, kind)
       case Receive(_) => s.ev.Idle?
       case EventStep => EventEnabled(s)
       case StartPublish(_, _, _) => cfg.onePublisher ==> forall p | 0 <= p < |s.gate.pubs| :: s.gate.pubs[p].pc.Done?
       case PubStep(p) => PubEnabled(s, p)
       case WakePub(p) => WakePubEnabled(cfg, s, p)
       case BindConfirmed => s.ev.Idle? && exists x :: 0 <= x < |s.log| && s.log[x].Bind?
  }

  ghost function Apply(cfg: Config, s: Client, step: Step): Client
    requires Enabled(cfg, s, step)
  {
    match step
    case StartCall(key, meth, args, id) =>
      var c := if meth == "" then Call(key, meth, args, "", Finished(EmptyName), false)
               else Call(key, meth, args, id, WantTable, false);
      s.(calls := s.calls + [c])
    case CallStep(i) => StepCall(cfg, s, i)
    case WakeCall(i, kind) => StepWake(s, i, kind)
    case Receive(msg) => StepReceive(s, msg)
    case EventStep => StepEvent(s)
    case StartPublish(key, evType, data) =>
      s.(gate := s.gate.(pubs := s.gate.pubs + [Pub(key, EventBody(evType, data), Looking)]))
    case PubStep(p) => StepPub(s, p)
    case WakePub(p) => s.(gate := MovePub(s.gate, p, Unparked))
    case BindConfirmed => StepBindConfirmed(s)
  }

  ghost predicate Takes(cfg: Config, s: Client, step: Step, t: Client) {
    Enabled(cfg, s, step) && t == Apply(cfg, s, step)
  }

  ghost predicate Follows(cfg: Config, s: Client, t: Client) {
    exists step :: Takes(cfg, s, step, t)
  }

  /** A run is any sequence of steps from the initial state. */
  ghost predicate IsRun(cfg: Config, run: seq<Client>) {
    && run != []
    && run[0] == INIT
    && forall m, n {:trigger Follows(cfg, run[m], run[n])} | 0 <= m && m + 1 == n < |run| :: Follows(cfg, run[m], run[n])
  }

  ghost predicate Reachable(cfg: Config, s: Client) {
    exists run :: IsRun(cfg, run) && run[|run| - 1] == s
  }

  lemma {:induction false} ReachableInit(cfg: Config)
    ensures Reachable(cfg, INIT)
  {
    assert IsRun(cfg, [INIT]);
  }

  lemma {:induction false} ReachableStep(cfg: Config, s: Client, step: Step)
    requires Reachable(cfg, s) && Enabled(cfg, s, step)
    ensures Reachable(cfg, Apply(cfg, s, step))
  {
    var run :| IsRun(cfg, run) && run[|run| - 1] == s;
    var t := Apply(cfg, s, step);
    var longer := run + [t];
    assert Takes(cfg, s, step, t);
    forall m, n | 0 <= m && m + 1 == n < |longer| ensures Follows(cfg, longer[m], longer[n]) {
      if n < |run| { assert Follows(cfg, run[m], run[n]); }
    }
    assert IsRun(cfg, longer);
  }
}
