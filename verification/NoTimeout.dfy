/** A call that waits for an owed reply needs no timeout, although it waits while it holds the table
    lock: steps of the server, the broker and the event thread alone wake it and let it end. */
module NoTimeout {
  import opened Wrappers
  import opened Json
  import opened RpcUtils
  import opened Worker
  import opened ClientTable
  import opened SlotSafety
  import C = RpcClient
  import S = RpcServer
  import opened RpcSystem
  import opened RpcHistory
  import Slots
  import Progress

  // ---------------------------------------------------------------- no reply goes unheard

  /** The call has a slot and has not yet looked whether the result is there. */
  predicate BeforeCheck(pc: C.CallPc) {
    pc.WantSend? || pc.Sending? || pc.WantResult? || pc.Indexing? || pc.Checking?
  }

  ghost predicate Received(received: seq<C.Message>, id: string) {
    exists k :: 0 <= k < |received| && received[k].corr == id
  }

  /** Once its reply is settled, a call that has not looked yet will find it, and a call that waits
      has been notified. */
  ghost predicate Heard(c: C.Call, slot: Option<Slots.Slot>, ev: C.EventPc, received: seq<C.Message>) {
    && (Early(c.pc) ==> !Received(received, c.id))
    && (slot.Some? && Settled(ev, received, c.id) ==>
          (BeforeCheck(c.pc) ==> slot.value.done) && (c.pc.Waiting? ==> slot.value.notified))
  }

  ghost predicate AllHeard(s: C.Client) {
    forall i | 0 <= i < |s.calls| :: Heard(s.calls[i], SlotOf(s.slots, s.calls[i].id), s.ev, s.received)
  }

  lemma {:induction false} OwnStepKeepsHeard(s: C.Client, t: C.Client, i: nat, c: C.Call, slot: Option<Slots.Slot>)
    requires ClientTable.Inv(s) && AllHeard(s) && OwnStep(s, t, i, c, slot) && Heard(c, slot, s.ev, s.received)
    ensures AllHeard(t)
  {
    forall k | 0 <= k < |t.calls|
      ensures Heard(t.calls[k], SlotOf(t.slots, t.calls[k].id), t.ev, t.received)
    {
      if k != i {
        assert s.calls[k].id != c.id;
        assert SlotOf(t.slots, t.calls[k].id) == SlotOf(s.slots, s.calls[k].id);
        assert Heard(s.calls[k], SlotOf(s.slots, s.calls[k].id), s.ev, s.received);
      }
    }
  }

  lemma {:induction false} SlotStepIsHeard(c: C.Call, slot: Slots.Slot, ev: C.EventPc, received: seq<C.Message>)
    requires Heard(c, Some(slot), ev, received) && (c.pc.Indexing? || (C.NeedsSlot(c.pc) && !c.pc.Waiting?))
    ensures
      var (pc, slot') := C.SlotStep(c.pc, slot);
      Heard(c.(pc := pc), Some(slot'), ev, received)
  {}

  lemma {:induction false} CallStepIsHeard(cfg: C.Config, s: C.Client, i: nat)
    requires C.CallEnabled(s, i)
    requires
      var c := s.calls[i];
      && CallInv(c, SlotOf(s.slots, c.id), s.tableOwner == Some(i), s.received)
      && Heard(c, SlotOf(s.slots, c.id), s.ev, s.received)
    ensures
      var t := C.StepCall(cfg, s, i);
      Heard(t.calls[i], SlotOf(t.slots, s.calls[i].id), s.ev, s.received)
  {
    var c := s.calls[i];
    if c.pc.Indexing? || C.NeedsSlot(c.pc) {
      SlotStepIsHeard(c, s.slots[c.id], s.ev, s.received);
    }
  }

  lemma {:induction false} CallStepKeepsHeard(cfg: C.Config, s: C.Client, i: nat)
    requires ClientTable.Inv(s) && AllHeard(s) && C.CallEnabled(s, i)
    ensures AllHeard(C.StepCall(cfg, s, i))
  {
    var t := C.StepCall(cfg, s, i);
    var c := s.calls[i];
    CallStepIsOwn(cfg, s, i);
    CallStepIsHeard(cfg, s, i);
    OwnStepKeepsHeard(s, t, i, t.calls[i], SlotOf(t.slots, c.id));
  }

  lemma {:induction false} WakeKeepsHeard(cfg: C.Config, s: C.Client, i: nat, kind: C.WakeKind)
    requires ClientTable.Inv(s) && AllHeard(s) && C.WakeEnabled(cfg, s, i, kind)
    ensures AllHeard(C.StepWake(s, i, kind))
  {
    var t := C.StepWake(s, i, kind);
    var c := s.calls[i];
    assert CallInv(c, SlotOf(s.slots, c.id), s.tableOwner == Some(i), s.received);
    assert Heard(c, SlotOf(s.slots, c.id), s.ev, s.received);
    OwnStepKeepsHeard(s, t, i, t.calls[i], SlotOf(t.slots, c.id));
  }

  lemma {:induction false} StartKeepsHeard(cfg: C.Config, s: C.Client, step: C.Step)
    requires ClientTable.Inv(s) && AllHeard(s) && C.Enabled(cfg, s, step) && step.StartCall?
    requires step.meth != "" ==> !Received(s.received, step.id)
    ensures AllHeard(C.Apply(cfg, s, step))
  {
    var t := C.Apply(cfg, s, step);
    forall k | 0 <= k < |t.calls|
      ensures Heard(t.calls[k], SlotOf(t.slots, t.calls[k].id), t.ev, t.received)
    {
      if k < |s.calls| {
        assert Heard(s.calls[k], SlotOf(s.slots, s.calls[k].id), s.ev, s.received);
      } else if step.meth != "" {
        assert step.id !in s.slots;
      }
    }
  }

  lemma {:induction false} ReceivedMore(received: seq<C.Message>, msg: C.Message, id: string)
    ensures Received(received + [msg], id) <==> Received(received, id) || msg.corr == id
  {
    if Received(received, id) {
      var k :| 0 <= k < |received| && received[k].corr == id;
      assert (received + [msg])[k].corr == id;
    }
    assert (received + [msg])[|received|] == msg;
  }

  /** A message may be received once its call has published. */
  lemma {:induction false} ReceiveKeepsHeard(s: C.Client, msg: C.Message)
    requires ClientTable.Inv(s) && AllHeard(s) && s.ev.Idle?
    requires forall i | 0 <= i < |s.calls| && s.calls[i].id == msg.corr :: Published(s.calls[i].pc)
    ensures AllHeard(C.StepReceive(s, msg))
  {
    var t := C.StepReceive(s, msg);
    forall k | 0 <= k < |t.calls|
      ensures Heard(t.calls[k], SlotOf(t.slots, t.calls[k].id), t.ev, t.received)
    {
      assert Heard(s.calls[k], SlotOf(s.slots, s.calls[k].id), s.ev, s.received);
      ReceivedMore(s.received, msg, s.calls[k].id);
      assert Settled(t.ev, t.received, s.calls[k].id) ==> Received(t.received, s.calls[k].id);
      assert Received(s.received, s.calls[k].id) ==> Settled(s.ev, s.received, s.calls[k].id);
    }
  }

  lemma {:induction false} EventStepKeepsHeard(s: C.Client)
    requires ClientTable.Inv(s) && AllHeard(s) && C.EventEnabled(s)
    ensures AllHeard(C.StepEvent(s))
  {
    var t := C.StepEvent(s);
    forall k | 0 <= k < |t.calls|
      ensures Heard(t.calls[k], SlotOf(t.slots, t.calls[k].id), t.ev, t.received)
    {
      assert CallInv(s.calls[k], SlotOf(s.slots, s.calls[k].id), s.tableOwner == Some(k), s.received);
      assert Heard(s.calls[k], SlotOf(s.slots, s.calls[k].id), s.ev, s.received);
    }
  }

  lemma {:induction false} ClientStepKeepsHeard(cfg: C.Config, s: C.Client, step: C.Step)
    requires ClientTable.Inv(s) && AllHeard(s) && C.Enabled(cfg, s, step)
    requires step.StartCall? && step.meth != "" ==> !Received(s.received, step.id)
    requires step.Receive? ==> forall i | 0 <= i < |s.calls| && s.calls[i].id == step.msg.corr :: Published(s.calls[i].pc)
    ensures AllHeard(C.Apply(cfg, s, step))
  {
    match step
    case StartCall(_, _, _, _) => StartKeepsHeard(cfg, s, step);
    case CallStep(i) => CallStepKeepsHeard(cfg, s, i);
    case WakeCall(i, kind) => WakeKeepsHeard(cfg, s, i, kind);
    case Receive(msg) => ReceiveKeepsHeard(s, msg);
    case EventStep => EventStepKeepsHeard(s);
    case _ => GateStepKeepsTable(cfg, s, step);
  }

  // ---------------------------------------------------------------- every run of the system

  /** Every reply that the broker has taken for this client was received. */
  ghost predicate AllTaken(cfg: C.Config, s: System) {
    && s.pos <= |s.server.outbox|
    && forall p | 0 <= p < s.pos && s.server.outbox[p].sent.key == cfg.callbackQueue :: TakenAs(s.client.received, p)
  }

  ghost predicate TakenAs(received: seq<C.Message>, p: nat) {
    exists k :: 0 <= k < |received| && received[k].tag == p
  }

  lemma {:induction false} TakenStays(received: seq<C.Message>, msg: C.Message, p: nat)
    ensures TakenAs(received, p) || msg.tag == p ==> TakenAs(received + [msg], p)
  {
    var more := received + [msg];
    if k :| 0 <= k < |received| && received[k].tag == p { assert more[k].tag == p; }
    assert more[|received|] == msg;
  }

  /** The id on a reply for this client is the id of a call that has published. */
  lemma {:induction false} ReplyIsForCall(cfg: C.Config, s: System, p: nat) returns (i: nat)
    requires S.Inv(s.server) && LinkInv(cfg, s)
    requires p < |s.server.outbox| && s.server.outbox[p].sent.key == cfg.callbackQueue
    ensures i < |s.client.calls| && s.client.calls[i].id == s.server.outbox[p].sent.corr && s.client.calls[i].id != ""
    ensures Published(s.client.calls[i].pc)
  {
    S.PostedAnswers(s.server, p);
    var env := s.server.requests[s.server.outbox[p].job];
    assert IsOwn(cfg, s.client.calls, env);
    i :| 0 <= i < |s.client.calls| && s.client.calls[i].id != "" && Published(s.client.calls[i].pc)
      && env == C.RequestOf(cfg, s.client.calls[i]);
  }

  ghost predicate Together(cfg: C.Config, s: System) {
    ClientTable.Inv(s.client) && S.Inv(s.server) && LinkInv(cfg, s)
  }

  lemma {:induction false} FreshIsUnheard(cfg: C.Config, s: System, id: string)
    requires Together(cfg, s) && C.FreshId(s.client, id)
    ensures !Received(s.client.received, id)
  {
    forall k | 0 <= k < |s.client.received| ensures s.client.received[k].corr != id {
      var i := ReplyIsForCall(cfg, s, s.client.received[k].tag);
    }
  }

  lemma {:induction false} ReplyCallIsPublished(cfg: C.Config, s: System)
    requires Together(cfg, s) && Enabled(cfg, s, ReceiveReply)
    ensures forall k | 0 <= k < |s.client.calls| && s.client.calls[k].id == MessageAt(s.server, s.pos).corr ::
              Published(s.client.calls[k].pc)
  {
    var i := ReplyIsForCall(cfg, s, s.pos);
    assert forall k | 0 <= k < |s.client.calls| && s.client.calls[k].id == s.client.calls[i].id :: k == i;
  }

  lemma {:induction false} StepKeepsHeard(cfg: C.Config, s: System, step: Step)
    requires Together(cfg, s) && AllHeard(s.client) && Enabled(cfg, s, step)
    ensures AllHeard(Apply(cfg, s, step).client)
  {
    match step
    case ClientStep(c) =>
      if c.StartCall? && c.meth != "" { FreshIsUnheard(cfg, s, c.id); }
      ClientStepKeepsHeard(cfg, s.client, c);
    case ReceiveReply =>
      ReplyCallIsPublished(cfg, s);
      ClientStepKeepsHeard(cfg, s.client, C.Receive(MessageAt(s.server, s.pos)));
    case _ =>
  }

  lemma {:induction false} StepKeepsTaken(cfg: C.Config, s: System, step: Step)
    requires AllTaken(cfg, s) && Enabled(cfg, s, step)
    ensures AllTaken(cfg, Apply(cfg, s, step))
  {
    var t := Apply(cfg, s, step);
    match step
    case ClientStep(c) => ClientKeepsReceived(cfg, s.client, c);
    case ServerStep(v) => ServerGrows(s.server, v);
    case ReceiveReply =>
      forall p | 0 <= p < t.pos && t.server.outbox[p].sent.key == cfg.callbackQueue ensures TakenAs(t.client.received, p) {
        TakenStays(s.client.received, MessageAt(s.server, s.pos), p);
      }
    case _ =>
  }

  lemma {:induction false} RunKeepsHeard(cfg: C.Config, run: seq<System>, n: nat, s: System)
    requires IsRun(cfg, run) && n < |run| && run[n] == s
    ensures AllHeard(s.client) && AllTaken(cfg, s)
  {
    if n > 0 {
      var p := run[n - 1];
      RunKeepsHeard(cfg, run, n - 1, p);
      RunTogether(cfg, run, n - 1, p);
      assert Follows(cfg, run[n - 1], run[n]);
      var step :| Takes(cfg, p, step, s);
      StepKeepsHeard(cfg, p, step);
      StepKeepsTaken(cfg, p, step);
    }
  }

  lemma {:induction false} RunTogether(cfg: C.Config, run: seq<System>, n: nat, s: System)
    requires IsRun(cfg, run) && n < |run| && run[n] == s
    ensures Together(cfg, s)
  {
    RunProjects(cfg, run, n, s);
    ClientTable.ReachableInv(cfg, s.client);
    S.ReachableInv(s.server);
    RunKeepsLink(cfg, run, n, s);
  }

  lemma {:induction false} ReachableHeard(cfg: C.Config, s: System)
    requires Reachable(cfg, s)
    ensures Together(cfg, s) && AllHeard(s.client) && AllTaken(cfg, s)
  {
    var run :| IsRun(cfg, run) && run[|run| - 1] == s;
    RunTogether(cfg, run, |run| - 1, s);
    RunKeepsHeard(cfg, run, |run| - 1, s);
  }

  // ---------------------------------------------------------------- quiet runs

  /** No timeout, no spurious wakeup, no new call or request, and no change of registration. */
  predicate Quiet(step: Step) {
    match step
    case ClientStep(c) => c.EventStep? || c.CallStep? || (c.WakeCall? && c.kind.Notified?)
    case ServerStep(v) => !v.Register? && !v.Unregister?
    case ReceiveReply => true
    case ForeignReply => true
    case ForeignRequest(_) => false
  }

  ghost predicate QuietFollows(cfg: C.Config, s: System, t: System) {
    exists step :: Quiet(step) && Takes(cfg, s, step, t)
  }

  ghost predicate IsPath(cfg: C.Config, path: seq<System>) {
    && path != []
    && forall m, n {:trigger QuietFollows(cfg, path[m], path[n])} | 0 <= m && m + 1 == n < |path| :: QuietFollows(cfg, path[m], path[n])
  }

  /** Quiet steps alone lead from s to t. */
  ghost predicate Leads(cfg: C.Config, s: System, t: System) {
    exists path :: IsPath(cfg, path) && path[0] == s && path[|path| - 1] == t
  }

  ghost predicate Goes(cfg: C.Config, s: System, t: System) {
    Leads(cfg, s, t) && Reachable(cfg, t)
  }

  lemma {:induction false} ReachableStep(cfg: C.Config, s: System, step: Step)
    requires Reachable(cfg, s) && Enabled(cfg, s, step)
    ensures Reachable(cfg, Apply(cfg, s, step))
  {
    var run :| IsRun(cfg, run) && run[|run| - 1] == s;
    var t := Apply(cfg, s, step);
    var longer := run + [t];
    assert Takes(cfg, s, step, t);
    forall m, n | 0 <= m && m + 1 == n < |longer| ensures Follows(cfg, longer[m], longer[n]) {
      if n < |run| { assert Follows(cfg, run[m], run[n]); }
    }
    assert IsRun(cfg, longer);
  }

  lemma {:induction false} StayPut(cfg: C.Config, s: System)
    requires Reachable(cfg, s)
    ensures Goes(cfg, s, s)
  {
    assert IsPath(cfg, [s]);
  }

  lemma {:induction false} LeadsOn(cfg: C.Config, o: System, s: System, t: System)
    requires Leads(cfg, o, s) && QuietFollows(cfg, s, t)
    ensures Leads(cfg, o, t)
  {
    var path :| IsPath(cfg, path) && path[0] == o && path[|path| - 1] == s;
    var longer := path + [t];
    forall m, n | 0 <= m && m + 1 == n < |longer| ensures QuietFollows(cfg, longer[m], longer[n]) {
      if n < |path| { assert QuietFollows(cfg, path[m], path[n]); }
    }
    assert IsPath(cfg, longer);
  }

  lemma {:induction false} Go(cfg: C.Config, o: System, s: System, step: Step) returns (t: System)
    requires Goes(cfg, o, s) && Quiet(step) && Enabled(cfg, s, step)
    ensures t == Apply(cfg, s, step) && Goes(cfg, o, t)
  {
    t := Apply(cfg, s, step);
    ReachableStep(cfg, s, step);
    assert Takes(cfg, s, step, t);
    LeadsOn(cfg, o, s, t);
  }

  // ---------------------------------------------------------------- the server answers

  /** The method is registered, its parameters are recovered, and it can end other than by an
      exception that is not a `runtime_error`. */
  ghost predicate CanAnswer(v: S.Server, req: Request) {
    && req.meth in v.rpc && v.rpc[req.meth].Bound?
    && var m := v.rpc[req.meth].m;
    && Parameters(m, req).Ok?
    && exists outcome: Outcome :: !outcome.ThrowsOther? && m.allowed(Parameters(m, req).value, outcome)
  }

  /** Request q has been, is being, or can be answered. */
  ghost predicate Answerable(v: S.Server, q: nat) {
    && q < |v.requests| && DecodeDelivery(v.requests[q]).Ok?
    && if q < |v.jobs| && S.HasCause(v.jobs[q]) then S.Owed(v.requests[q], v.jobs[q].why)
       else IsRefused(v.requests[q]) || CanAnswer(v, DecodeDelivery(v.requests[q]).value)
  }

  function ServerWork(v: S.Server, q: nat): nat {
    if |v.jobs| <= q then 5 + q - |v.jobs| else 4 - Stage(v.jobs[q])
  }

  ghost predicate IsAnswered(v: S.Server, q: nat) {
    q < |v.jobs| && v.jobs[q].Replied?
  }

  /** The step brings the answer to request q nearer. */
  ghost predicate Serves(v: S.Server, step: S.Step, q: nat) {
    && S.Enabled(v, step) && !step.Enqueue? && !step.Register? && !step.Unregister?
    && var w := S.Apply(v, step);
    && w.requests == v.requests && Answerable(w, q) && ServerWork(w, q) < ServerWork(v, q)
  }

  lemma {:induction false} CallAnswers(v: S.Server, q: nat) returns (outcome: Outcome)
    requires S.Inv(v) && q < |v.jobs| && v.jobs[q].Calling? && Answerable(v, q)
    ensures Serves(v, S.Call(q, outcome), q)
  {
    assert S.JobInv(v.requests[q], v.jobs[q]);
    var req := v.jobs[q].req;
    var m := v.rpc[req.meth].m;
    outcome :| !outcome.ThrowsOther? && m.allowed(Parameters(m, req).value, outcome);
  }

  lemma {:induction false} LookupServes(v: S.Server, q: nat)
    requires S.Inv(v) && q < |v.jobs| && Answerable(v, q)
    ensures v.jobs[q].Queued? ==> Serves(v, S.Start(q), q)
    ensures v.jobs[q].Looking? ==> Serves(v, S.Find(q), q)
  {
    assert S.JobInv(v.requests[q], v.jobs[q]);
  }

  lemma {:induction false} ReplyServes(v: S.Server, q: nat)
    requires S.Inv(v) && q < |v.jobs| && v.jobs[q].Ready? && Answerable(v, q)
    ensures Serves(v, S.SendReply(q), q)
  {
    assert S.JobInv(v.requests[q], v.jobs[q]);
    S.ReplyIsDue(v.requests[q], v.jobs[q].why, v.jobs[q].res);
  }

  lemma {:induction false} NeverAbandoned(v: S.Server, q: nat)
    requires S.Inv(v) && q < |v.jobs| && Answerable(v, q)
    ensures !v.jobs[q].Abandoned?
  {
    assert S.JobInv(v.requests[q], v.jobs[q]);
  }

  /** The next step of the worker of request q, or of the delivery of an earlier request. */
  lemma {:induction false} NextServerStep(v: S.Server, q: nat) returns (step: S.Step)
    requires S.Inv(v) && Answerable(v, q) && !IsAnswered(v, q)
    ensures Serves(v, step, q)
  {
    if |v.jobs| <= q {
      step := S.Deliver;
    } else if v.jobs[q].Queued? || v.jobs[q].Looking? {
      LookupServes(v, q);
      step := if v.jobs[q].Queued? then S.Start(q) else S.Find(q);
    } else if v.jobs[q].Calling? {
      var outcome := CallAnswers(v, q);
      step := S.Call(q, outcome);
    } else {
      NeverAbandoned(v, q);
      ReplyServes(v, q);
      step := S.SendReply(q);
    }
  }

  lemma {:induction false} ServerAnswers(cfg: C.Config, o: System, s: System, q: nat) returns (t: System)
    requires Goes(cfg, o, s) && Answerable(s.server, q)
    ensures Goes(cfg, o, t) && t.client == s.client && t.server.requests == s.server.requests && IsAnswered(t.server, q)
    decreases ServerWork(s.server, q)
  {
    if IsAnswered(s.server, q) {
      t := s;
    } else {
      ReachableHeard(cfg, s);
      var v := NextServerStep(s.server, q);
      t := Go(cfg, o, s, ServerStep(v));
      t := ServerAnswers(cfg, o, t, q);
    }
  }

  // ---------------------------------------------------------------- the broker and the event thread deliver

  /** Call i waits. */
  ghost predicate Waits(s: System, i: nat) {
    i < |s.client.calls| && s.client.calls[i].pc.Waiting?
  }

  ghost predicate IsNotified(s: System, i: nat)
    requires i < |s.client.calls|
  {
    var id := s.client.calls[i].id;
    id in s.client.slots && s.client.slots[id].notified
  }

  /** While a call waits nobody but the event thread holds a slot. */
  lemma {:induction false} EventCanStep(s: C.Client, i: nat)
    requires ClientTable.Inv(s) && i < |s.calls| && s.calls[i].pc.Waiting? && !s.ev.Idle?
    ensures C.EventEnabled(s)
  {
    if s.ev.Decoded? && s.ev.id in s.slots {
      var k :| 0 <= k < |s.calls| && s.calls[k].id == s.ev.id;
      assert CallInv(s.calls[i], SlotOf(s.slots, s.calls[i].id), s.tableOwner == Some(i), s.received);
      assert CallInv(s.calls[k], SlotOf(s.slots, s.calls[k].id), s.tableOwner == Some(k), s.received);
      Slots.OwnerKinds(s.slots[s.ev.id].owner);
    }
  }

  /** Reply p is for call i. */
  ghost predicate IsReplyFor(cfg: C.Config, s: System, p: nat, i: nat) {
    && p < |s.server.outbox| && i < |s.client.calls|
    && s.server.outbox[p].sent.key == cfg.callbackQueue && s.server.outbox[p].sent.corr == s.client.calls[i].id
  }

  lemma {:induction false} SettledIsNotified(s: C.Client, i: nat)
    requires ClientTable.Inv(s) && AllHeard(s) && i < |s.calls| && s.calls[i].pc.Waiting?
    requires s.ev.Idle? && Received(s.received, s.calls[i].id)
    ensures s.calls[i].id in s.slots && s.slots[s.calls[i].id].notified
  {
    var c := s.calls[i];
    assert CallInv(c, SlotOf(s.slots, c.id), s.tableOwner == Some(i), s.received);
    assert Heard(c, SlotOf(s.slots, c.id), s.ev, s.received);
  }

  lemma {:induction false} TakenIsReceived(cfg: C.Config, s: System, i: nat, p: nat)
    requires AllTaken(cfg, s) && ReceivedInv(cfg, s) && IsReplyFor(cfg, s, p, i) && p < s.pos
    ensures Received(s.client.received, s.client.calls[i].id)
  {
    assert TakenAs(s.client.received, p);
    var k :| 0 <= k < |s.client.received| && s.client.received[k].tag == p;
    assert s.client.received[k] == MessageAt(s.server, p);
  }

  /** When its reply was taken and the event thread is idle, a waiting call has been notified. */
  lemma {:induction false} TakenIsNotified(cfg: C.Config, s: System, i: nat, p: nat)
    requires Reachable(cfg, s) && Waits(s, i) && IsReplyFor(cfg, s, p, i) && p < s.pos && s.client.ev.Idle?
    ensures IsNotified(s, i)
  {
    ReachableHeard(cfg, s);
    TakenIsReceived(cfg, s, i, p);
    SettledIsNotified(s.client, i);
  }

  function BrokerWork(s: System): nat
    requires s.pos <= |s.server.outbox|
  {
    4 * (|s.server.outbox| - s.pos) + Progress.EventRank(s.client.ev)
  }

  /** The step brings the reply to a waiting call nearer. */
  ghost predicate Delivers(cfg: C.Config, s: System, step: Step) {
    && Quiet(step) && Enabled(cfg, s, step) && s.pos <= |s.server.outbox|
    && var t := Apply(cfg, s, step);
    && t.server == s.server && t.client.calls == s.client.calls
    && t.pos <= |t.server.outbox| && BrokerWork(t) < BrokerWork(s)
  }

  lemma {:induction false} BrokerDelivers(cfg: C.Config, s: System)
    requires s.pos < |s.server.outbox| && s.client.crash.None? && s.client.ev.Idle?
    ensures Delivers(cfg, s, if s.server.outbox[s.pos].sent.key == cfg.callbackQueue then ReceiveReply else ForeignReply)
  {}

  lemma {:induction false} EventDelivers(cfg: C.Config, s: System)
    requires Reachable(cfg, s) && !cfg.spurious && s.client.crash.None? && C.EventEnabled(s.client)
    requires s.pos <= |s.server.outbox|
    ensures Delivers(cfg, s, ClientStep(C.EventStep))
  {
    EventStepWorks(cfg, s);
  }

  lemma {:induction false} NextDelivery(cfg: C.Config, s: System, i: nat, p: nat) returns (step: Step)
    requires Reachable(cfg, s) && !cfg.spurious && Waits(s, i) && IsReplyFor(cfg, s, p, i) && !IsNotified(s, i)
    requires s.pos <= |s.server.outbox|
    ensures Delivers(cfg, s, step)
  {
    ClientSurvives(cfg, s);
    if s.client.ev.Idle? {
      if p < s.pos { TakenIsNotified(cfg, s, i, p); }
      step := if s.server.outbox[s.pos].sent.key == cfg.callbackQueue then ReceiveReply else ForeignReply;
      BrokerDelivers(cfg, s);
    } else {
      Projects(cfg, s);
      ClientTable.ReachableInv(cfg, s.client);
      EventCanStep(s.client, i);
      step := ClientStep(C.EventStep);
      EventDelivers(cfg, s);
    }
  }

  lemma {:induction false} EventStepWorks(cfg: C.Config, s: System)
    requires Reachable(cfg, s) && !cfg.spurious && s.client.crash.None? && C.EventEnabled(s.client)
    ensures
      var t := C.StepEvent(s.client);
      t.calls == s.client.calls && Progress.EventRank(t.ev) < Progress.EventRank(s.client.ev)
  {
    var t := Apply(cfg, s, ClientStep(C.EventStep));
    ReachableStep(cfg, s, ClientStep(C.EventStep));
    ClientSurvives(cfg, t);
  }

  lemma {:induction false} ReplyArrives(cfg: C.Config, o: System, s: System, i: nat, p: nat) returns (t: System)
    requires Goes(cfg, o, s) && !cfg.spurious && Waits(s, i) && IsReplyFor(cfg, s, p, i)
    requires s.pos <= |s.server.outbox|
    ensures Goes(cfg, o, t) && t.client.calls == s.client.calls && IsNotified(t, i)
    decreases BrokerWork(s)
  {
    if IsNotified(s, i) {
      t := s;
    } else {
      var step := NextDelivery(cfg, s, i, p);
      t := Go(cfg, o, s, step);
      t := ReplyArrives(cfg, o, t, i, p);
    }
  }

  // ---------------------------------------------------------------- the call ends

  /** The call has its result, or is about to take it. */
  predicate Ending(pc: C.CallPc) {
    HasResult(pc) || pc.Erasing? || pc.Deciding?
  }

  predicate HasEnded(pc: C.CallPc) {
    pc.Finished? && (pc.out.Returned? || pc.out.Threw?)
  }

  ghost predicate CanEnd(s: System, i: nat) {
    && i < |s.client.calls|
    && (Ending(s.client.calls[i].pc) || HasEnded(s.client.calls[i].pc))
    && !(s.client.ev.Setting? && s.client.ev.id == s.client.calls[i].id)
  }

  lemma {:induction false} EndingIsEnabled(s: C.Client, i: nat)
    requires ClientTable.Inv(s) && i < |s.calls| && Ending(s.calls[i].pc)
    requires !(s.ev.Setting? && s.ev.id == s.calls[i].id)
    ensures C.CallEnabled(s, i)
  {
    var c := s.calls[i];
    assert CallInv(c, SlotOf(s.slots, c.id), s.tableOwner == Some(i), s.received);
    if c.id in s.slots { Slots.OwnerKinds(s.slots[c.id].owner); }
  }

  /** What one step of an ending call does, as far as the client knows. */
  lemma {:induction false} EndingCallSteps(cfg: C.Config, s: C.Client, i: nat)
    requires C.CallEnabled(s, i) && Ending(s.calls[i].pc)
    ensures
      var t := C.StepCall(cfg, s, i);
      && |t.calls| == |s.calls| && t.ev == s.ev && t.calls[i].id == s.calls[i].id
      && Progress.Rank(t.calls[i].pc) < Progress.Rank(s.calls[i].pc)
      && (Ending(t.calls[i].pc) || HasEnded(t.calls[i].pc) || t.calls[i].pc == C.Finished(ParseFailed))
  {}

  lemma {:induction false} EndingStep(cfg: C.Config, s: System, i: nat)
    requires Reachable(cfg, s) && !cfg.spurious && CanEnd(s, i) && Ending(s.client.calls[i].pc)
    ensures Enabled(cfg, s, ClientStep(C.CallStep(i)))
    ensures
      var t := Apply(cfg, s, ClientStep(C.CallStep(i)));
      CanEnd(t, i) && Progress.Rank(t.client.calls[i].pc) < Progress.Rank(s.client.calls[i].pc)
  {
    ClientSurvives(cfg, s);
    Projects(cfg, s);
    ClientTable.ReachableInv(cfg, s.client);
    EndingIsEnabled(s.client, i);
    EndingCallSteps(cfg, s.client, i);
    ReachableStep(cfg, s, ClientStep(C.CallStep(i)));
    CallsEndProperly(cfg, Apply(cfg, s, ClientStep(C.CallStep(i))), i);
  }

  lemma {:induction false} CallEnds(cfg: C.Config, o: System, s: System, i: nat) returns (t: System)
    requires Goes(cfg, o, s) && !cfg.spurious && CanEnd(s, i)
    ensures Goes(cfg, o, t) && i < |t.client.calls| && HasEnded(t.client.calls[i].pc)
    decreases Progress.Rank(s.client.calls[i].pc)
  {
    if HasEnded(s.client.calls[i].pc) {
      t := s;
    } else {
      EndingStep(cfg, s, i);
      t := Go(cfg, o, s, ClientStep(C.CallStep(i)));
      t := CallEnds(cfg, o, t, i);
    }
  }

  /** A notified call can wake, and the event thread is done with its slot. */
  lemma {:induction false} NotifiedCanWake(cfg: C.Config, s: C.Client, i: nat)
    requires AllSafe(s) && i < |s.calls| && s.calls[i].pc.Waiting?
    requires s.calls[i].id in s.slots && s.slots[s.calls[i].id].notified
    ensures C.WakeEnabled(cfg, s, i, C.Notified) && !(s.ev.Setting? && s.ev.id == s.calls[i].id)
  {
    assert Safe(s.calls[i], SlotOf(s.slots, s.calls[i].id), s.ev, s.received);
  }

  lemma {:induction false} NotifiedWakes(cfg: C.Config, o: System, s: System, i: nat) returns (t: System)
    requires Goes(cfg, o, s) && !cfg.spurious && Waits(s, i) && IsNotified(s, i)
    ensures Goes(cfg, o, t) && CanEnd(t, i)
  {
    ClientSurvives(cfg, s);
    RpcSystem.OneReplyPerId(cfg, s);
    Projects(cfg, s);
    ReachableSafe(cfg, s.client);
    NotifiedCanWake(cfg, s.client, i);
    t := Go(cfg, o, s, ClientStep(C.WakeCall(i, C.Notified)));
  }

  /** No timeout is needed.  Without spurious wakeups, from every reachable state in which a call
      waits, holding the table lock, for the answer to a request that has been, is being, or can be
      answered: steps of the server, the broker and the event thread, the notification, and the
      call's own steps let it return or throw the server's message. */
  lemma {:induction false} NoTimeoutNeeded(cfg: C.Config, s: System, i: nat, q: nat) returns (t: System)
    requires Reachable(cfg, s) && !cfg.spurious && Waits(s, i)
    requires Answerable(s.server, q) && s.server.requests[q] == C.RequestOf(cfg, s.client.calls[i])
    ensures Leads(cfg, s, t) && Reachable(cfg, t)
    ensures i < |t.client.calls| && HasEnded(t.client.calls[i].pc)
  {
    StayPut(cfg, s);
    t := ServerAnswers(cfg, s, s, q);
    ReachableHeard(cfg, t);
    var p := AnswerIsPosted(cfg, t, q);
    t := ReplyArrives(cfg, s, t, i, p);
    t := NotifiedWakes(cfg, s, t, i);
    t := CallEnds(cfg, s, t, i);
  }

  lemma {:induction false} AnswerIsPosted(cfg: C.Config, s: System, q: nat) returns (p: nat)
    requires S.Inv(s.server) && IsAnswered(s.server, q)
    ensures p < |s.server.outbox| && q < |s.server.requests|
    ensures s.server.outbox[p].sent.key == s.server.requests[q].replyTo && s.server.outbox[p].sent.corr == s.server.requests[q].corr
  {
    var v := s.server;
    assert forall x | 0 <= x < |v.outbox| :: S.PostedInv(v, v.outbox[x]);
    S.RepliedIsPosted(v.jobs, v.outbox, q);
    p :| 0 <= p < |v.outbox| && v.outbox[p].job == q;
    S.PostedAnswers(v, p);
  }

  lemma {:induction false} OtherWaysToEnd(cfg: C.Config, s: C.Client, i: nat)
    requires C.Reachable(cfg, s) && i < |s.calls| && s.calls[i].id != "" && s.calls[i].pc.Finished?
    ensures HasEnded(s.calls[i].pc) || s.calls[i].pc.out.TimedOut? || s.calls[i].pc.out.ParseFailed?
  {
    ClientTable.ReachableInv(cfg, s);
    assert CallInv(s.calls[i], SlotOf(s.slots, s.calls[i].id), s.tableOwner == Some(i), s.received);
  }

  lemma {:induction false} EndedIsReplied(cfg: C.Config, s: System, i: nat, q: nat)
    requires Reachable(cfg, s) && i < |s.client.calls| && HasEnded(s.client.calls[i].pc)
    requires q < |s.server.requests| && s.server.requests[q] == C.RequestOf(cfg, s.client.calls[i])
    ensures IsAnswered(s.server, q)
  {
    RefinesLocalCall(cfg, s, i);
    var j: nat, m, outcome :| LocalCall(s.client.calls[i], m, outcome) && ServedBy(cfg, s, s.client.calls[i], j, m, outcome);
    assert q == j;
  }

  /** Otherwise only the timeout is left: once its request is abandoned, a call can end in no other way. */
  lemma {:induction false} AbandonedTimesOut(cfg: C.Config, s: System, i: nat, q: nat)
    requires Reachable(cfg, s) && !cfg.spurious && i < |s.client.calls| && s.client.calls[i].id != ""
    requires q < |s.server.jobs| <= |s.server.requests| && s.server.jobs[q].Abandoned?
    requires s.server.requests[q] == C.RequestOf(cfg, s.client.calls[i])
    ensures s.client.calls[i].pc.Finished? ==> s.client.calls[i].pc.out.TimedOut?
  {
    if s.client.calls[i].pc.Finished? {
      Projects(cfg, s);
      OtherWaysToEnd(cfg, s.client, i);
      CallsEndProperly(cfg, s, i);
      if HasEnded(s.client.calls[i].pc) { EndedIsReplied(cfg, s, i, q); }
    }
  }
}
