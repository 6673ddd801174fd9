/** Client, broker queues and server together: a remote call refines a local one.

    The broker keeps the order of each queue (section 4.7 of AMQP 0-9-1) and does not redeliver.  A
    published request whose routing key is the server's queue is appended to the server's requests;
    other keys are unroutable here.  Other clients are represented by foreign requests, with any
    body, any correlation header, and a reply-to that is not this client's callback queue. */
module RpcSystem {
  import opened Wrappers
  import opened Json
  import opened Values
  import opened RpcUtils
  import opened Recovery
  import opened Worker
  import opened ClientTable
  import SlotSafety
  import C = RpcClient
  import S = RpcServer

  /** `pos` counts the replies that the broker has taken from the server's outbox. */
  datatype System = System(client: C.Client, server: S.Server, pos: nat)

  datatype Step =
    | ClientStep(c: C.Step)
    | ServerStep(v: S.Step)
    | ReceiveReply
    | ForeignReply
    | ForeignRequest(env: Envelope)

  ghost const INIT := System(C.INIT, S.INIT, 0)

  /** The request that this client step hands to the broker for the server's queue, if any. */
  ghost function Routed(cfg: C.Config, s: C.Client, step: C.Step): Option<Envelope>
    requires C.Enabled(cfg, s, step)
  {
    match step
    case CallStep(i) =>
      if s.calls[i].pc.Sending? && s.calls[i].key == cfg.rpcQueue then Some(C.RequestOf(cfg, s.calls[i])) else None
    case _ => None
  }

  ghost function Enqueued(server: S.Server, env: Option<Envelope>): (r: S.Server)
    ensures r == server.(requests := if env.None? then server.requests else server.requests + [env.value])
  {
    if env.None? then server else S.Apply(server, S.Enqueue(env.value))
  }

  ghost predicate Enabled(cfg: C.Config, s: System, step: Step) {
    match step
    case ClientStep(c) => !c.Receive? && C.Enabled(cfg, s.client, c)
    case ServerStep(v) => !v.Enqueue? && S.Enabled(s.server, v)
    case ReceiveReply =>
      && s.pos < |s.server.outbox| && s.server.outbox[s.pos].sent.key == cfg.callbackQueue
      && s.client.crash.None? && s.client.ev.Idle?
    case ForeignReply => s.pos < |s.server.outbox| && s.server.outbox[s.pos].sent.key != cfg.callbackQueue
    case ForeignRequest(env) => env.replyTo != cfg.callbackQueue
  }

  function MessageAt(server: S.Server, pos: nat): C.Message
    requires pos < |server.outbox|
  {
    C.Message(pos, server.outbox[pos].sent.corr, server.outbox[pos].sent.body)
  }

  ghost function Apply(cfg: C.Config, s: System, step: Step): System
    requires Enabled(cfg, s, step)
  {
    match step
    case ClientStep(c) =>
      System(C.Apply(cfg, s.client, c), Enqueued(s.server, Routed(cfg, s.client, c)), s.pos)
    case ServerStep(v) => s.(server := S.Apply(s.server, v))
    case ReceiveReply =>
      s.(client := C.Apply(cfg, s.client, C.Receive(MessageAt(s.server, s.pos))), pos := s.pos + 1)
    case ForeignReply => s.(pos := s.pos + 1)
    case ForeignRequest(env) => s.(server := S.Apply(s.server, S.Enqueue(env)))
  }

  ghost predicate Takes(cfg: C.Config, s: System, step: Step, t: System) {
    Enabled(cfg, s, step) && t == Apply(cfg, s, step)
  }

  ghost predicate Follows(cfg: C.Config, s: System, t: System) {
    exists step :: Takes(cfg, s, step, t)
  }

  ghost predicate IsRun(cfg: C.Config, run: seq<System>) {
    && run != []
    && run[0] == INIT
    && forall m, n {:trigger Follows(cfg, run[m], run[n])} | 0 <= m && m + 1 == n < |run| :: Follows(cfg, run[m], run[n])
  }

  ghost predicate Reachable(cfg: C.Config, s: System) {
    exists run :: IsRun(cfg, run) && run[|run| - 1] == s
  }

  // ---------------------------------------------------------------- the invariant

  /** The request of a call of this client that has published it. */
  ghost predicate IsOwn(cfg: C.Config, calls: seq<C.Call>, env: Envelope) {
    exists i :: 0 <= i < |calls| && calls[i].id != "" && Published(calls[i].pc) && env == C.RequestOf(cfg, calls[i])
  }

  ghost predicate RequestsInv(cfg: C.Config, calls: seq<C.Call>, requests: seq<Envelope>) {
    && (forall q | 0 <= q < |requests| && requests[q].replyTo == cfg.callbackQueue :: IsOwn(cfg, calls, requests[q]))
    && (forall p, q | 0 <= p < q < |requests| && requests[p].replyTo == requests[q].replyTo == cfg.callbackQueue ::
          requests[p].corr != requests[q].corr)
  }

  ghost predicate ReceivedInv(cfg: C.Config, s: System) {
    && s.pos <= |s.server.outbox|
    && (forall k | 0 <= k < |s.client.received| ::
          && s.client.received[k].tag < s.pos
          && s.client.received[k] == MessageAt(s.server, s.client.received[k].tag)
          && s.server.outbox[s.client.received[k].tag].sent.key == cfg.callbackQueue)
    && (forall k, l | 0 <= k < l < |s.client.received| :: s.client.received[k].tag < s.client.received[l].tag)
  }

  /** What ties the two sides together. */
  ghost predicate LinkInv(cfg: C.Config, s: System) {
    && RequestsInv(cfg, s.client.calls, s.server.requests)
    && ReceivedInv(cfg, s)
    && s.client.crash != Some(C.BadReply)
  }

  /** Calls only move forward, and keep what they are. */
  ghost predicate CallsGrow(calls: seq<C.Call>, more: seq<C.Call>) {
    && |calls| <= |more|
    && forall i | 0 <= i < |calls| ::
         && more[i].id == calls[i].id && more[i].meth == calls[i].meth && more[i].args == calls[i].args
         && (Published(calls[i].pc) ==> Published(more[i].pc))
  }

  lemma {:induction false} CallStepGrows(cfg: C.Config, s: C.Client, i: nat)
    requires C.CallEnabled(s, i)
    ensures CallsGrow(s.calls, C.StepCall(cfg, s, i).calls)
  {}

  lemma {:induction false} ClientCallsGrow(cfg: C.Config, s: C.Client, step: C.Step)
    requires C.Enabled(cfg, s, step)
    ensures CallsGrow(s.calls, C.Apply(cfg, s, step).calls)
  {
    match step
    case CallStep(i) => CallStepGrows(cfg, s, i);
    case _ =>
  }

  lemma {:induction false} OwnStaysOwn(cfg: C.Config, calls: seq<C.Call>, more: seq<C.Call>, env: Envelope)
    requires IsOwn(cfg, calls, env) && CallsGrow(calls, more)
    ensures IsOwn(cfg, more, env)
  {}

  lemma {:induction false} GrowKeepsRequests(cfg: C.Config, calls: seq<C.Call>, more: seq<C.Call>, requests: seq<Envelope>)
    requires RequestsInv(cfg, calls, requests) && CallsGrow(calls, more)
    ensures RequestsInv(cfg, more, requests)
  {
    forall q | 0 <= q < |requests| && requests[q].replyTo == cfg.callbackQueue
      ensures IsOwn(cfg, more, requests[q])
    {
      OwnStaysOwn(cfg, calls, more, requests[q]);
    }
  }

  /** Publishing call i: its id is not on any earlier request of this client. */
  lemma {:induction false} PublishKeepsRequests(cfg: C.Config, s: C.Client, i: nat, requests: seq<Envelope>)
    requires ClientTable.Inv(s) && RequestsInv(cfg, s.calls, requests)
    requires C.CallEnabled(s, i) && s.calls[i].pc.Sending?
    ensures RequestsInv(cfg, C.StepCall(cfg, s, i).calls, requests + [C.RequestOf(cfg, s.calls[i])])
  {
    var env := C.RequestOf(cfg, s.calls[i]);
    assert CallInv(s.calls[i], SlotOf(s.slots, s.calls[i].id), s.tableOwner == Some(i), s.received);
    forall q | 0 <= q < |requests| && requests[q].replyTo == cfg.callbackQueue
      ensures requests[q].corr != env.corr
    {
      IdNotPublished(cfg, s, i, requests[q]);
    }
    AppendKeepsRequests(cfg, s.calls, C.StepCall(cfg, s, i).calls, i, requests);
  }

  lemma {:induction false} IdNotPublished(cfg: C.Config, s: C.Client, i: nat, env: Envelope)
    requires CallsInv(s) && i < |s.calls| && !Published(s.calls[i].pc) && IsOwn(cfg, s.calls, env)
    ensures env.corr != s.calls[i].id
  {}

  lemma {:induction false} AppendKeepsRequests(
    cfg: C.Config, calls: seq<C.Call>, more: seq<C.Call>, i: nat, requests: seq<Envelope>)
    requires RequestsInv(cfg, calls, requests) && CallsGrow(calls, more)
    requires i < |calls| && calls[i].id != "" && Published(more[i].pc)
    requires forall q | 0 <= q < |requests| && requests[q].replyTo == cfg.callbackQueue :: requests[q].corr != calls[i].id
    ensures RequestsInv(cfg, more, requests + [C.RequestOf(cfg, calls[i])])
  {}

  lemma {:induction false} ForeignKeepsRequests(cfg: C.Config, calls: seq<C.Call>, requests: seq<Envelope>, env: Envelope)
    requires RequestsInv(cfg, calls, requests) && env.replyTo != cfg.callbackQueue
    ensures RequestsInv(cfg, calls, requests + [env])
  {}

  /** Given the invariants of client and server, a received message always decodes. */
  lemma {:induction false} ReceivedDecodes(cfg: C.Config, s: System, k: nat)
    requires S.Inv(s.server) && ReceivedInv(cfg, s) && k < |s.client.received|
    ensures DecodeRep(s.client.received[k].body, "").Ok?
  {}

  /** The event thread never meets a reply that it cannot decode. */
  lemma {:induction false} EventStepDecodes(s: C.Client)
    requires C.EventEnabled(s) && EventInv(s.ev, s.received) && s.crash != Some(C.BadReply)
    requires s.received != [] ==> DecodeRep(s.received[|s.received| - 1].body, "").Ok?
    ensures C.StepEvent(s).crash != Some(C.BadReply)
  {}

  lemma {:induction false} ClientStepKeepsCrash(cfg: C.Config, s: C.Client, c: C.Step)
    requires ClientTable.Inv(s) && C.Enabled(cfg, s, c)
    requires s.received != [] ==> DecodeRep(s.received[|s.received| - 1].body, "").Ok?
    ensures C.Apply(cfg, s, c).crash != Some(C.BadReply)
  {
    match c
    case EventStep => EventStepDecodes(s);
    case CallStep(i) => ClientTable.CallStepKeepsInv(cfg, s, i);
    case _ =>
  }

  lemma {:induction false} ClientStepKeepsRequests(cfg: C.Config, s: C.Client, c: C.Step, requests: seq<Envelope>)
    requires ClientTable.Inv(s) && RequestsInv(cfg, s.calls, requests) && C.Enabled(cfg, s, c)
    ensures
      var env := Routed(cfg, s, c);
      RequestsInv(cfg, C.Apply(cfg, s, c).calls, if env.None? then requests else requests + [env.value])
  {
    if Routed(cfg, s, c).Some? {
      PublishKeepsRequests(cfg, s, c.i, requests);
    } else {
      ClientCallsGrow(cfg, s, c);
      GrowKeepsRequests(cfg, s.calls, C.Apply(cfg, s, c).calls, requests);
    }
  }

  /** The link survives when nothing was received and nothing was published by the server. */
  lemma {:induction false} LinkStays(cfg: C.Config, s: System, client: C.Client, server: S.Server)
    requires LinkInv(cfg, s) && RequestsInv(cfg, client.calls, server.requests)
    requires client.received == s.client.received && client.crash != Some(C.BadReply)
    requires server.outbox == s.server.outbox
    ensures LinkInv(cfg, System(client, server, s.pos))
  {}

  /** What a step of the client leaves of its messages and of the process. */
  lemma {:induction false} ClientStepIsHarmless(cfg: C.Config, s: System, c: C.Step)
    requires ClientTable.Inv(s.client) && S.Inv(s.server) && ReceivedInv(cfg, s) && C.Enabled(cfg, s.client, c) && !c.Receive?
    ensures
      var client := C.Apply(cfg, s.client, c);
      client.received == s.client.received && client.crash != Some(C.BadReply)
  {
    ClientKeepsReceived(cfg, s.client, c);
    LastDecodes(cfg, s);
    ClientStepKeepsCrash(cfg, s.client, c);
  }

  lemma {:induction false} ClientStepKeepsLink(cfg: C.Config, s: System, c: C.Step)
    requires ClientTable.Inv(s.client) && S.Inv(s.server) && LinkInv(cfg, s) && Enabled(cfg, s, ClientStep(c))
    ensures LinkInv(cfg, Apply(cfg, s, ClientStep(c)))
  {
    var client := C.Apply(cfg, s.client, c);
    var server := Enqueued(s.server, Routed(cfg, s.client, c));
    ClientStepKeepsRequests(cfg, s.client, c, s.server.requests);
    ClientStepIsHarmless(cfg, s, c);
    LinkStays(cfg, s, client, server);
  }

  lemma {:induction false} LastDecodes(cfg: C.Config, s: System)
    requires S.Inv(s.server) && ReceivedInv(cfg, s)
    ensures s.client.received != [] ==> DecodeRep(s.client.received[|s.client.received| - 1].body, "").Ok?
  {
    if s.client.received != [] { ReceivedDecodes(cfg, s, |s.client.received| - 1); }
  }

  lemma {:induction false} ClientKeepsReceived(cfg: C.Config, s: C.Client, c: C.Step)
    requires C.Enabled(cfg, s, c) && !c.Receive?
    ensures C.Apply(cfg, s, c).received == s.received
  {}

  /** Server steps keep the requests, and only append to the outbox. */
  lemma {:induction false} ServerGrows(s: S.Server, v: S.Step)
    requires S.Enabled(s, v) && !v.Enqueue?
    ensures var t := S.Apply(s, v); t.requests == s.requests && s.outbox <= t.outbox
  {}

  lemma {:induction false} ServerStepKeepsLink(cfg: C.Config, s: System, v: S.Step)
    requires LinkInv(cfg, s) && Enabled(cfg, s, ServerStep(v))
    ensures LinkInv(cfg, Apply(cfg, s, ServerStep(v)))
  {
    ServerGrows(s.server, v);
  }

  lemma {:induction false} ReceiveKeepsReceived(cfg: C.Config, s: System, client: C.Client)
    requires ReceivedInv(cfg, s) && s.pos < |s.server.outbox| && s.server.outbox[s.pos].sent.key == cfg.callbackQueue
    requires client.received == s.client.received + [MessageAt(s.server, s.pos)]
    ensures ReceivedInv(cfg, System(client, s.server, s.pos + 1))
  {}

  lemma {:induction false} ReplyKeepsLink(cfg: C.Config, s: System, step: Step)
    requires LinkInv(cfg, s) && Enabled(cfg, s, step) && (step.ReceiveReply? || step.ForeignReply?)
    ensures LinkInv(cfg, Apply(cfg, s, step))
  {
    if step.ReceiveReply? { ReceiveKeepsReceived(cfg, s, Apply(cfg, s, step).client); }
  }

  lemma {:induction false} ForeignKeepsLink(cfg: C.Config, s: System, env: Envelope)
    requires LinkInv(cfg, s) && env.replyTo != cfg.callbackQueue
    ensures LinkInv(cfg, Apply(cfg, s, ForeignRequest(env)))
  {
    ForeignKeepsRequests(cfg, s.client.calls, s.server.requests, env);
  }

  lemma {:induction false} StepKeepsLink(cfg: C.Config, s: System, step: Step)
    requires ClientTable.Inv(s.client) && S.Inv(s.server) && LinkInv(cfg, s) && Enabled(cfg, s, step)
    ensures LinkInv(cfg, Apply(cfg, s, step))
  {
    match step
    case ClientStep(c) => ClientStepKeepsLink(cfg, s, c);
    case ServerStep(v) => ServerStepKeepsLink(cfg, s, v);
    case ReceiveReply => ReplyKeepsLink(cfg, s, step);
    case ForeignReply => ReplyKeepsLink(cfg, s, step);
    case ForeignRequest(env) => ForeignKeepsLink(cfg, s, env);
  }

  lemma {:induction false} FollowsKeepsLink(cfg: C.Config, s: System, t: System)
    requires ClientTable.Inv(s.client) && S.Inv(s.server) && LinkInv(cfg, s) && Follows(cfg, s, t)
    ensures LinkInv(cfg, t)
  {
    var step :| Takes(cfg, s, step, t);
    StepKeepsLink(cfg, s, step);
  }

  // ---------------------------------------------------------------- projections

  lemma {:induction false} StepProjects(cfg: C.Config, s: System, step: Step)
    requires Enabled(cfg, s, step) && C.Reachable(cfg, s.client) && S.Reachable(s.server)
    ensures var t := Apply(cfg, s, step); C.Reachable(cfg, t.client) && S.Reachable(t.server)
  {
    match step
    case ClientStep(c) =>
      C.ReachableStep(cfg, s.client, c);
      if Routed(cfg, s.client, c).Some? {
        S.ReachableStep(s.server, S.Enqueue(Routed(cfg, s.client, c).value));
      }
    case ServerStep(v) => S.ReachableStep(s.server, v);
    case ReceiveReply => C.ReachableStep(cfg, s.client, C.Receive(MessageAt(s.server, s.pos)));
    case ForeignReply =>
    case ForeignRequest(env) => S.ReachableStep(s.server, S.Enqueue(env));
  }

  lemma {:induction false} FollowsProjects(cfg: C.Config, s: System, t: System)
    requires Follows(cfg, s, t) && C.Reachable(cfg, s.client) && S.Reachable(s.server)
    ensures C.Reachable(cfg, t.client) && S.Reachable(t.server)
  {
    var step :| Takes(cfg, s, step, t);
    StepProjects(cfg, s, step);
  }

  lemma {:induction false} RunProjects(cfg: C.Config, run: seq<System>, n: nat, s: System)
    requires IsRun(cfg, run) && n < |run| && run[n] == s
    ensures C.Reachable(cfg, s.client) && S.Reachable(s.server)
  {
    if n == 0 {
      C.ReachableInit(cfg);
      S.ReachableInit();
    } else {
      RunProjects(cfg, run, n - 1, run[n - 1]);
      assert Follows(cfg, run[n - 1], run[n]);
      FollowsProjects(cfg, run[n - 1], s);
    }
  }

  /** Whatever is shown of the client and of the server alone holds of them together. */
  lemma {:induction false} Projects(cfg: C.Config, s: System)
    requires Reachable(cfg, s)
    ensures C.Reachable(cfg, s.client) && S.Reachable(s.server)
  {
    var run :| IsRun(cfg, run) && run[|run| - 1] == s;
    RunProjects(cfg, run, |run| - 1, s);
  }

  lemma {:induction false} RunKeepsLink(cfg: C.Config, run: seq<System>, n: nat, s: System)
    requires IsRun(cfg, run) && n < |run| && run[n] == s
    ensures LinkInv(cfg, s)
  {
    if n > 0 {
      var p := run[n - 1];
      RunKeepsLink(cfg, run, n - 1, p);
      assert Follows(cfg, run[n - 1], run[n]);
      RunProjects(cfg, run, n - 1, p);
      ClientTable.ReachableInv(cfg, p.client);
      S.ReachableInv(p.server);
      FollowsKeepsLink(cfg, p, s);
    }
  }

  lemma {:induction false} ReachableLink(cfg: C.Config, s: System)
    requires Reachable(cfg, s)
    ensures LinkInv(cfg, s)
  {
    var run :| IsRun(cfg, run) && run[|run| - 1] == s;
    RunKeepsLink(cfg, run, |run| - 1, s);
  }

  // ---------------------------------------------------------------- the slot-safety assumptions hold

  /** The server answers each request of this client at most once, so at most one reply per id is
      received: the assumption of the slot-safety result is met by every run of the system. */
  lemma {:induction false} OneReplyPerId(cfg: C.Config, s: System)
    requires Reachable(cfg, s)
    ensures SlotSafety.OneReplyPerId(s.client.received)
  {
    Projects(cfg, s);
    S.ReachableInv(s.server);
    ReachableLink(cfg, s);
    TagsSeparateReplies(cfg, s);
  }

  lemma {:induction false} TagsSeparateReplies(cfg: C.Config, s: System)
    requires S.Inv(s.server) && RequestsInv(cfg, s.client.calls, s.server.requests) && ReceivedInv(cfg, s)
    ensures SlotSafety.OneReplyPerId(s.client.received)
  {}

  lemma {:induction false} CrashKinds(crash: Option<C.Crash>)
    ensures crash.None? || crash == Some(C.NullSlot) || crash == Some(C.BadReply)
  {
    match crash
    case None =>
    case Some(how) => assert how.NullSlot? || how.BadReply?;
  }

  /** Without spurious wakeups the client never dies: neither a missing slot nor a reply that does
      not decode is ever met. */
  lemma {:induction false} ClientSurvives(cfg: C.Config, s: System)
    requires Reachable(cfg, s) && !cfg.spurious
    ensures s.client.crash.None?
  {
    Projects(cfg, s);
    OneReplyPerId(cfg, s);
    ReachableLink(cfg, s);
    SlotSafety.SlotSafe(cfg, s.client);
    CrashKinds(s.client.crash);
  }

  /** Without spurious wakeups a finished call has returned, thrown the server's message, timed out,
      or had an empty method name. */
  lemma {:induction false} CallsEndProperly(cfg: C.Config, s: System, i: nat)
    requires Reachable(cfg, s) && !cfg.spurious && i < |s.client.calls|
    ensures s.client.calls[i].pc != C.Finished(ParseFailed)
  {
    Projects(cfg, s);
    OneReplyPerId(cfg, s);
    SlotSafety.NoParseFailure(cfg, s.client, i);
  }

  // ---------------------------------------------------------------- headers and bodies

  /** Header/body agreement, in every reachable state: every request of this client and every reply
      carries the right type tag and, in its body, the id of its header, so neither decoder's
      asserts can fail on it. */
  lemma {:induction false} HeadersAgree(cfg: C.Config, s: System)
    requires Reachable(cfg, s)
    ensures forall q | 0 <= q < |s.server.requests| && s.server.requests[q].replyTo == cfg.callbackQueue ::
              RequestAgrees(s.server.requests[q])
    ensures forall p | 0 <= p < |s.server.outbox| :: ReplyAgrees(s.server.outbox[p].sent)
  {
    Projects(cfg, s);
    S.ReachableInv(s.server);
    ReachableLink(cfg, s);
    forall q | 0 <= q < |s.server.requests| && s.server.requests[q].replyTo == cfg.callbackQueue
      ensures RequestAgrees(s.server.requests[q])
    {
      OwnRequestAgrees(cfg, s.client.calls, s.server.requests[q]);
    }
    forall p | 0 <= p < |s.server.outbox| ensures ReplyAgrees(s.server.outbox[p].sent) {
      PostedAgrees(s.server, p);
    }
  }

  ghost predicate RequestAgrees(env: Envelope) {
    && env.corr != "" && env.body.Dump? && env.body.json.JArr? && |env.body.json.items| == 5
    && Element(env.body.json, 0) == Ok(JInt(0)) && Element(env.body.json, 1) == Ok(JString(env.corr))
    && DecodeDelivery(env).Ok? && DecodeDelivery(env).value.id == env.corr
  }

  ghost predicate ReplyAgrees(sent: Sent) {
    && sent.body.Dump? && sent.body.json.JArr? && |sent.body.json.items| == 4
    && Element(sent.body.json, 0) == Ok(JInt(1)) && Element(sent.body.json, 1) == Ok(JString(sent.corr))
    && DecodeRep(sent.body, sent.corr).Ok?
  }

  lemma {:induction false} PostedAgrees(s: S.Server, p: nat)
    requires S.Inv(s) && p < |s.outbox|
    ensures ReplyAgrees(s.outbox[p].sent)
  {}

  lemma {:induction false} OwnRequestAgrees(cfg: C.Config, calls: seq<C.Call>, env: Envelope)
    requires IsOwn(cfg, calls, env)
    ensures RequestAgrees(env)
  {}

  // ---------------------------------------------------------------- a remote call is a local call

  /** The parameters with which a method is called for these arguments. */
  function SeenBy(m: Method, args: seq<Value>): Result<seq<Value>> {
    RecoverAll(DecodeAll(ToJsonAll(args)), m.params)
  }

  /** Calling `m` locally with what `m` sees of the call's arguments may end in `outcome`, and the
      remote call ends in the same way. */
  ghost predicate LocalCall(c: C.Call, m: Method, outcome: Outcome) {
    && m.name == c.meth
    && SeenBy(m, c.args).Ok? && m.allowed(SeenBy(m, c.args).value, outcome)
    && !outcome.ThrowsOther?
    && c.pc == C.Finished(Conclude(LocalReply(outcome)))
  }

  /** Job j served exactly this call, by calling the registered function `m` with this outcome. */
  ghost predicate ServedBy(cfg: C.Config, s: System, c: C.Call, j: nat, m: Method, outcome: Outcome) {
    && j < |s.server.jobs| <= |s.server.requests|
    && s.server.requests[j] == C.RequestOf(cfg, c)
    && s.server.jobs[j] == S.Replied(S.Called(Bound(m), outcome))
    && m in s.server.registered
    && (forall q | 0 <= q < |s.server.requests| && s.server.requests[q].replyTo == cfg.callbackQueue && s.server.requests[q].corr == c.id :: q == j)
  }

  /** The request behind a reply that call i received. */
  lemma {:induction false} ReplyComesFromOwnJob(cfg: C.Config, s: System, i: nat, k: nat) returns (j: nat)
    requires CallsInv(s.client) && S.Inv(s.server) && LinkInv(cfg, s)
    requires i < |s.client.calls| && k < |s.client.received|
    requires s.client.calls[i].id != "" && s.client.received[k].corr == s.client.calls[i].id
    ensures j < |s.server.jobs| && s.server.jobs[j].Replied?
    ensures s.server.requests[j] == C.RequestOf(cfg, s.client.calls[i])
    ensures S.Accounts(s.server.requests[j], s.server.jobs[j].why) && S.Owed(s.server.requests[j], s.server.jobs[j].why)
    ensures DecodeRep(s.client.received[k].body, "") == Ok(S.Answer(s.server.requests[j], s.server.jobs[j].why))
  {
    var p := s.client.received[k].tag;
    S.PostedAnswers(s.server, p);
    j := s.server.outbox[p].job;
    assert S.JobInv(s.server.requests[j], s.server.jobs[j]);
    OwnById(cfg, s.client, i, s.server.requests[j]);
  }

  /** Ids identify calls. */
  lemma {:induction false} OwnById(cfg: C.Config, s: C.Client, i: nat, env: Envelope)
    requires CallsInv(s) && i < |s.calls| && IsOwn(cfg, s.calls, env) && env.corr == s.calls[i].id
    ensures env == C.RequestOf(cfg, s.calls[i])
  {
    var x :| 0 <= x < |s.calls| && s.calls[x].id != "" && Published(s.calls[x].pc) && env == C.RequestOf(cfg, s.calls[x]);
    assert forall k | 0 <= k < |s.calls| && s.calls[k].id == s.calls[i].id :: k == i;
  }

  /** An own request carries no keyword arguments, so its reply is the answer of its method. */
  lemma {:induction false} OwnAnswerIsLocal(cfg: C.Config, c: C.Call, why: S.Cause)
    requires S.Accounts(C.RequestOf(cfg, c), why) && S.Owed(C.RequestOf(cfg, c), why)
    ensures why.Called? && why.entry.Bound? && !why.outcome.ThrowsOther?
    ensures why.entry.m.name == c.meth && SeenBy(why.entry.m, c.args).Ok?
    ensures why.entry.m.allowed(SeenBy(why.entry.m, c.args).value, why.outcome)
    ensures S.Answer(C.RequestOf(cfg, c), why) == LocalReply(why.outcome)
  {
    RequestRoundTrip(c.id, c.meth, c.args, c.id);
  }

  /** RPC refines a local call.  Over every run, with any number of callers and foreign clients, any
      interleaving, any completion order of the workers, changes of registration in between, and
      also with spurious wakeups: a call that returns or throws was served by exactly one job, the
      job of its own request, and ends exactly as a local call of a function that was registered
      under its method name could end on its own arguments. */
  lemma {:induction false} RefinesLocalCall(cfg: C.Config, s: System, i: nat)
    requires Reachable(cfg, s) && i < |s.client.calls|
    requires s.client.calls[i].pc.Finished?
    requires s.client.calls[i].pc.out.Returned? || s.client.calls[i].pc.out.Threw?
    ensures exists j: nat, m, outcome ::
      LocalCall(s.client.calls[i], m, outcome) && ServedBy(cfg, s, s.client.calls[i], j, m, outcome)
  {
    var c := s.client.calls[i];
    Projects(cfg, s);
    ClientTable.ReachableInv(cfg, s.client);
    S.ReachableInv(s.server);
    ReachableLink(cfg, s);
    CallUsesOwnReply(cfg, s.client, i);
    assert CallInv(c, SlotOf(s.client.slots, c.id), s.client.tableOwner == Some(i), s.client.received);
    var k :| 0 <= k < |s.client.received| && s.client.received[k].corr == c.id
      && DecodeRep(s.client.received[k].body, "").Ok?
      && c.pc.out == Conclude(DecodeRep(s.client.received[k].body, "").value);
    var j := ReplyComesFromOwnJob(cfg, s, i, k);
    var why := s.server.jobs[j].why;
    OwnAnswerIsLocal(cfg, c, why);
    S.OnlyRegisteredAreCalled(s.server, j);
    assert LocalCall(c, why.entry.m, why.outcome);
    assert ServedBy(cfg, s, c, j, why.entry.m, why.outcome);
  }

  /** What a method sees: at matching parameter types, exactly the caller's own flat arguments. */
  lemma {:induction false} SeesOwnArguments(m: Method, args: seq<Value>)
    requires forall a | a in args :: WellTyped(a) && Serializable(TypeOf(a))
    requires m.params == TypesOf(args)
    ensures SeenBy(m, args) == Ok(args) <==> forall a | a in args :: Flat(a)
  {
    CallRoundTrip("", "", args);
    RequestRoundTrip("", "", args, "");
  }

  /** How a finished call reads the outcome of the method that served it. */
  lemma {:induction false} OutcomeSeen(c: C.Call, m: Method, outcome: Outcome, what: string)
    requires LocalCall(c, m, outcome)
    ensures outcome.Returns? ==> c.pc.out == Returned(ToJson(outcome.v))
    ensures outcome.ReturnsVoid? ==> c.pc.out == Returned(JInt(0))
    ensures outcome == ThrowsRuntime("") ==> c.pc.out == Returned(JNull)
    ensures c.pc.out == Threw(what) <==> what != "" && outcome == ThrowsRuntime(what)
  {}
}
