/** The broker between client and server: what one side puts on a queue is what the other side gets,
    in the same order, nothing lost and nothing added. */
module Queues {
  import opened Wrappers
  import opened Worker
  import opened ClientTable
  import opened RpcSystem
  import Channel
  import GateRuns
  import C = RpcClient
  import S = RpcServer

  // ---------------------------------------------------------------- requests

  /** The requests that want their reply on this client's queue. */
  function OwnRequests(cfg: C.Config, requests: seq<Envelope>): seq<Envelope> {
    if requests == [] then []
    else
      var last := requests[|requests| - 1];
      OwnRequests(cfg, requests[..|requests| - 1]) + if last.replyTo == cfg.callbackQueue then [last] else []
  }

  /** The requests that the client has published under the key of the server's queue. */
  function Routable(cfg: C.Config, log: seq<C.Command>): seq<Envelope> {
    if log == [] then []
    else
      var last := log[|log| - 1];
      Routable(cfg, log[..|log| - 1]) + if last.PublishRequest? && last.key == cfg.rpcQueue then [last.env] else []
  }

  lemma {:induction false} OwnRequestsAppend(cfg: C.Config, requests: seq<Envelope>, last: Envelope)
    ensures OwnRequests(cfg, requests + [last]) ==
      OwnRequests(cfg, requests) + if last.replyTo == cfg.callbackQueue then [last] else []
  {
    assert (requests + [last])[..|requests|] == requests;
  }

  lemma {:induction false} RoutableAppend(cfg: C.Config, log: seq<C.Command>, last: C.Command)
    ensures Routable(cfg, log + [last]) ==
      Routable(cfg, log) + if last.PublishRequest? && last.key == cfg.rpcQueue then [last.env] else []
  {
    assert (log + [last])[..|log|] == log;
  }

  /** A step of the client adds to the channel what it hands to the broker. */
  lemma {:induction false} RoutedIsLogged(cfg: C.Config, s: C.Client, c: C.Step)
    requires C.Enabled(cfg, s, c)
    ensures Routable(cfg, C.Apply(cfg, s, c).log) ==
      Routable(cfg, s.log) + if Routed(cfg, s, c).Some? then [Routed(cfg, s, c).value] else []
  {
    var t := C.Apply(cfg, s, c);
    GateRuns.LogStep(cfg, s, c, t);
    if c.CallStep? { Channel.RequestCommand(cfg, s, c, t, c.i); }
    if t.log != s.log {
      assert t.log == s.log + [t.log[|s.log|]];
      RoutableAppend(cfg, s.log, t.log[|s.log|]);
      Channel.RequestCommand(cfg, s, c, t, 0);
    }
  }

  ghost predicate RequestsAgree(cfg: C.Config, s: System) {
    OwnRequests(cfg, s.server.requests) == Routable(cfg, s.client.log)
  }

  lemma {:induction false} StepKeepsRequests(cfg: C.Config, s: System, step: Step)
    requires RequestsAgree(cfg, s) && Enabled(cfg, s, step)
    ensures RequestsAgree(cfg, Apply(cfg, s, step))
  {
    match step
    case ClientStep(c) =>
      RoutedIsLogged(cfg, s.client, c);
      if Routed(cfg, s.client, c).Some? { OwnRequestsAppend(cfg, s.server.requests, Routed(cfg, s.client, c).value); }
    case ServerStep(v) => ServerGrows(s.server, v);
    case ForeignRequest(env) => OwnRequestsAppend(cfg, s.server.requests, env);
    case _ =>
  }

  // ---------------------------------------------------------------- replies

  /** The first n replies of the server, as far as they go to this client's queue. */
  function Delivered(cfg: C.Config, outbox: seq<S.Posted>, n: nat): seq<C.Message>
    requires n <= |outbox|
  {
    if n == 0 then []
    else
      var sent := outbox[n - 1].sent;
      Delivered(cfg, outbox, n - 1) + if sent.key == cfg.callbackQueue then [C.Message(n - 1, sent.corr, sent.body)] else []
  }

  lemma {:induction false} DeliveredStays(cfg: C.Config, outbox: seq<S.Posted>, more: seq<S.Posted>, n: nat)
    requires n <= |outbox| && outbox <= more
    ensures Delivered(cfg, more, n) == Delivered(cfg, outbox, n)
  {
    if n > 0 { DeliveredStays(cfg, outbox, more, n - 1); }
  }

  ghost predicate RepliesAgree(cfg: C.Config, s: System) {
    s.pos <= |s.server.outbox| && s.client.received == Delivered(cfg, s.server.outbox, s.pos)
  }

  lemma {:induction false} StepKeepsReplies(cfg: C.Config, s: System, step: Step)
    requires RepliesAgree(cfg, s) && Enabled(cfg, s, step)
    ensures RepliesAgree(cfg, Apply(cfg, s, step))
  {
    match step
    case ClientStep(c) => ClientKeepsReceived(cfg, s.client, c);
    case ServerStep(v) =>
      ServerGrows(s.server, v);
      DeliveredStays(cfg, s.server.outbox, Apply(cfg, s, step).server.outbox, s.pos);
    case _ =>
  }

  // ---------------------------------------------------------------- every run

  lemma {:induction false} RunKeepsQueues(cfg: C.Config, run: seq<System>, n: nat, s: System)
    requires IsRun(cfg, run) && n < |run| && run[n] == s
    ensures RequestsAgree(cfg, s) && RepliesAgree(cfg, s)
  {
    if n > 0 {
      var p := run[n - 1];
      RunKeepsQueues(cfg, run, n - 1, p);
      assert Follows(cfg, run[n - 1], run[n]);
      var step :| Takes(cfg, p, step, s);
      StepKeepsRequests(cfg, p, step);
      StepKeepsReplies(cfg, p, step);
    }
  }

  /** Both queues, in every reachable state.  The requests at the server that belong to this client are
      the requests that the client has published to the server's queue, in the same order; the messages
      that the client has received are the replies to its queue among those that the broker has taken
      from the server, in the same order, with the same id and body. */
  lemma {:induction false} QueuesKeepOrder(cfg: C.Config, s: System)
    requires Reachable(cfg, s)
    ensures OwnRequests(cfg, s.server.requests) == Routable(cfg, s.client.log)
    ensures s.pos <= |s.server.outbox| && s.client.received == Delivered(cfg, s.server.outbox, s.pos)
  {
    var run :| IsRun(cfg, run) && run[|run| - 1] == s;
    RunKeepsQueues(cfg, run, |run| - 1, s);
  }

  // ---------------------------------------------------------------- the request of a call

  lemma {:induction false} OwnRequestsSubset(cfg: C.Config, requests: seq<Envelope>, env: Envelope)
    requires env in OwnRequests(cfg, requests)
    ensures env in requests
  {
    var n := |requests| - 1;
    if env in OwnRequests(cfg, requests[..n]) { OwnRequestsSubset(cfg, requests[..n], env); }
  }

  lemma {:induction false} RequestIsRoutable(cfg: C.Config, log: seq<C.Command>, id: string, env: Envelope)
    requires C.PublishRequest(cfg.rpcQueue, env) in Channel.RequestsFor(log, id)
    ensures env in Routable(cfg, log)
  {
    var n := |log| - 1;
    if C.PublishRequest(cfg.rpcQueue, env) in Channel.RequestsFor(log[..n], id) { RequestIsRoutable(cfg, log[..n], id, env); }
  }

  lemma {:induction false} RequestIsSent(cfg: C.Config, s: C.Client, i: nat)
    requires C.Reachable(cfg, s) && i < |s.calls| && s.calls[i].id != ""
    requires s.calls[i].key == cfg.rpcQueue && Published(s.calls[i].pc)
    ensures C.RequestOf(cfg, s.calls[i]) in Routable(cfg, s.log)
  {
    var run :| C.IsRun(cfg, run) && run[|run| - 1] == s;
    Channel.RequestSentOnce(cfg, run, |run| - 1, i);
    RequestIsRoutable(cfg, s.log, s.calls[i].id, C.RequestOf(cfg, s.calls[i]));
  }

  lemma {:induction false} RequestsDiffer(cfg: C.Config, s: System, p: nat, q: nat)
    requires Reachable(cfg, s) && p < |s.server.requests| && q < |s.server.requests|
    requires s.server.requests[p] == s.server.requests[q] && s.server.requests[q].replyTo == cfg.callbackQueue
    ensures p == q
  {
    ReachableLink(cfg, s);
  }

  /** A call to the server's queue that has published has its own request at the server, once. */
  lemma {:induction false} RequestArrives(cfg: C.Config, s: System, i: nat) returns (q: nat)
    requires Reachable(cfg, s) && i < |s.client.calls| && s.client.calls[i].id != ""
    requires s.client.calls[i].key == cfg.rpcQueue && Published(s.client.calls[i].pc)
    ensures q < |s.server.requests| && s.server.requests[q] == C.RequestOf(cfg, s.client.calls[i])
    ensures forall p | 0 <= p < |s.server.requests| && s.server.requests[p] == s.server.requests[q] :: p == q
  {
    var env := C.RequestOf(cfg, s.client.calls[i]);
    Projects(cfg, s);
    RequestIsSent(cfg, s.client, i);
    QueuesKeepOrder(cfg, s);
    OwnRequestsSubset(cfg, s.server.requests, env);
    q :| 0 <= q < |s.server.requests| && s.server.requests[q] == env;
    forall p | 0 <= p < |s.server.requests| && s.server.requests[p] == env ensures p == q {
      RequestsDiffer(cfg, s, p, q);
    }
  }
}
