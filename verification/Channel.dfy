/** What the client sends, over whole runs: each publish call sends its own event once, each remote call
    sends its own request once, and a call ends in the way its run says. */
module Channel {
  import opened Wrappers
  import opened Json
  import opened Values
  import opened RpcUtils
  import opened Worker
  import Events
  import EventRuns
  import opened ClientTable
  import opened RpcClient
  import opened GateRuns

  // ---------------------------------------------------------------- events

  /** The events that publish call p has put on the channel. */
  function EventsBy(log: seq<Command>, p: nat): seq<Command> {
    if log == [] then []
    else
      var last := log[|log| - 1];
      EventsBy(log[..|log| - 1], p) + if last.PublishEvent? && last.p == p then [last] else []
  }

  lemma {:induction false} EventsByAppend(log: seq<Command>, last: Command, p: nat)
    ensures EventsBy(log + [last], p) == EventsBy(log, p) + if last.PublishEvent? && last.p == p then [last] else []
  {
    assert (log + [last])[..|log|] == log;
  }

  lemma {:induction false} EventsByHas(log: seq<Command>, x: nat)
    requires x < |log| && log[x].PublishEvent?
    ensures log[x] in EventsBy(log, log[x].p)
  {
    var n := |log| - 1;
    if x < n { EventsByHas(log[..n], x); }
  }

  ghost predicate PublishesNow(s: Client, step: Step, p: nat) {
    step == PubStep(p) && Has(s, p) && PcOf(s, p).Publishing?
  }

  /** What a step adds to the events of publish call p. */
  lemma {:induction false} StepEvents(cfg: Config, s: Client, step: Step, t: Client, p: nat)
    requires Takes(cfg, s, step, t)
    ensures EventsBy(t.log, p) ==
      EventsBy(s.log, p) +
      if PublishesNow(s, step, p) then [PublishEvent(p, s.gate.pubs[p].key, s.gate.pubs[p].body)] else []
  {
    LogStep(cfg, s, step, t);
    if t.log != s.log {
      var last := t.log[|s.log|];
      assert t.log == s.log + [last];
      EventsByAppend(s.log, last, p);
      EventCommand(cfg, s, step, t, p);
    }
  }

  lemma {:induction false} EventCommand(cfg: Config, s: Client, step: Step, t: Client, p: nat)
    requires Takes(cfg, s, step, t)
    ensures PublishesNow(s, step, p) ==> t.log == s.log + [PublishEvent(p, s.gate.pubs[p].key, s.gate.pubs[p].body)]
    ensures |t.log| > |s.log| && t.log[|s.log|].PublishEvent? && t.log[|s.log|].p == p ==> PublishesNow(s, step, p)
  {}

  lemma {:induction false} StepFinishes(cfg: Config, s: Client, step: Step, t: Client, p: nat)
    requires Takes(cfg, s, step, t) && Has(s, p)
    ensures Has(t, p) && (PcOf(t, p).Done? <==> PcOf(s, p).Done? || PublishesNow(s, step, p))
  {
    StepMoves(cfg, s, step, t, p);
    if step.PubStep? { PubStepFinishes(s, step.p, p); }
  }

  lemma {:induction false} PubStepFinishes(s: Client, q: nat, p: nat)
    requires PubEnabled(s, q) && Has(s, p)
    ensures PcOf(StepPub(s, q), p).Done? <==> PcOf(s, p).Done? || (q == p && PcOf(s, p).Publishing?)
  {}

  lemma {:induction false} EventSentOnce(cfg: Config, run: seq<Client>, n: nat, p: nat)
    requires IsRun(cfg, run) && n < |run|
    ensures EventsBy(run[n].log, p) ==
      if Has(run[n], p) && PcOf(run[n], p).Done?
      then [PublishEvent(p, run[n].gate.pubs[p].key, run[n].gate.pubs[p].body)] else []
  {
    if n > 0 {
      var s, t := run[n - 1], run[n];
      EventSentOnce(cfg, run, n - 1, p);
      var step := SomeStep(cfg, run, n);
      StepEvents(cfg, s, step, t, p);
      if Has(s, p) {
        StepFinishes(cfg, s, step, t, p);
        StepMoves(cfg, s, step, t, p);
      } else if Has(t, p) {
        NewPublisher(cfg, s, step, t, p);
      }
    }
  }

  /** Over every run a publish of type t and data v to a key puts on the channel, once it is done, exactly
      one event, to that key and with the body [t, v]; before that it puts none. */
  lemma {:induction false} PublishesExactly(
    cfg: Config, run: seq<Client>, k: nat, n: nat, key: string, evType: string, data: Value)
    requires IsRun(cfg, run) && k < n < |run| && At(cfg, run, k, StartPublish(key, evType, data))
    ensures
      var p := |run[k].gate.pubs|;
      && Has(run[n], p)
      && EventsBy(run[n].log, p) ==
         if PcOf(run[n], p).Done? then [PublishEvent(p, key, JArr([JString(evType), ToJson(data)]))] else []
  {
    StageGrows(cfg, run, k + 1, n, |run[k].gate.pubs|);
    EventSentOnce(cfg, run, n, |run[k].gate.pubs|);
  }

  lemma {:induction false} PublishWasStarted(cfg: Config, run: seq<Client>, n: nat, p: nat)
    returns (k: nat, evType: string, data: Value)
    requires IsRun(cfg, run) && n < |run| && Has(run[n], p)
    ensures k < n && |run[k].gate.pubs| == p && At(cfg, run, k, StartPublish(run[n].gate.pubs[p].key, evType, data))
    decreases n
  {
    var step := SomeStep(cfg, run, n);
    if Has(run[n - 1], p) {
      StepMoves(cfg, run[n - 1], step, run[n], p);
      k, evType, data := PublishWasStarted(cfg, run, n - 1, p);
    } else {
      StartsPublisher(cfg, run[n - 1], step, run[n], p);
      k, evType, data := n - 1, step.evType, step.data;
    }
  }

  lemma {:induction false} StartsPublisher(cfg: Config, s: Client, step: Step, t: Client, p: nat)
    requires Takes(cfg, s, step, t) && !Has(s, p) && Has(t, p)
    ensures step.StartPublish? && p == |s.gate.pubs| && t.gate.pubs[p].key == step.key
  {}

  /** Every event on the channel is that of one publish call, started earlier with its key, type and data. */
  lemma {:induction false} EventWasPublished(cfg: Config, run: seq<Client>, n: nat, x: nat)
    returns (k: nat, evType: string, data: Value)
    requires IsRun(cfg, run) && n < |run| && x < |run[n].log| && run[n].log[x].PublishEvent?
    ensures k < n && |run[k].gate.pubs| == run[n].log[x].p
    ensures At(cfg, run, k, StartPublish(run[n].log[x].key, evType, data))
    ensures run[n].log[x].body == JArr([JString(evType), ToJson(data)])
  {
    var p := run[n].log[x].p;
    EventsByHas(run[n].log, x);
    EventSentOnce(cfg, run, n, p);
    k, evType, data := PublishWasStarted(cfg, run, n, p);
    PublishesExactly(cfg, run, k, n, run[n].gate.pubs[p].key, evType, data);
  }

  /** The two ends of an event meet: the body of a published event decodes to its type and its data. */
  lemma {:induction false} EventRoundTrip(evType: string, data: Value)
    ensures Events.DecodeEvent(Dump(JArr([JString(evType), ToJson(data)]))) == Ok((evType, Decode(ToJson(data))))
  {
    EventRuns.EventDecodes(evType, ToJson(data));
  }

  // ---------------------------------------------------------------- requests

  /** The requests on the channel with this id. */
  function RequestsFor(log: seq<Command>, id: string): seq<Command> {
    if log == [] then []
    else
      var last := log[|log| - 1];
      RequestsFor(log[..|log| - 1], id) + if last.PublishRequest? && last.env.corr == id then [last] else []
  }

  lemma {:induction false} RequestsForAppend(log: seq<Command>, last: Command, id: string)
    ensures RequestsFor(log + [last], id) ==
      RequestsFor(log, id) + if last.PublishRequest? && last.env.corr == id then [last] else []
  {
    assert (log + [last])[..|log|] == log;
  }

  /** Call k publishes its request now. */
  ghost predicate SendsNow(s: Client, step: Step, k: nat) {
    step == CallStep(k) && k < |s.calls| && s.calls[k].pc.Sending?
  }

  lemma {:induction false} RequestCommand(cfg: Config, s: Client, step: Step, t: Client, k: nat)
    requires Takes(cfg, s, step, t)
    ensures SendsNow(s, step, k) ==> t.log == s.log + [PublishRequest(s.calls[k].key, RequestOf(cfg, s.calls[k]))]
    ensures |t.log| > |s.log| && t.log[|s.log|].PublishRequest? ==> step.CallStep? && SendsNow(s, step, step.i)
  {}

  /** What a step adds to the requests with the id of call i, or with no call's id. */
  lemma {:induction false} StepRequests(cfg: Config, s: Client, step: Step, t: Client, id: string)
    requires Takes(cfg, s, step, t) && id != ""
    ensures RequestsFor(t.log, id) ==
      RequestsFor(s.log, id) +
      if step.CallStep? && SendsNow(s, step, step.i) && s.calls[step.i].id == id
      then [PublishRequest(s.calls[step.i].key, RequestOf(cfg, s.calls[step.i]))] else []
  {
    LogStep(cfg, s, step, t);
    if step.CallStep? { RequestCommand(cfg, s, step, t, step.i); }
    if t.log != s.log {
      var last := t.log[|s.log|];
      assert t.log == s.log + [last];
      RequestsForAppend(s.log, last, id);
      RequestCommand(cfg, s, step, t, 0);
    }
  }

  /** What a step leaves of a call. */
  ghost predicate CallStays(s: Client, step: Step, t: Client, i: nat) {
    && i < |s.calls| && i < |t.calls|
    && t.calls[i].key == s.calls[i].key && t.calls[i].meth == s.calls[i].meth
    && t.calls[i].args == s.calls[i].args && t.calls[i].id == s.calls[i].id
    && (t.calls[i].pc == Finished(EmptyName) <==> s.calls[i].pc == Finished(EmptyName))
    && (Published(t.calls[i].pc) <==> Published(s.calls[i].pc) || SendsNow(s, step, i))
    && (OnTimeout(t.calls[i].pc) <==> OnTimeout(s.calls[i].pc) || step == WakeCall(i, Timeout))
  }

  /** The call was woken by its timeout. */
  predicate OnTimeout(pc: CallPc) {
    pc == Woken(true) || pc == Leaving(true) || pc == Finished(TimedOut)
  }

  lemma {:induction false} SlotCallStays(cfg: Config, s: Client, k: nat, i: nat)
    requires CallEnabled(s, k) && i == k && s.calls[k].id in s.slots
    requires s.calls[k].pc.Indexing? || NeedsSlot(s.calls[k].pc)
    ensures CallStays(s, CallStep(k), StepCall(cfg, s, k), i)
  {}

  lemma {:induction false} OtherCallStays(cfg: Config, s: Client, k: nat, i: nat)
    requires CallEnabled(s, k) && i < |s.calls| && i != k
    ensures i < |StepCall(cfg, s, k).calls| && StepCall(cfg, s, k).calls[i] == s.calls[i]
  {}

  lemma {:induction false} PlainCallStays(cfg: Config, s: Client, k: nat, i: nat)
    requires CallEnabled(s, k) && i == k
    requires !s.calls[k].pc.Indexing? && !NeedsSlot(s.calls[k].pc)
    ensures CallStays(s, CallStep(k), StepCall(cfg, s, k), i)
  {}

  lemma {:induction false} CallStepStays(cfg: Config, s: Client, k: nat, i: nat)
    requires CallEnabled(s, k) && i < |s.calls| && (s.calls[k].pc.Indexing? ==> s.calls[k].id in s.slots)
    ensures CallStays(s, CallStep(k), StepCall(cfg, s, k), i)
  {
    if i != k {
      OtherCallStays(cfg, s, k, i);
    } else if s.calls[k].pc.Indexing? || NeedsSlot(s.calls[k].pc) {
      SlotCallStays(cfg, s, k, i);
    } else {
      PlainCallStays(cfg, s, k, i);
    }
  }

  lemma {:induction false} IndexFindsSlot(s: Client, k: nat)
    requires ClientTable.Inv(s) && k < |s.calls| && s.calls[k].pc.Indexing?
    ensures s.calls[k].id in s.slots
  {
    assert CallInv(s.calls[k], SlotOf(s.slots, s.calls[k].id), s.tableOwner == Some(k), s.received);
  }

  lemma {:induction false} OtherStepStays(cfg: Config, s: Client, step: Step, i: nat)
    requires Enabled(cfg, s, step) && !step.CallStep? && !IsGateStep(step) && i < |s.calls|
    ensures CallStays(s, step, Apply(cfg, s, step), i)
  {}

  lemma {:induction false} StepStays(cfg: Config, s: Client, step: Step, t: Client, i: nat)
    requires Takes(cfg, s, step, t) && ClientTable.Inv(s) && i < |s.calls|
    ensures CallStays(s, step, t, i)
  {
    if step.CallStep? {
      if s.calls[step.i].pc.Indexing? { IndexFindsSlot(s, step.i); }
      CallStepStays(cfg, s, step.i, i);
    } else if IsGateStep(step) {
      GateStepKeepsTable(cfg, s, step);
    } else {
      OtherStepStays(cfg, s, step, i);
    }
  }

  /** A call that is new after the step is the one that the step starts. */
  lemma {:induction false} NewCall(cfg: Config, s: Client, step: Step, t: Client)
    requires Takes(cfg, s, step, t)
    ensures |t.calls| == |s.calls| + if step.StartCall? then 1 else 0
    ensures step.StartCall? ==>
      var c := t.calls[|s.calls|];
      && c.key == step.key && c.meth == step.meth && c.args == step.args
      && c.id == (if step.meth == "" then "" else step.id)
      && c.pc == (if step.meth == "" then Finished(EmptyName) else WantTable)
  {}

  lemma {:induction false} NoRequestBefore(cfg: Config, run: seq<Client>, n: nat, id: string)
    requires IsRun(cfg, run) && n < |run| && id != ""
    requires forall i | 0 <= i < |run[n].calls| :: run[n].calls[i].id != id
    ensures RequestsFor(run[n].log, id) == []
  {
    if n > 0 {
      var s, t := run[n - 1], run[n];
      var step := SomeStep(cfg, run, n);
      RunKeepsInv(cfg, run, n - 1);
      NewCall(cfg, s, step, t);
      forall i | 0 <= i < |s.calls| ensures s.calls[i].id != id {
        StepStays(cfg, s, step, t, i);
        assert t.calls[i].id != id;
      }
      NoRequestBefore(cfg, run, n - 1, id);
      StepRequests(cfg, run[n - 1], step, run[n], id);
    }
  }

  lemma {:induction false} RequestSentOnce(cfg: Config, run: seq<Client>, n: nat, i: nat)
    requires IsRun(cfg, run) && n < |run| && i < |run[n].calls| && run[n].calls[i].id != ""
    ensures RequestsFor(run[n].log, run[n].calls[i].id) ==
      if Published(run[n].calls[i].pc) then [PublishRequest(run[n].calls[i].key, RequestOf(cfg, run[n].calls[i]))] else []
    decreases n
  {
    var s, t := run[n - 1], run[n];
    var step := SomeStep(cfg, run, n);
    RunKeepsInv(cfg, run, n - 1);
    StepRequests(cfg, s, step, t, t.calls[i].id);
    NewCall(cfg, s, step, t);
    if i < |s.calls| {
      StepStays(cfg, s, step, t, i);
      RequestSentOnce(cfg, run, n - 1, i);
      assert forall k | 0 <= k < |s.calls| && s.calls[k].id == s.calls[i].id :: k == i;
    } else {
      NoRequestBefore(cfg, run, n - 1, t.calls[i].id);
    }
  }

  lemma {:induction false} CallOverRun(cfg: Config, run: seq<Client>, k: nat, n: nat, i: nat)
    requires IsRun(cfg, run) && k <= n < |run| && i < |run[k].calls|
    ensures i < |run[n].calls|
    ensures run[n].calls[i].key == run[k].calls[i].key && run[n].calls[i].meth == run[k].calls[i].meth
    ensures run[n].calls[i].args == run[k].calls[i].args && run[n].calls[i].id == run[k].calls[i].id
    ensures run[n].calls[i].pc == Finished(EmptyName) <==> run[k].calls[i].pc == Finished(EmptyName)
    decreases n
  {
    if k < n {
      CallOverRun(cfg, run, k, n - 1, i);
      var step := SomeStep(cfg, run, n);
      RunKeepsInv(cfg, run, n - 1);
      StepStays(cfg, run[n - 1], step, run[n], i);
    }
  }

  /** Over every run the call started by step k is, ever after, the one that was asked for.  It fails for
      an empty method name exactly if the name is empty.  Otherwise it has, once it is past the publish
      and in particular once it has finished, put exactly one request on the channel, under its own key:
      its id in the header, the callback queue as reply-to, and a body that decodes to its id, its
      method, its arguments and no keyword arguments.  Before that it has put none. */
  lemma {:induction false} CallsExactly(
    cfg: Config, run: seq<Client>, k: nat, n: nat, key: string, meth: string, args: seq<Value>, id: string)
    requires IsRun(cfg, run) && k < n < |run| && At(cfg, run, k, StartCall(key, meth, args, id))
    ensures |run[k].calls| < |run[n].calls|
    ensures
      var c := run[n].calls[|run[k].calls|];
      && c.key == key && c.meth == meth && c.args == args
      && (c.pc == Finished(EmptyName) <==> meth == "")
      && (c.pc.Finished? ==> Published(c.pc))
      && (meth != "" ==>
            && c.id == id && IsRequest(RequestOf(cfg, c), cfg.callbackQueue, id, meth, args)
            && RequestsFor(run[n].log, id) == (if Published(c.pc) then [PublishRequest(key, RequestOf(cfg, c))] else []))
  {
    var i := |run[k].calls|;
    NewCall(cfg, run[k], StartCall(key, meth, args, id), run[k + 1]);
    CallOverRun(cfg, run, k + 1, n, i);
    if meth != "" {
      RequestSentOnce(cfg, run, n, i);
      RequestRoundTrip(id, meth, args, id);
    }
  }

  /** The message asks for this call, with replies to this queue. */
  ghost predicate IsRequest(env: Envelope, replyTo: string, id: string, meth: string, args: seq<Value>) {
    && env.replyTo == replyTo && env.corr == id
    && DecodeDelivery(env) == Ok(Request(id, meth, DecodeAll(ToJsonAll(args)), map[]))
  }

  /** Every call was started by a step. */
  lemma {:induction false} CallWasStarted(cfg: Config, run: seq<Client>, n: nat, i: nat) returns (k: nat, id: string)
    requires IsRun(cfg, run) && n < |run| && i < |run[n].calls|
    ensures k < n && |run[k].calls| == i
    ensures At(cfg, run, k, StartCall(run[n].calls[i].key, run[n].calls[i].meth, run[n].calls[i].args, id))
    ensures run[n].calls[i].id == if run[n].calls[i].meth == "" then "" else id
    decreases n
  {
    var step := SomeStep(cfg, run, n);
    RunKeepsInv(cfg, run, n - 1);
    NewCall(cfg, run[n - 1], step, run[n]);
    if i < |run[n - 1].calls| {
      StepStays(cfg, run[n - 1], step, run[n], i);
      k, id := CallWasStarted(cfg, run, n - 1, i);
    } else {
      k, id := n - 1, step.id;
    }
  }

  // ---------------------------------------------------------------- timeouts

  /** Step number k of the run is the timeout of call i. */
  ghost predicate TimesOutAt(cfg: Config, run: seq<Client>, k: int, i: nat) {
    At(cfg, run, k, WakeCall(i, Timeout))
  }

  lemma {:induction false} OnTimeoutExactly(cfg: Config, run: seq<Client>, n: nat, i: nat)
    requires IsRun(cfg, run) && n < |run| && i < |run[n].calls|
    ensures OnTimeout(run[n].calls[i].pc) <==> exists k :: k < n && TimesOutAt(cfg, run, k, i)
    decreases n
  {
    if n > 0 {
      var s, t := run[n - 1], run[n];
      var step := SomeStep(cfg, run, n);
      RunKeepsInv(cfg, run, n - 1);
      NewCall(cfg, s, step, t);
      if i < |s.calls| {
        StepStays(cfg, s, step, t, i);
        OnTimeoutExactly(cfg, run, n - 1, i);
        if TimesOutAt(cfg, run, n - 1, i) { StepStays(cfg, s, WakeCall(i, Timeout), t, i); }
        TimesOutNow(cfg, run, n, i);
      } else {
        forall k | k < n ensures !TimesOutAt(cfg, run, k, i) {
          if k >= 0 && k + 1 < |run| && i < |run[k].calls| { CallOverRun(cfg, run, k, n - 1, i); }
        }
      }
    }
  }

  lemma {:induction false} TimesOutNow(cfg: Config, run: seq<Client>, n: nat, i: nat)
    requires n > 0
    ensures (exists k :: k < n && TimesOutAt(cfg, run, k, i)) <==>
      (exists k :: k < n - 1 && TimesOutAt(cfg, run, k, i)) || TimesOutAt(cfg, run, n - 1, i)
  {
    if k :| k < n - 1 && TimesOutAt(cfg, run, k, i) { assert k < n; }
  }

  /** Over every run a finished call has timed out iff its wait ended by the timeout, whether or not a
      reply had arrived by then. */
  lemma {:induction false} TimedOutExactly(cfg: Config, run: seq<Client>, n: nat, i: nat)
    requires IsRun(cfg, run) && n < |run| && i < |run[n].calls| && run[n].calls[i].pc.Finished?
    ensures run[n].calls[i].pc.out.TimedOut? <==> exists k :: k < n && TimesOutAt(cfg, run, k, i)
  {
    OnTimeoutExactly(cfg, run, n, i);
  }
}
