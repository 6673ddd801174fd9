/** The publish gate of include/client.inl: whatever the interleaving of publishers and callers, the
    send channel declares and binds a routing key before any event is published to it. */
module PublishGate {
  import opened Wrappers
  import opened Values
  import opened RpcClient

  /** Among the first n commands, the key is declared and after that bound. */
  ghost predicate Prepared(log: seq<Command>, n: nat, key: string)
    requires n <= |log|
  {
    exists d, b :: 0 <= d < b < n && log[d] == Declare(key) && log[b] == Bind(key)
  }

  predicate PastBind(pc: PubPc) {
    !pc.Looking? && !pc.Declaring? && !pc.Binding?
  }

  ghost predicate PubInv(pub: Pub, log: seq<Command>) {
    && (pub.pc.Binding? ==> Declare(pub.key) in log)
    && (PastBind(pub.pc) ==> Prepared(log, |log|, pub.key))
  }

  ghost predicate LogInv(log: seq<Command>) {
    forall x | 0 <= x < |log| && log[x].PublishEvent? :: Prepared(log, x, log[x].key)
  }

  ghost predicate GateInv(s: Client) {
    && (forall p | 0 <= p < |s.gate.pubs| :: PubInv(s.gate.pubs[p], s.log))
    && (forall key | key in s.gate.keys :: Prepared(s.log, |s.log|, key))
    && LogInv(s.log)
  }

  lemma {:induction false} PreparedStays(log: seq<Command>, n: nat, key: string, cmd: Command, m: nat)
    requires n <= |log| && Prepared(log, n, key) && n <= m <= |log| + 1
    ensures Prepared(log + [cmd], m, key)
  {
    var d, b :| 0 <= d < b < n && log[d] == Declare(key) && log[b] == Bind(key);
    assert (log + [cmd])[d] == Declare(key) && (log + [cmd])[b] == Bind(key);
  }

  lemma {:induction false} BindPrepares(log: seq<Command>, key: string)
    requires Declare(key) in log
    ensures Prepared(log + [Bind(key)], |log| + 1, key)
  {
    var d :| 0 <= d < |log| && log[d] == Declare(key);
    var longer := log + [Bind(key)];
    assert longer[d] == Declare(key) && longer[|log|] == Bind(key);
  }

  /** Appending a command; an event may be appended only to a prepared key. */
  lemma {:induction false} AppendKeepsGate(s: Client, cmd: Command)
    requires GateInv(s)
    requires cmd.PublishEvent? ==> Prepared(s.log, |s.log|, cmd.key)
    ensures GateInv(s.(log := s.log + [cmd]))
  {
    var t := s.(log := s.log + [cmd]);
    forall p | 0 <= p < |s.gate.pubs| ensures PubInv(s.gate.pubs[p], t.log) {
      assert PubInv(s.gate.pubs[p], s.log);
      if PastBind(s.gate.pubs[p].pc) { PreparedStays(s.log, |s.log|, s.gate.pubs[p].key, cmd, |t.log|); }
    }
    forall key | key in s.gate.keys ensures Prepared(t.log, |t.log|, key) {
      PreparedStays(s.log, |s.log|, key, cmd, |t.log|);
    }
    forall x | 0 <= x < |t.log| && t.log[x].PublishEvent? ensures Prepared(t.log, x, t.log[x].key) {
      if x < |s.log| {
        PreparedStays(s.log, x, s.log[x].key, cmd, x);
      } else {
        PreparedStays(s.log, x, cmd.key, cmd, x);
      }
    }
  }

  /** Moving one publisher without touching the channel. */
  lemma {:induction false} MoveKeepsGate(s: Client, p: nat, pc: PubPc)
    requires GateInv(s) && p < |s.gate.pubs| && PubInv(s.gate.pubs[p].(pc := pc), s.log)
    ensures GateInv(s.(gate := MovePub(s.gate, p, pc)))
  {}

  lemma {:induction false} PubStepKeepsGate(s: Client, p: nat)
    requires GateInv(s) && PubEnabled(s, p)
    ensures GateInv(StepPub(s, p))
  {
    var pub := s.gate.pubs[p];
    assert PubInv(pub, s.log);
    var t := StepPub(s, p);
    if pub.pc.Declaring? {
      AppendKeepsGate(s, Declare(pub.key));
      MoveKeepsGate(s.(log := t.log), p, Binding);
    } else if pub.pc.Binding? {
      AppendKeepsGate(s, Bind(pub.key));
      BindPrepares(s.log, pub.key);
      MoveKeepsGate(s.(log := t.log), p, Inserting);
    } else if pub.pc.Publishing? {
      AppendKeepsGate(s, PublishEvent(p, pub.key, pub.body));
      PreparedStays(s.log, |s.log|, pub.key, PublishEvent(p, pub.key, pub.body), |t.log|);
      MoveKeepsGate(s.(log := t.log), p, Done);
    } else {
      MoveKeepsGate(s, p, t.gate.pubs[p].pc);
    }
  }

  lemma {:induction false} StepKeepsGate(cfg: Config, s: Client, step: Step)
    requires GateInv(s) && Enabled(cfg, s, step)
    ensures GateInv(Apply(cfg, s, step))
  {
    match step
    case CallStep(i) =>
      if s.calls[i].pc.Sending? {
        AppendKeepsGate(s, PublishRequest(s.calls[i].key, RequestOf(cfg, s.calls[i])));
      }
    case PubStep(p) => PubStepKeepsGate(s, p);
    case WakePub(p) => MoveKeepsGate(s, p, Unparked);
    case BindConfirmed =>
      var t := StepBindConfirmed(s);
      forall p | 0 <= p < |t.gate.pubs| ensures PubInv(t.gate.pubs[p], t.log) {
        assert PubInv(s.gate.pubs[p], s.log);
      }
    case _ =>
  }

  lemma {:induction false} FollowsKeepsGate(cfg: Config, s: Client, t: Client)
    requires GateInv(s) && Follows(cfg, s, t)
    ensures GateInv(t)
  {
    var step :| Takes(cfg, s, step, t);
    StepKeepsGate(cfg, s, step);
  }

  lemma {:induction false} RunKeepsGate(cfg: Config, run: seq<Client>, n: nat)
    requires IsRun(cfg, run) && n < |run|
    ensures GateInv(run[n])
  {
    if n > 0 {
      RunKeepsGate(cfg, run, n - 1);
      assert Follows(cfg, run[n - 1], run[n]);
      FollowsKeepsGate(cfg, run[n - 1], run[n]);
    }
  }

  /** Bind before publish, in every reachable state: each event publish is preceded on the channel
      by a declare of its key, followed by a bind of its key. */
  lemma {:induction false} BindBeforePublish(cfg: Config, s: Client, x: nat)
    requires Reachable(cfg, s) && x < |s.log| && s.log[x].PublishEvent?
    ensures exists d, b :: 0 <= d < b < x && s.log[d] == Declare(s.log[x].key) && s.log[b] == Bind(s.log[x].key)
  {
    var run :| IsRun(cfg, run) && run[|run| - 1] == s;
    RunKeepsGate(cfg, run, |run| - 1);
    assert Prepared(s.log, x, s.log[x].key);
  }

  // ---------------------------------------------------------------- one publisher: exactly once

  function Times(log: seq<Command>, cmd: Command): nat {
    if log == [] then 0 else Times(log[..|log| - 1], cmd) + if log[|log| - 1] == cmd then 1 else 0
  }

  lemma {:induction false} TimesAppend(log: seq<Command>, last: Command, cmd: Command)
    ensures Times(log + [last], cmd) == Times(log, cmd) + if last == cmd then 1 else 0
  {}

  /** The publish in progress, if any, is the last one. */
  function Last(g: Gate): Option<Pub> {
    if g.pubs == [] then None else Some(g.pubs[|g.pubs| - 1])
  }

  /** The last publish is for this key and has reached this point. */
  predicate Between(last: Option<Pub>, key: string, pc: PubPc) {
    last.Some? && last.value.key == key && last.value.pc == pc
  }

  /** How often a key has been declared and bound, by how far its first publish has come. */
  ghost predicate OnceFor(key: string, known: bool, last: Option<Pub>, log: seq<Command>) {
    && (Between(last, key, Declaring) || Between(last, key, Binding) || Between(last, key, Inserting) ==> !known)
    && Times(log, Declare(key)) == (if known || Between(last, key, Binding) || Between(last, key, Inserting) then 1 else 0)
    && Times(log, Bind(key)) == (if known || Between(last, key, Inserting) then 1 else 0)
  }

  ghost predicate OnceInv(s: Client) {
    && (forall p | 0 <= p < |s.gate.pubs| - 1 :: s.gate.pubs[p].pc.Done?)
    && (forall key :: OnceFor(key, key in s.gate.keys, Last(s.gate), s.log))
  }

  lemma {:induction false} LookKeepsOnce(key: string, known: bool, pub: Pub, log: seq<Command>, next: PubPc)
    requires pub.pc.Looking? && OnceFor(key, known, Some(pub), log)
    requires next.WantGate? || (next.Declaring? && (key == pub.key ==> !known))
    ensures OnceFor(key, known, Some(pub.(pc := next)), log)
  {}

  lemma {:induction false} DeclareKeepsOnce(key: string, known: bool, pub: Pub, log: seq<Command>)
    requires pub.pc.Declaring? && OnceFor(key, known, Some(pub), log)
    ensures OnceFor(key, known, Some(pub.(pc := Binding)), log + [Declare(pub.key)])
  {
    TimesAppend(log, Declare(pub.key), Declare(key));
    TimesAppend(log, Declare(pub.key), Bind(key));
  }

  lemma {:induction false} BindKeepsOnce(key: string, known: bool, pub: Pub, log: seq<Command>)
    requires pub.pc.Binding? && OnceFor(key, known, Some(pub), log)
    ensures OnceFor(key, known, Some(pub.(pc := Inserting)), log + [Bind(pub.key)])
  {
    TimesAppend(log, Bind(pub.key), Declare(key));
    TimesAppend(log, Bind(pub.key), Bind(key));
  }

  lemma {:induction false} InsertKeepsOnce(key: string, known: bool, pub: Pub, log: seq<Command>)
    requires pub.pc.Inserting? && OnceFor(key, known, Some(pub), log)
    ensures OnceFor(key, known || key == pub.key, Some(pub.(pc := WantGate)), log)
  {}

  lemma {:induction false} PublishKeepsOnce(p: nat, key: string, known: bool, pub: Pub, log: seq<Command>)
    requires pub.pc.Publishing? && OnceFor(key, known, Some(pub), log)
    ensures OnceFor(key, known, Some(pub.(pc := Done)), log + [PublishEvent(p, pub.key, pub.body)])
  {
    TimesAppend(log, PublishEvent(p, pub.key, pub.body), Declare(key));
    TimesAppend(log, PublishEvent(p, pub.key, pub.body), Bind(key));
  }

  /** At the gate and behind it nothing is declared or bound. */
  lemma {:induction false} GateKeepsOnce(key: string, known: bool, pub: Pub, log: seq<Command>, next: PubPc)
    requires PastBind(pub.pc) && !pub.pc.Inserting? && OnceFor(key, known, Some(pub), log)
    requires PastBind(next) && !next.Inserting?
    ensures OnceFor(key, known, Some(pub.(pc := next)), log)
  {}

  lemma {:induction false} PubStepKeepsOnceFor(s: Client, p: nat, key: string)
    requires PubEnabled(s, p) && p == |s.gate.pubs| - 1
    requires OnceFor(key, key in s.gate.keys, Last(s.gate), s.log)
    ensures var t := StepPub(s, p); OnceFor(key, key in t.gate.keys, Last(t.gate), t.log)
  {
    var pub := s.gate.pubs[p];
    var known := key in s.gate.keys;
    var next := StepPub(s, p).gate.pubs[p].pc;
    if pub.pc.Looking? {
      LookKeepsOnce(key, known, pub, s.log, next);
    } else if pub.pc.Declaring? {
      DeclareKeepsOnce(key, known, pub, s.log);
    } else if pub.pc.Binding? {
      BindKeepsOnce(key, known, pub, s.log);
    } else if pub.pc.Inserting? {
      InsertKeepsOnce(key, known, pub, s.log);
    } else if pub.pc.Publishing? {
      PublishKeepsOnce(p, key, known, pub, s.log);
    } else {
      GateKeepsOnce(key, known, pub, s.log, next);
    }
  }

  lemma {:induction false} PubStepKeepsOnce(s: Client, p: nat)
    requires OnceInv(s) && PubEnabled(s, p)
    ensures OnceInv(StepPub(s, p))
  {
    assert p == |s.gate.pubs| - 1;
    var t := StepPub(s, p);
    forall key ensures OnceFor(key, key in t.gate.keys, Last(t.gate), t.log) {
      PubStepKeepsOnceFor(s, p, key);
    }
  }

  lemma {:induction false} RequestKeepsOnce(s: Client, cmd: Command)
    requires OnceInv(s) && cmd.PublishRequest?
    ensures OnceInv(s.(log := s.log + [cmd]))
  {}

  /** Steps of other threads, as far as the gate can tell. */
  lemma {:induction false} SameGateKeepsOnce(s: Client, t: Client)
    requires OnceInv(s) && t.log == s.log && t.gate.keys == s.gate.keys && |t.gate.pubs| == |s.gate.pubs|
    requires forall p | 0 <= p < |s.gate.pubs| ::
      t.gate.pubs[p] == s.gate.pubs[p] ||
      (s.gate.pubs[p].pc.Parked? && (t.gate.pubs[p].pc.Parked? || t.gate.pubs[p].pc.Unparked?))
    ensures OnceInv(t)
  {}

  lemma {:induction false} StartKeepsOnce(s: Client, pub: Pub)
    requires OnceInv(s) && pub.pc.Looking?
    requires forall p | 0 <= p < |s.gate.pubs| :: s.gate.pubs[p].pc.Done?
    ensures OnceInv(s.(gate := s.gate.(pubs := s.gate.pubs + [pub])))
  {}

  lemma {:induction false} StepKeepsOnce(cfg: Config, s: Client, step: Step)
    requires OnceInv(s) && Enabled(cfg, s, step) && cfg.onePublisher
    ensures OnceInv(Apply(cfg, s, step))
  {
    var t := Apply(cfg, s, step);
    match step
    case CallStep(i) =>
      if s.calls[i].pc.Sending? {
        RequestKeepsOnce(s, PublishRequest(s.calls[i].key, RequestOf(cfg, s.calls[i])));
        SameGateKeepsOnce(s.(log := t.log), t);
      } else {
        SameGateKeepsOnce(s, t);
      }
    case PubStep(p) => PubStepKeepsOnce(s, p);
    case StartPublish(key, evType, data) => StartKeepsOnce(s, Pub(key, EventBody(evType, data), Looking));
    case _ => SameGateKeepsOnce(s, t);
  }

  lemma {:induction false} FollowsKeepsOnce(cfg: Config, s: Client, t: Client)
    requires OnceInv(s) && Follows(cfg, s, t) && cfg.onePublisher
    ensures OnceInv(t)
  {
    var step :| Takes(cfg, s, step, t);
    StepKeepsOnce(cfg, s, step);
  }

  lemma {:induction false} RunKeepsOnce(cfg: Config, run: seq<Client>, n: nat)
    requires IsRun(cfg, run) && n < |run| && cfg.onePublisher
    ensures OnceInv(run[n])
  {
    if n > 0 {
      RunKeepsOnce(cfg, run, n - 1);
      assert Follows(cfg, run[n - 1], run[n]);
      FollowsKeepsOnce(cfg, run[n - 1], run[n]);
    }
  }

  lemma {:induction false} OccursOnce(log: seq<Command>, cmd: Command)
    requires cmd in log
    ensures Times(log, cmd) > 0
  {
    var n := |log| - 1;
    if log[n] != cmd {
      assert cmd in log[..n];
      OccursOnce(log[..n], cmd);
    }
  }

  /** With one publisher, callers notwithstanding, no key is ever declared or bound twice, and every
      key with a published event was declared and bound exactly once. */
  lemma {:induction false} ExactlyOnePreparation(cfg: Config, s: Client, key: string)
    requires Reachable(cfg, s) && cfg.onePublisher
    ensures Times(s.log, Declare(key)) <= 1 && Times(s.log, Bind(key)) <= 1
    ensures (exists x :: 0 <= x < |s.log| && s.log[x].PublishEvent? && s.log[x].key == key) ==>
              Times(s.log, Declare(key)) == 1 && Times(s.log, Bind(key)) == 1
  {
    var run :| IsRun(cfg, run) && run[|run| - 1] == s;
    RunKeepsOnce(cfg, run, |run| - 1);
    assert OnceFor(key, key in s.gate.keys, Last(s.gate), s.log);
    if x :| 0 <= x < |s.log| && s.log[x].PublishEvent? && s.log[x].key == key {
      BindBeforePublish(cfg, s, x);
      OccursOnce(s.log, Declare(key));
      OccursOnce(s.log, Bind(key));
    }
  }

  // ---------------------------------------------------------------- what does not hold

  const BODY := EventBody("created", VNull)

  lemma {:induction false} TakePub(cfg: Config, s: Client, p: nat) returns (t: Client)
    requires Reachable(cfg, s) && s.crash.None? && PubEnabled(s, p)
    ensures Reachable(cfg, t) && t == StepPub(s, p) && t.crash.None?
  {
    assert Enabled(cfg, s, PubStep(p));
    t := Apply(cfg, s, PubStep(p));
    ReachableStep(cfg, s, PubStep(p));
  }

  lemma {:induction false} StartPub(cfg: Config, s: Client, key: string) returns (t: Client)
    requires Reachable(cfg, s) && s.crash.None?
    requires cfg.onePublisher ==> forall p | 0 <= p < |s.gate.pubs| :: s.gate.pubs[p].pc.Done?
    ensures Reachable(cfg, t) && t == s.(gate := s.gate.(pubs := s.gate.pubs + [Pub(key, BODY, Looking)]))
  {
    var step := StartPublish(key, "created", VNull);
    assert Enabled(cfg, s, step);
    t := Apply(cfg, s, step);
    ReachableStep(cfg, s, step);
  }

  /** With two publishers a key can be declared twice: both look before either inserts. */
  lemma {:induction false} TwoPublishersDeclareTwice(cfg: Config, key: string) returns (t: Client)
    requires !cfg.onePublisher
    ensures Reachable(cfg, t) && Times(t.log, Declare(key)) == 2
  {
    ReachableInit(cfg);
    t := StartPub(cfg, INIT, key);
    t := StartPub(cfg, t, key);
    t := TakePub(cfg, t, 0);
    t := TakePub(cfg, t, 1);
    assert t == INIT.(gate := INIT.gate.(pubs := [Pub(key, BODY, Declaring), Pub(key, BODY, Declaring)]));
    t := TakePub(cfg, t, 0);
    t := TakePub(cfg, t, 1);
    TimesAppend([], Declare(key), Declare(key));
    TimesAppend([Declare(key)], Declare(key), Declare(key));
    assert t.log == [] + [Declare(key)] + [Declare(key)];
  }

  lemma {:induction false} FirstPublishPrepares(cfg: Config, key: string) returns (t: Client)
    ensures Reachable(cfg, t)
    ensures t == INIT.(gate := Gate([Pub(key, BODY, WantGate)], None, false, {key}), log := [Declare(key), Bind(key)])
  {
    ReachableInit(cfg);
    t := StartPub(cfg, INIT, key);
    t := TakePub(cfg, t, 0);
    assert t.gate.pubs == [Pub(key, BODY, Declaring)];
    t := TakePub(cfg, t, 0);
    assert t.gate.pubs == [Pub(key, BODY, Binding)] && t.log == [Declare(key)];
    t := TakePub(cfg, t, 0);
    assert t.gate.pubs == [Pub(key, BODY, Inserting)] && t.log == [Declare(key), Bind(key)];
    t := TakePub(cfg, t, 0);
  }

  /** The confirmation can fall between a publisher's look at the flag and its wait: the flag is up,
      and yet the publisher is parked and was not notified. */
  lemma {:induction false} LostWakeup(cfg: Config, key: string) returns (t: Client)
    ensures Reachable(cfg, t) && t.gate.inited && t.gate.pubs == [Pub(key, BODY, Parked(false))]
  {
    t := FirstPublishPrepares(cfg, key);
    t := TakePub(cfg, t, 0);
    t := TakePub(cfg, t, 0);
    assert t.gate.pubs == [Pub(key, BODY, Parking)] && t.log[1] == Bind(key);
    assert Enabled(cfg, t, BindConfirmed);
    ReachableStep(cfg, t, BindConfirmed);
    t := Apply(cfg, t, BindConfirmed);
    t := TakePub(cfg, t, 0);
  }
}
