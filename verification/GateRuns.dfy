/** The publish gate over whole runs: exactly when a wakeup is lost, and exactly when a key is
    declared twice. */
module GateRuns {
  import opened RpcClient
  import opened PublishGate

  /** Step number k of the run is this step. */
  ghost predicate At(cfg: Config, run: seq<Client>, k: int, step: Step) {
    0 <= k && k + 1 < |run| && Takes(cfg, run[k], step, run[k + 1])
  }

  lemma {:induction false} SomeStep(cfg: Config, run: seq<Client>, n: nat) returns (step: Step)
    requires IsRun(cfg, run) && 0 < n < |run|
    ensures At(cfg, run, n - 1, step)
  {
    assert Follows(cfg, run[n - 1], run[n]);
    step :| Takes(cfg, run[n - 1], step, run[n]);
  }

  // ---------------------------------------------------------------- one publisher over a run

  /** How far a publish has come. */
  function Stage(pc: PubPc): nat {
    match pc
    case Looking => 0
    case Declaring => 1
    case Binding => 2
    case Inserting => 3
    case WantGate => 4
    case AtGate => 5
    case Parking => 6
    case Parked(_) => 7
    case Unparked => 8
    case WantChannel => 9
    case Publishing => 10
    case Done => 11
  }

  ghost predicate Has(s: Client, p: nat) { p < |s.gate.pubs| }

  ghost function PcOf(s: Client, p: nat): PubPc
    requires Has(s, p)
  {
    s.gate.pubs[p].pc
  }

  /** One step of the client, as publisher p sees it. */
  ghost predicate Moves(s: Client, step: Step, t: Client, p: nat) {
    && Has(s, p) && Has(t, p) && t.gate.pubs[p].key == s.gate.pubs[p].key && t.gate.pubs[p].body == s.gate.pubs[p].body
    && (PcOf(t, p) == PcOf(s, p) || step == PubStep(p) || step == WakePub(p) || (step.BindConfirmed? && PcOf(s, p).Parked?))
    && Stage(PcOf(s, p)) <= Stage(PcOf(t, p))
    && (step.BindConfirmed? && PcOf(s, p).Parked? ==> PcOf(t, p) == Parked(true))
    && (PcOf(s, p).Parked? && PcOf(t, p).Parked? && !step.BindConfirmed? ==> PcOf(t, p) == PcOf(s, p))
    && (PcOf(t, p).Parking? && !PcOf(s, p).Parking? ==> PcOf(s, p).AtGate? && !s.gate.inited)
    && (PcOf(t, p).Parked? && !PcOf(s, p).Parked? ==> PcOf(s, p).Parking? && PcOf(t, p) == Parked(false))
    && (t.gate.inited <==> s.gate.inited || step.BindConfirmed?)
  }

  lemma {:induction false} PubStepMoves(s: Client, q: nat, p: nat)
    requires PubEnabled(s, q) && Has(s, p)
    ensures Moves(s, PubStep(q), StepPub(s, q), p)
  {}

  lemma {:induction false} CallStepKeepsGate(cfg: Config, s: Client, i: nat)
    requires CallEnabled(s, i)
    ensures StepCall(cfg, s, i).gate == s.gate
  {}

  lemma {:induction false} StepMoves(cfg: Config, s: Client, step: Step, t: Client, p: nat)
    requires Takes(cfg, s, step, t) && Has(s, p)
    ensures Moves(s, step, t, p)
  {
    match step
    case PubStep(q) => PubStepMoves(s, q, p);
    case CallStep(i) => CallStepKeepsGate(cfg, s, i);
    case _ =>
  }

  lemma {:induction false} NewPublisher(cfg: Config, s: Client, step: Step, t: Client, p: nat)
    requires Takes(cfg, s, step, t) && !Has(s, p) && Has(t, p)
    ensures PcOf(t, p).Looking?
  {}

  lemma {:induction false} StageGrows(cfg: Config, run: seq<Client>, k: nat, n: nat, p: nat)
    requires IsRun(cfg, run) && k <= n < |run| && Has(run[k], p)
    ensures Has(run[n], p) && run[n].gate.pubs[p].key == run[k].gate.pubs[p].key
    ensures run[n].gate.pubs[p].body == run[k].gate.pubs[p].body
    ensures Stage(PcOf(run[k], p)) <= Stage(PcOf(run[n], p))
    decreases n
  {
    if k < n {
      StageGrows(cfg, run, k, n - 1, p);
      var step := SomeStep(cfg, run, n);
      StepMoves(cfg, run[n - 1], step, run[n], p);
    }
  }

  // ---------------------------------------------------------------- lost wakeups

  /** A bind was confirmed while publisher p stood at this stage. */
  ghost predicate ConfirmedAt(cfg: Config, run: seq<Client>, n: nat, p: nat, stage: nat) {
    exists k :: k < n && ConfirmsAt(cfg, run, k, p, stage)
  }

  ghost predicate ConfirmsAt(cfg: Config, run: seq<Client>, k: int, p: nat, stage: nat) {
    At(cfg, run, k, BindConfirmed) && Has(run[k], p) && Stage(PcOf(run[k], p)) == stage
  }

  const PARKING := Stage(Parking)
  const PARKED := Stage(Parked(false))

  lemma {:induction false} ConfirmedNow(cfg: Config, run: seq<Client>, n: nat, p: nat, stage: nat)
    requires 0 < n < |run|
    ensures ConfirmedAt(cfg, run, n, p, stage) <==>
      ConfirmedAt(cfg, run, n - 1, p, stage) || ConfirmsAt(cfg, run, n - 1, p, stage)
  {
    if ConfirmedAt(cfg, run, n - 1, p, stage) {
      var k :| k < n - 1 && ConfirmsAt(cfg, run, k, p, stage);
      assert k < n;
    }
  }

  /** No confirmation has met a publisher at a stage that it has not reached yet. */
  lemma {:induction false} NotConfirmedYet(cfg: Config, run: seq<Client>, n: nat, p: nat, stage: nat)
    requires IsRun(cfg, run) && n < |run| && Has(run[n], p) && Stage(PcOf(run[n], p)) < stage
    ensures !ConfirmedAt(cfg, run, n, p, stage)
  {
    forall k | k < n ensures !ConfirmsAt(cfg, run, k, p, stage) {
      if k >= 0 && k + 1 < |run| && Has(run[k], p) { StageGrows(cfg, run, k, n, p); }
    }
  }

  /** A parked publisher has been notified exactly if a bind was confirmed after it parked. */
  lemma {:induction false} NotifiedExactly(cfg: Config, run: seq<Client>, n: nat, p: nat)
    requires IsRun(cfg, run) && n < |run| && Has(run[n], p) && PcOf(run[n], p).Parked?
    ensures PcOf(run[n], p).notified <==> ConfirmedAt(cfg, run, n, p, PARKED)
  {
    var step := SomeStep(cfg, run, n);
    ConfirmedNow(cfg, run, n, p, PARKED);
    if !Has(run[n - 1], p) {
      NewPublisher(cfg, run[n - 1], step, run[n], p);
    } else {
      StepMoves(cfg, run[n - 1], step, run[n], p);
      if Takes(cfg, run[n - 1], BindConfirmed, run[n]) { StepMoves(cfg, run[n - 1], BindConfirmed, run[n], p); }
      if PcOf(run[n - 1], p).Parked? {
        NotifiedExactly(cfg, run, n - 1, p);
      } else {
        NotConfirmedYet(cfg, run, n - 1, p, PARKED);
      }
    }
  }

  /** No bind is confirmed between k and n. */
  ghost predicate NoneConfirmed(cfg: Config, run: seq<Client>, k: nat, n: nat) {
    forall l | k <= l < n :: !At(cfg, run, l, BindConfirmed)
  }

  lemma {:induction false} ParkedStep(cfg: Config, s: Client, step: Step, t: Client, p: nat)
    requires Takes(cfg, s, step, t) && !cfg.spurious && step != BindConfirmed
    requires Has(s, p) && PcOf(s, p) == Parked(false)
    ensures Has(t, p) && PcOf(t, p) == Parked(false)
  {
    StepMoves(cfg, s, step, t, p);
  }

  /** Without spurious wakeups a parked publisher that was not notified stays parked until a bind is
      confirmed, so a lost wakeup is made up for by nothing else. */
  lemma {:induction false} StaysParked(cfg: Config, run: seq<Client>, k: nat, n: nat, p: nat)
    requires IsRun(cfg, run) && k <= n < |run| && !cfg.spurious
    requires Has(run[k], p) && PcOf(run[k], p) == Parked(false) && NoneConfirmed(cfg, run, k, n)
    ensures Has(run[n], p) && PcOf(run[n], p) == Parked(false)
    decreases n
  {
    if k < n {
      StaysParked(cfg, run, k, n - 1, p);
      var step := SomeStep(cfg, run, n);
      ParkedStep(cfg, run[n - 1], step, run[n], p);
    }
  }

  /** While a publisher stands between its test of the flag and its wait, or waits, the flag is up
      exactly if a bind was confirmed in that time. */
  lemma {:induction false} FlagExactly(cfg: Config, run: seq<Client>, n: nat, p: nat)
    requires IsRun(cfg, run) && n < |run| && Has(run[n], p) && (PcOf(run[n], p).Parking? || PcOf(run[n], p).Parked?)
    ensures run[n].gate.inited <==> ConfirmedAt(cfg, run, n, p, PARKING) || ConfirmedAt(cfg, run, n, p, PARKED)
  {
    var step := SomeStep(cfg, run, n);
    ConfirmedNow(cfg, run, n, p, PARKING);
    ConfirmedNow(cfg, run, n, p, PARKED);
    if !Has(run[n - 1], p) {
      NewPublisher(cfg, run[n - 1], step, run[n], p);
    } else {
      StepMoves(cfg, run[n - 1], step, run[n], p);
      if Takes(cfg, run[n - 1], BindConfirmed, run[n]) { StepMoves(cfg, run[n - 1], BindConfirmed, run[n], p); }
      if PcOf(run[n - 1], p).Parking? || PcOf(run[n - 1], p).Parked? {
        FlagExactly(cfg, run, n - 1, p);
      } else {
        NotConfirmedYet(cfg, run, n - 1, p, PARKING);
        NotConfirmedYet(cfg, run, n - 1, p, PARKED);
      }
    }
  }

  /** Exactly when a wakeup is lost, over every run: a publisher is parked without a notification
      although the flag is up iff a bind was confirmed between its test of the flag and its wait, and
      none was confirmed after it parked. */
  lemma {:induction false} LostWakeupExactly(cfg: Config, run: seq<Client>, n: nat, p: nat)
    requires IsRun(cfg, run) && n < |run| && Has(run[n], p)
    ensures PcOf(run[n], p) == Parked(false) && run[n].gate.inited <==>
      && PcOf(run[n], p).Parked?
      && ConfirmedAt(cfg, run, n, p, PARKING) && !ConfirmedAt(cfg, run, n, p, PARKED)
  {
    if PcOf(run[n], p).Parked? {
      NotifiedExactly(cfg, run, n, p);
      FlagExactly(cfg, run, n, p);
    }
  }

  // ---------------------------------------------------------------- declared twice

  /** Step k is publisher p's look at the known keys, and the key is not among them. */
  ghost predicate MissesAt(cfg: Config, run: seq<Client>, k: int, p: nat, key: string) {
    At(cfg, run, k, PubStep(p)) && run[k].gate.pubs[p].key == key && PcOf(run[k], p).Looking? && key !in run[k].gate.keys
  }

  /** Step k is publisher p's declaration of the key. */
  ghost predicate DeclaresAt(cfg: Config, run: seq<Client>, k: int, p: nat, key: string) {
    At(cfg, run, k, PubStep(p)) && run[k].gate.pubs[p].key == key && PcOf(run[k], p).Declaring?
  }

  lemma {:induction false} LogGrows(cfg: Config, run: seq<Client>, k: nat, n: nat)
    requires IsRun(cfg, run) && k <= n < |run|
    ensures run[k].log <= run[n].log
    decreases n
  {
    if k < n {
      LogGrows(cfg, run, k, n - 1);
      var step := SomeStep(cfg, run, n);
      LogStep(cfg, run[n - 1], step, run[n]);
    }
  }

  /** A step appends at most one command, and only a publisher declares. */
  lemma {:induction false} LogStep(cfg: Config, s: Client, step: Step, t: Client)
    requires Takes(cfg, s, step, t)
    ensures t.log == s.log || (|t.log| == |s.log| + 1 && s.log <= t.log)
    ensures t.log != s.log && t.log[|s.log|].Declare? ==>
      step.PubStep? && PcOf(s, step.p).Declaring? && t.log[|s.log|] == Declare(s.gate.pubs[step.p].key)
  {}

  /** Whoever declares a key has looked for it in vain. */
  lemma {:induction false} MissedBefore(cfg: Config, run: seq<Client>, n: nat, p: nat) returns (k: int)
    requires IsRun(cfg, run) && n < |run| && Has(run[n], p) && PcOf(run[n], p).Declaring?
    ensures k < n && MissesAt(cfg, run, k, p, run[n].gate.pubs[p].key)
    decreases n
  {
    var step := SomeStep(cfg, run, n);
    if !Has(run[n - 1], p) {
      NewPublisher(cfg, run[n - 1], step, run[n], p);
    } else {
      StepMoves(cfg, run[n - 1], step, run[n], p);
      if PcOf(run[n - 1], p).Declaring? {
        k := MissedBefore(cfg, run, n - 1, p);
      } else {
        k := n - 1;
      }
    }
  }

  /** A declaration in the log was made by some publisher's step. */
  lemma {:induction false} DeclaredBy(cfg: Config, run: seq<Client>, n: nat, x: nat, key: string) returns (k: int, p: nat)
    requires IsRun(cfg, run) && n < |run| && x < |run[n].log| && run[n].log[x] == Declare(key)
    ensures k < n && DeclaresAt(cfg, run, k, p, key) && |run[k].log| == x
    decreases n
  {
    var step := SomeStep(cfg, run, n);
    LogStep(cfg, run[n - 1], step, run[n]);
    if x < |run[n - 1].log| {
      k, p := DeclaredBy(cfg, run, n - 1, x, key);
    } else {
      k, p := n - 1, step.p;
    }
  }

  /** Whoever looked in vain and is past the declaration has made it. */
  lemma {:induction false} DeclaredSince(cfg: Config, run: seq<Client>, a: int, n: nat, p: nat, key: string) returns (k: int)
    requires IsRun(cfg, run) && a < n < |run| && MissesAt(cfg, run, a, p, key)
    requires Has(run[n], p) && Stage(PcOf(run[n], p)) > Stage(Declaring)
    ensures k < n && DeclaresAt(cfg, run, k, p, key)
    decreases n
  {
    StageGrows(cfg, run, a + 1, n - 1, p);
    if PcOf(run[n - 1], p).Declaring? {
      var step := SomeStep(cfg, run, n);
      StepMoves(cfg, run[n - 1], step, run[n], p);
      k := n - 1;
    } else {
      k := DeclaredSince(cfg, run, a, n - 1, p, key);
    }
  }

  /** Publisher p looked for the key in vain and has declared it. */
  ghost predicate MissedAndDeclared(cfg: Config, run: seq<Client>, n: nat, p: nat, key: string) {
    n < |run| && Has(run[n], p) && Stage(PcOf(run[n], p)) > Stage(Declaring)
    && exists k :: k < n && MissesAt(cfg, run, k, p, key)
  }

  lemma {:induction false} DeclareLogged(cfg: Config, run: seq<Client>, k: int, n: nat, p: nat, key: string)
    requires IsRun(cfg, run) && k < n < |run| && DeclaresAt(cfg, run, k, p, key)
    ensures |run[k].log| < |run[n].log| && run[n].log[|run[k].log|] == Declare(key)
  {
    LogGrows(cfg, run, k + 1, n);
  }

  lemma {:induction false} TimesZero(log: seq<Command>, cmd: Command)
    ensures Times(log, cmd) == 0 <==> cmd !in log
  {
    if log != [] {
      var n := |log| - 1;
      TimesZero(log[..n], cmd);
      assert log == log[..n] + [log[n]];
    }
  }

  lemma {:induction false} TimesTwo(log: seq<Command>, cmd: Command)
    ensures Times(log, cmd) >= 2 <==> exists x, y :: 0 <= x < y < |log| && log[x] == cmd && log[y] == cmd
  {
    if log != [] {
      var n := |log| - 1;
      TimesTwo(log[..n], cmd);
      TimesZero(log[..n], cmd);
      if log[n] == cmd && cmd in log[..n] {
        var x :| 0 <= x < n && log[..n][x] == cmd;
        assert log[x] == cmd;
      }
    }
  }

  lemma {:induction false} DeclarerMissed(cfg: Config, run: seq<Client>, k: int, n: nat, p: nat, key: string)
    requires IsRun(cfg, run) && k < n < |run| && DeclaresAt(cfg, run, k, p, key)
    ensures Has(run[k + 1], p) && PcOf(run[k + 1], p).Binding? && MissedAndDeclared(cfg, run, n, p, key)
  {
    StageGrows(cfg, run, k, k + 1, p);
    StageGrows(cfg, run, k + 1, n, p);
    var a := MissedBefore(cfg, run, k, p);
    assert a < n;
  }

  /** A publisher declares only once. */
  lemma {:induction false} OneDeclarationEach(cfg: Config, run: seq<Client>, k: int, l: int, p: nat, q: nat, key: string)
    requires IsRun(cfg, run) && k <= l && DeclaresAt(cfg, run, k, p, key) && DeclaresAt(cfg, run, l, q, key)
    ensures k == l <==> p == q
  {
    DeclarerMissed(cfg, run, k, k + 1, p, key);
    if k < l {
      StageGrows(cfg, run, k + 1, l, p);
    } else {
      DeclarerMissed(cfg, run, l, l + 1, q, key);
      StepMoves(cfg, run[k], PubStep(p), run[k + 1], q);
    }
  }

  lemma {:induction false} TwoInLog(
    cfg: Config, run: seq<Client>, n: nat, x: nat, y: nat, key: string) returns (p: nat, q: nat)
    requires IsRun(cfg, run) && n < |run| && x < y < |run[n].log|
    requires run[n].log[x] == Declare(key) && run[n].log[y] == Declare(key)
    ensures p != q && MissedAndDeclared(cfg, run, n, p, key) && MissedAndDeclared(cfg, run, n, q, key)
  {
    var k, l;
    k, p := DeclaredBy(cfg, run, n, x, key);
    l, q := DeclaredBy(cfg, run, n, y, key);
    DeclarerMissed(cfg, run, k, n, p, key);
    DeclarerMissed(cfg, run, l, n, q, key);
    if l <= k { LogGrows(cfg, run, l, k); }
    OneDeclarationEach(cfg, run, k, l, p, q, key);
  }

  lemma {:induction false} EarlierAndLater(cfg: Config, run: seq<Client>, k: int, l: int, n: nat, p: nat, q: nat, key: string)
    requires IsRun(cfg, run) && k < l < n < |run| && DeclaresAt(cfg, run, k, p, key) && DeclaresAt(cfg, run, l, q, key)
    ensures Times(run[n].log, Declare(key)) >= 2
  {
    DeclareLogged(cfg, run, k, l, p, key);
    DeclareLogged(cfg, run, k, n, p, key);
    DeclareLogged(cfg, run, l, n, q, key);
    TimesTwo(run[n].log, Declare(key));
  }

  lemma {:induction false} TwoDeclarers(cfg: Config, run: seq<Client>, n: nat, p: nat, q: nat, key: string)
    requires IsRun(cfg, run) && n < |run| && p != q
    requires MissedAndDeclared(cfg, run, n, p, key) && MissedAndDeclared(cfg, run, n, q, key)
    ensures Times(run[n].log, Declare(key)) >= 2
  {
    var a :| a < n && MissesAt(cfg, run, a, p, key);
    var b :| b < n && MissesAt(cfg, run, b, q, key);
    var k := DeclaredSince(cfg, run, a, n, p, key);
    var l := DeclaredSince(cfg, run, b, n, q, key);
    if k <= l {
      OneDeclarationEach(cfg, run, k, l, p, q, key);
      EarlierAndLater(cfg, run, k, l, n, p, q, key);
    } else {
      EarlierAndLater(cfg, run, l, k, n, q, p, key);
    }
  }

  /** Exactly when a key is declared more than once, over every run: iff two publishers each looked
      for it when it was not among the known keys, so before either of them inserted it, and each
      went on to declare it. */
  lemma {:induction false} DeclaredTwiceExactly(cfg: Config, run: seq<Client>, n: nat, key: string)
    requires IsRun(cfg, run) && n < |run|
    ensures Times(run[n].log, Declare(key)) >= 2 <==>
      exists p, q :: p != q && MissedAndDeclared(cfg, run, n, p, key) && MissedAndDeclared(cfg, run, n, q, key)
  {
    TimesTwo(run[n].log, Declare(key));
    if Times(run[n].log, Declare(key)) >= 2 {
      var x, y :| 0 <= x < y < |run[n].log| && run[n].log[x] == Declare(key) && run[n].log[y] == Declare(key);
      var p, q := TwoInLog(cfg, run, n, x, y, key);
    }
    forall p, q | p != q && MissedAndDeclared(cfg, run, n, p, key) && MissedAndDeclared(cfg, run, n, q, key)
      ensures Times(run[n].log, Declare(key)) >= 2
    {
      TwoDeclarers(cfg, run, n, p, q, key);
    }
  }
}
