/** What the labels of `RpcServer` mean in terms of the run: which registry a worker saw, when a
    request is answered, and what stands in the registry. */
module RpcHistory {
  import opened Wrappers
  import opened Json
  import opened RpcUtils
  import opened Worker
  import opened RpcServer

  /** Step number k of the run is this step. */
  ghost predicate At(run: seq<Server>, k: int, step: Step) {
    0 <= k && k + 1 < |run| && Takes(run[k], step, run[k + 1])
  }

  lemma {:induction false} SomeStep(run: seq<Server>, n: nat) returns (step: Step)
    requires IsRun(run) && 0 < n < |run|
    ensures At(run, n - 1, step)
  {
    assert Follows(run[n - 1], run[n]);
    step :| Takes(run[n - 1], step, run[n]);
  }

  // ---------------------------------------------------------------- one job over a run

  /** How far a job has come. */
  function Stage(job: Job): nat {
    match job
    case Queued => 0
    case Looking(_) => 1
    case Calling(_) => 2
    case Ready(_, _) => 3
    case Replied(_) => 4
    case Abandoned(_, _) => 4
  }

  /** From s to t job j keeps its request, comes no less far, and keeps its cause once it has one. */
  ghost predicate Onward(s: Server, t: Server, j: nat) {
    && j < |s.jobs| <= |s.requests| && j < |t.jobs| <= |t.requests|
    && t.requests[j] == s.requests[j]
    && Stage(s.jobs[j]) <= Stage(t.jobs[j])
    && (HasCause(s.jobs[j]) ==> HasCause(t.jobs[j]) && t.jobs[j].why == s.jobs[j].why)
  }

  /** A delivered job stays put, or one of its own steps moves it on. */
  lemma {:induction false} JobStep(s: Server, step: Step, t: Server, j: nat)
    requires Takes(s, step, t) && j < |s.jobs| <= |s.requests|
    ensures Onward(s, t, j)
    ensures t.jobs[j] == s.jobs[j] || step == Start(j) || step == Find(j) || (step.Call? && step.j == j) || step == SendReply(j)
  {}

  lemma {:induction false} JobOverRun(run: seq<Server>, k: nat, n: nat, j: nat)
    requires IsRun(run) && k <= n < |run| && j < |run[k].jobs| <= |run[k].requests|
    ensures Onward(run[k], run[n], j)
    decreases n - k
  {
    if k < n {
      var step := SomeStep(run, n);
      var s, t := run[n - 1], run[n];
      JobOverRun(run, k, n - 1, j);
      JobStep(s, step, t, j);
      OnwardOn(run[k], s, t, j);
    }
  }

  lemma {:induction false} OnwardOn(r: Server, s: Server, t: Server, j: nat)
    requires Onward(r, s, j) && Onward(s, t, j)
    ensures Onward(r, t, j)
  {}

  /** A worker looked for the method of job j while it was not registered. */
  ghost predicate LookedInVain(run: seq<Server>, n: nat, j: nat) {
    exists k {:trigger At(run, k, Find(j))} :: k < n && At(run, k, Find(j)) && run[k].jobs[j].req.meth !in run[k].rpc
  }

  /** Step k called what the registry then held under the method of job j. */
  ghost predicate CallsAt(run: seq<Server>, k: int, j: nat, entry: Entry, outcome: Outcome) {
    At(run, k, Call(j, outcome)) && entry == Slot(run[k].rpc, run[k].jobs[j].req.meth)
  }

  /** The cause is what happened in the run. */
  ghost predicate Happened(run: seq<Server>, n: nat, j: nat, why: Cause) {
    match why
    case Unknown => LookedInVain(run, n, j)
    case Called(entry, outcome) => exists k :: k < n && CallsAt(run, k, j, entry, outcome)
    case _ => true
  }

  lemma {:induction false} HappenedStays(run: seq<Server>, n: nat, j: nat, why: Cause)
    requires n > 0 && Happened(run, n - 1, j, why)
    ensures Happened(run, n, j, why)
  {
    match why
    case Unknown =>
      var k :| k < n - 1 && At(run, k, Find(j)) && run[k].jobs[j].req.meth !in run[k].rpc;
    case Called(entry, outcome) =>
      var k :| k < n - 1 && CallsAt(run, k, j, entry, outcome);
    case _ =>
  }

  lemma {:induction false} NewCause(run: seq<Server>, n: nat, j: nat, step: Step)
    requires 0 < n && At(run, n - 1, step)
    requires j < |run[n - 1].jobs| <= |run[n - 1].requests| && !HasCause(run[n - 1].jobs[j])
    requires j < |run[n].jobs| && HasCause(run[n].jobs[j])
    ensures Happened(run, n, j, run[n].jobs[j].why)
  {
    JobStep(run[n - 1], step, run[n], j);
    match step
    case Start(_) => assert run[n].jobs[j] == Started(run[n - 1].requests[j]);
    case Find(_) => assert At(run, n - 1, Find(j));
    case Call(_, outcome) =>
      var entry := Slot(run[n - 1].rpc, run[n - 1].jobs[j].req.meth);
      assert CallsAt(run, n - 1, j, entry, outcome);
      assert run[n].jobs[j].why == Called(entry, outcome);
    case _ =>
  }

  /** In every run the recorded cause is the truth: `Unknown` only if a worker found the name
      unregistered, and `Called` only with what the registry held at the call. */
  lemma {:induction false} CausesHappened(run: seq<Server>, n: nat, j: nat)
    requires IsRun(run) && n < |run| && j < |run[n].jobs| && HasCause(run[n].jobs[j])
    ensures Happened(run, n, j, run[n].jobs[j].why)
  {
    if n > 0 {
      var step := SomeStep(run, n);
      RunKeepsInv(run, n - 1);
      if j < |run[n - 1].jobs| {
        JobStep(run[n - 1], step, run[n], j);
        if HasCause(run[n - 1].jobs[j]) {
          CausesHappened(run, n - 1, j);
          HappenedStays(run, n, j, run[n].jobs[j].why);
        } else {
          NewCause(run, n, j, step);
        }
      }
    }
  }

  // ---------------------------------------------------------------- when a request is answered

  predicate IsFinished(job: Job) { job.Replied? || job.Abandoned? }

  /** Step k called m for job j, m was registered at that time, its parameters were recovered, and it
      returned or threw `runtime_error`. */
  ghost predicate AnswersAt(run: seq<Server>, k: int, j: nat, m: Method, outcome: Outcome) {
    && CallsAt(run, k, j, Bound(m), outcome)
    && Parameters(m, run[k].jobs[j].req).Ok? && !outcome.ThrowsOther?
  }

  lemma {:induction false} CallSetsCause(s: Server, j: nat, outcome: Outcome)
    requires Inv(s) && Enabled(s, Call(j, outcome))
    ensures DecodeDelivery(s.requests[j]) == Ok(s.jobs[j].req) && s.jobs[j].req.kws == map[]
    ensures
      var t := Apply(s, Call(j, outcome));
      && t.requests == s.requests && |t.jobs| == |s.jobs|
      && HasCause(t.jobs[j]) && t.jobs[j].why == Called(Slot(s.rpc, s.jobs[j].req.meth), outcome)
  {
    assert JobInv(s.requests[j], s.jobs[j]);
  }

  /** A call step fixes the cause for good. */
  lemma {:induction false} CallFixesCause(run: seq<Server>, k: nat, n: nat, j: nat, entry: Entry, outcome: Outcome)
    requires IsRun(run) && k < n < |run| && CallsAt(run, k, j, entry, outcome)
    ensures j < |run[n].jobs| <= |run[n].requests| && DecodeDelivery(run[n].requests[j]) == Ok(run[k].jobs[j].req)
    ensures run[k].jobs[j].req.kws == map[]
    ensures HasCause(run[n].jobs[j]) && run[n].jobs[j].why == Called(entry, outcome)
  {
    RunKeepsInv(run, k);
    CallSetsCause(run[k], j, outcome);
    JobOverRun(run, k + 1, n, j);
  }

  /** Exactly when a request is answered, over every run and under every pool schedule: a finished
      request has exactly one reply if it carries keyword arguments, or if its method stood bound in
      the registry when its worker called it, its parameters were recovered, and the function returned
      or threw `runtime_error`; otherwise it has none. */
  lemma {:induction false} AnsweredExactly(run: seq<Server>, n: nat, j: nat)
    requires IsRun(run) && n < |run| && j < |run[n].jobs| && IsFinished(run[n].jobs[j])
    ensures |run[n].jobs| <= |run[n].requests|
    ensures RepliesOf(run[n].outbox, j) <= 1
    ensures RepliesOf(run[n].outbox, j) == 1 <==>
      IsRefused(run[n].requests[j]) || exists k, m, outcome :: k < n && AnswersAt(run, k, j, m, outcome)
  {
    RunKeepsInv(run, n);
    CountsReplies(run[n], j);
    var why := run[n].jobs[j].why;
    assert JobInv(run[n].requests[j], run[n].jobs[j]);
    if why.Called? && Owed(run[n].requests[j], why) {
      CausesHappened(run, n, j);
      var k :| k < n && CallsAt(run, k, j, why.entry, why.outcome);
      CallFixesCause(run, k, n, j, why.entry, why.outcome);
      assert AnswersAt(run, k, j, why.entry.m, why.outcome);
    }
    forall k, m, outcome | k < n && AnswersAt(run, k, j, m, outcome) ensures Owed(run[n].requests[j], why) {
      CallFixesCause(run, k, n, j, Bound(m), outcome);
    }
  }

  /** The name stands bound to m in every state from d to n. */
  ghost predicate BoundThroughout(run: seq<Server>, d: nat, n: nat, name: string, m: Method)
    requires d <= n < |run|
  {
    forall k | d <= k <= n :: name in run[k].rpc && run[k].rpc[name] == Bound(m)
  }

  /** Delivery j is queued at d, and its request decodes to req. */
  ghost predicate DeliveredBy(run: seq<Server>, d: nat, n: nat, j: nat, req: Request)
    requires d <= n < |run|
  {
    && j < |run[d].jobs| && run[d].jobs[j].Queued?
    && j < |run[n].requests| && DecodeDelivery(run[n].requests[j]) == Ok(req)
  }

  lemma {:induction false} NotLookedInVain(run: seq<Server>, d: nat, n: nat, j: nat, req: Request, m: Method)
    requires IsRun(run) && d <= n < |run| && DeliveredBy(run, d, n, j, req) && BoundThroughout(run, d, n, req.meth, m)
    ensures !LookedInVain(run, n, j)
  {
    forall k | k < n && At(run, k, Find(j)) ensures run[k].jobs[j].req.meth in run[k].rpc {
      StepIsLater(run, d, k, n, j);
    }
  }

  lemma {:induction false} CalledAsRegistered(
    run: seq<Server>, d: nat, k: int, n: nat, j: nat, req: Request, m: Method, entry: Entry, outcome: Outcome)
    requires IsRun(run) && d <= n < |run| && DeliveredBy(run, d, n, j, req) && BoundThroughout(run, d, n, req.meth, m)
    requires k < n && CallsAt(run, k, j, entry, outcome)
    ensures entry == Bound(m)
  {
    StepIsLater(run, d, k, n, j);
  }

  lemma {:induction false} RegisteredIsCalled(run: seq<Server>, d: nat, n: nat, j: nat, req: Request, m: Method, why: Cause)
    requires IsRun(run) && d <= n < |run| && DeliveredBy(run, d, n, j, req) && BoundThroughout(run, d, n, req.meth, m)
    requires Happened(run, n, j, why)
    ensures !why.Unknown?
    ensures why.Called? ==> why.entry == Bound(m)
  {
    NotLookedInVain(run, d, n, j, req, m);
    if why.Called? {
      var k :| k < n && CallsAt(run, k, j, why.entry, why.outcome);
      CalledAsRegistered(run, d, k, n, j, req, m, why.entry, why.outcome);
    }
  }

  /** While its method stays registered a request is never lost: it was called, with an outcome that
      the method allows, and it is answered iff its parameters were recovered and the outcome was not
      an exception other than `runtime_error`. */
  lemma {:induction false} RegisteredIsAnswered(run: seq<Server>, d: nat, n: nat, j: nat, req: Request, m: Method)
    requires IsRun(run) && d <= n < |run| && DeliveredBy(run, d, n, j, req) && req.kws == map[]
    requires j < |run[n].jobs| && IsFinished(run[n].jobs[j])
    requires BoundThroughout(run, d, n, req.meth, m)
    ensures run[n].jobs[j].why.Called? && run[n].jobs[j].why.entry == Bound(m)
    ensures Possible(Bound(m), req, run[n].jobs[j].why.outcome)
    ensures RepliesOf(run[n].outbox, j) ==
      if Parameters(m, req).Ok? && !run[n].jobs[j].why.outcome.ThrowsOther? then 1 else 0
  {
    RunKeepsInv(run, n);
    CountsReplies(run[n], j);
    var why := run[n].jobs[j].why;
    assert JobInv(run[n].requests[j], run[n].jobs[j]);
    CausesHappened(run, n, j);
    RegisteredIsCalled(run, d, n, j, req, m, why);
    assert why.Called?;
  }

  /** A job that is past the queue at k was queued before k, and works on its own request. */
  lemma {:induction false} StepIsLater(run: seq<Server>, d: nat, k: nat, n: nat, j: nat)
    requires IsRun(run) && d <= n && k <= n < |run| && j < |run[d].jobs| && run[d].jobs[j].Queued?
    requires j < |run[k].jobs| && (run[k].jobs[j].Looking? || run[k].jobs[j].Calling?)
    ensures d <= k && j < |run[n].requests| && DecodeDelivery(run[n].requests[j]) == Ok(run[k].jobs[j].req)
  {
    RunKeepsInv(run, k);
    if k < d { JobOverRun(run, k, d, j); }
    assert JobInv(run[k].requests[j], run[k].jobs[j]);
    JobOverRun(run, k, n, j);
  }

  // ---------------------------------------------------------------- conservation

  /** How many deliveries the run takes. */
  ghost function Deliveries(run: seq<Server>): nat {
    if |run| < 2 then 0
    else Deliveries(run[..|run| - 1]) + if At(run, |run| - 2, Deliver) then 1 else 0
  }

  lemma {:induction false} OneDelivery(s: Server, step: Step, t: Server)
    requires Takes(s, step, t)
    ensures |t.jobs| == |s.jobs| + if Takes(s, Deliver, t) then 1 else 0
  {}

  lemma {:induction false} ShorterRun(run: seq<Server>)
    requires IsRun(run) && |run| > 1
    ensures IsRun(run[..|run| - 1])
  {
    var init := run[..|run| - 1];
    forall k, l | 0 <= k && k + 1 == l < |init| ensures Follows(init[k], init[l]) {
      assert Follows(run[k], run[l]);
    }
  }

  lemma {:induction false} DeliveriesAreJobs(run: seq<Server>)
    requires IsRun(run)
    ensures Deliveries(run) == |run[|run| - 1].jobs|
    decreases |run|
  {
    if |run| > 1 {
      var n := |run| - 1;
      var step := SomeStep(run, n);
      OneDelivery(run[n - 1], step, run[n]);
      ShorterRun(run);
      DeliveriesAreJobs(run[..n]);
    }
  }

  /** Conservation, over every run: the deliveries taken are queued, running, replied or abandoned,
      and as many replies were published as there are replied deliveries. */
  lemma {:induction false} DeliveriesConserved(run: seq<Server>)
    requires IsRun(run)
    ensures
      var s := run[|run| - 1];
      && Deliveries(run) == Count(s.jobs, IsQueued) + Count(s.jobs, IsRunning) + Count(s.jobs, IsReplied) + Count(s.jobs, IsAbandoned)
      && |s.outbox| == Count(s.jobs, IsReplied)
  {
    DeliveriesAreJobs(run);
    RunKeepsInv(run, |run| - 1);
    JobsPartition(run[|run| - 1].jobs);
  }

  // ---------------------------------------------------------------- what stands in the registry

  /** From k on to n no step unregisters the name. */
  ghost predicate NotUnregistered(run: seq<Server>, k: int, n: nat, name: string) {
    forall l | k < l < n :: !At(run, l, Unregister(name))
  }

  /** What one step does to one name. */
  lemma {:induction false} RegistryStep(s: Server, step: Step, t: Server, name: string)
    requires Takes(s, step, t)
    ensures name in s.rpc ==> if step == Unregister(name) then name !in t.rpc else name in t.rpc && t.rpc[name] == s.rpc[name]
    ensures name !in s.rpc && name in t.rpc ==>
      || (step.Register? && step.m.name == name && t.rpc[name] == Bound(step.m))
      || (step.Call? && s.jobs[step.j].req.meth == name && t.rpc[name] == Empty)
  {}

  lemma {:induction false} StillStands(run: seq<Server>, k: int, n: nat, name: string)
    requires IsRun(run) && 0 <= k < n < |run| && name in run[k + 1].rpc && NotUnregistered(run, k, n, name)
    ensures name in run[n].rpc && run[n].rpc[name] == run[k + 1].rpc[name]
    decreases n
  {
    if k + 1 < n {
      StillStands(run, k, n - 1, name);
      var step := SomeStep(run, n);
      RegistryStep(run[n - 1], step, run[n], name);
    }
  }

  /** Step k registered m under its free name. */
  ghost predicate RegistersAt(run: seq<Server>, k: int, m: Method) {
    At(run, k, Register(m)) && m.name !in run[k].rpc
  }

  /** Step k was a worker's call of a name that stood for nothing. */
  ghost predicate CallsUnbound(run: seq<Server>, k: int, name: string) {
    exists j: nat, outcome :: At(run, k, Call(j, outcome)) && run[k].jobs[j].req.meth == name && name !in run[k].rpc
  }

  /** Step k put the entry under the name. */
  ghost predicate PutsAt(run: seq<Server>, k: int, name: string, entry: Entry) {
    match entry
    case Bound(m) => m.name == name && RegistersAt(run, k, m)
    case Empty => CallsUnbound(run, k, name)
  }

  lemma {:induction false} StandsBecause(run: seq<Server>, n: nat, name: string) returns (k: int)
    requires IsRun(run) && n < |run| && name in run[n].rpc
    ensures 0 <= k < n && PutsAt(run, k, name, run[n].rpc[name]) && NotUnregistered(run, k, n, name)
    decreases n
  {
    var step := SomeStep(run, n);
    RegistryStep(run[n - 1], step, run[n], name);
    if name in run[n - 1].rpc {
      k := StandsBecause(run, n - 1, name);
      assert !At(run, n - 1, Unregister(name));
    } else {
      k := n - 1;
      if step.Call? { assert At(run, k, Call(step.j, step.outcome)); }
    }
  }

  lemma {:induction false} PutStands(run: seq<Server>, k: int, n: nat, name: string, entry: Entry)
    requires IsRun(run) && k < n < |run| && PutsAt(run, k, name, entry) && NotUnregistered(run, k, n, name)
    ensures name in run[n].rpc && run[n].rpc[name] == entry
  {
    if entry.Empty? {
      var j: nat, outcome :| At(run, k, Call(j, outcome)) && run[k].jobs[j].req.meth == name && name !in run[k].rpc;
      RegistryStep(run[k], Call(j, outcome), run[k + 1], name);
    }
    StillStands(run, k, n, name);
  }

  /** Exactly what stands in the registry, over every run: m stands under a name iff it was registered
      under that name while it was free, and the name was not unregistered since.  An empty function
      stands under a name iff some worker called the name while it stood for nothing, and the name was
      not unregistered since. */
  lemma {:induction false} RegistryExactly(run: seq<Server>, n: nat, name: string, entry: Entry)
    requires IsRun(run) && n < |run|
    ensures (name in run[n].rpc && run[n].rpc[name] == entry) <==>
      exists k :: k < n && PutsAt(run, k, name, entry) && NotUnregistered(run, k, n, name)
  {
    if name in run[n].rpc && run[n].rpc[name] == entry {
      var k := StandsBecause(run, n, name);
    }
    forall k | k < n && PutsAt(run, k, name, entry) && NotUnregistered(run, k, n, name)
      ensures name in run[n].rpc && run[n].rpc[name] == entry
    {
      PutStands(run, k, n, name, entry);
    }
  }

  /** A call changes the registry iff the name is no longer there; that request then gets no reply,
      and the name cannot be registered until it is unregistered. */
  lemma {:induction false} UnregisterRace(s: Server, j: nat, outcome: Outcome, m: Method)
    requires Enabled(s, Call(j, outcome)) && m.name == s.jobs[j].req.meth
    ensures
      var t := Apply(s, Call(j, outcome));
      && (t.rpc != s.rpc <==> m.name !in s.rpc)
      && (m.name !in s.rpc ==>
            && t.rpc == s.rpc[m.name := Empty]
            && t.jobs[j] == Abandoned(Called(Empty, outcome), BadFunctionCall) && t.outbox == s.outbox
            && Apply(t, Register(m)) == t
            && Apply(Apply(t, Unregister(m.name)), Register(m)).rpc == s.rpc[m.name := Bound(m)])
  {
    var t := Apply(s, Call(j, outcome));
    if m.name in s.rpc {
      assert t.rpc == s.rpc;
    } else {
      assert m.name in t.rpc;
      assert Apply(Apply(t, Unregister(m.name)), Register(m)).rpc == s.rpc[m.name := Bound(m)];
    }
  }

  lemma {:induction false} TakeStep(s: Server, step: Step) returns (t: Server)
    requires Reachable(s) && Enabled(s, step)
    ensures Reachable(t) && t == Apply(s, step)
  {
    t := Apply(s, step);
    ReachableStep(s, step);
  }

  lemma {:induction false} RegisteredAndDelivered(m: Method, env: Envelope) returns (t: Server)
    ensures Reachable(t) && t == Server([env], [Queued], [], map[m.name := Bound(m)], [m])
  {
    ReachableInit();
    t := TakeStep(INIT, Register(m));
    t := TakeStep(t, Enqueue(env));
    t := TakeStep(t, Deliver);
  }

  /** A worker that has found the method of the only request so far. */
  lemma {:induction false} FoundInTime(m: Method, env: Envelope, req: Request) returns (t: Server)
    requires DecodeDelivery(env) == Ok(req) && req.kws == map[] && req.meth == m.name
    ensures Reachable(t) && t == Server([env], [Calling(req)], [], map[m.name := Bound(m)], [m])
  {
    t := RegisteredAndDelivered(m, env);
    t := TakeStep(t, Start(0));
    assert t.jobs == [Looking(req)];
    t := TakeStep(t, Find(0));
    assert t.jobs == [Calling(req)];
  }

  /** The race happens: a run in which the method of a request was registered when it arrived and
      when its worker looked, and yet the request is abandoned and the name is blocked. */
  lemma {:induction false} UnregisterRaceHappens(m: Method) returns (t: Server)
    ensures Reachable(t) && |t.jobs| == 1 && t.jobs[0].Abandoned? && t.outbox == []
    ensures t.rpc == map[m.name := Empty] && t.registered == [m]
  {
    var env := Envelope(Dump(EncodeReq("corr-1", m.name, [])), "corr-1", "cbq-1");
    RequestRoundTrip("corr-1", m.name, [], "corr-1");
    t := FoundInTime(m, env, DecodeDelivery(env).value);
    t := TakeStep(t, Unregister(m.name));
    assert t.rpc == map[];
    UnregisterRace(t, 0, ReturnsVoid, m);
    t := TakeStep(t, Call(0, ReturnsVoid));
  }
}
