/** The RPC side of the server as a step system: deliveries are queued to the thread pool, and any
    number of workers run `_rpc_worker` in any interleaving, also with registration changes.

    The request queue is its full history `requests`; the part already delivered is the prefix of
    length `|jobs|`.  Job j is the pool task of delivery j.  `outbox` is the log of replies published
    on the send channel, each with the job that published it.  `registered` is the log of successful
    registrations. */
module RpcServer {
  import opened Wrappers
  import opened Json
  import opened RpcUtils
  import opened Worker

  /** What happened to a request, recorded when it happens. */
  datatype Cause =
    | Undecoded
    | Keywords
    | Unknown
    | Called(entry: Entry, outcome: Outcome)

  datatype Job =
    | Queued
    | Looking(req: Request)
    | Calling(req: Request)
    | Ready(res: Res, why: Cause)
    | Replied(why: Cause)
    | Abandoned(why: Cause, failure: Failure)

  datatype Posted = Posted(job: nat, sent: Sent)

  datatype Server = Server(
    requests: seq<Envelope>,
    jobs: seq<Job>,
    outbox: seq<Posted>,
    rpc: map<string, Entry>,
    registered: seq<Method>)

  datatype Step =
    | Enqueue(env: Envelope)
    | Deliver
    | Start(j: nat)
    | Find(j: nat)
    | Call(j: nat, outcome: Outcome)
    | SendReply(j: nat)
    | Register(m: Method)
    | Unregister(name: string)

  ghost const INIT := Server([], [], [], map[], [])

  // ---------------------------------------------------------------- steps

  /** The slot that `rpc_func_map[meth]` yields; a missing name is created empty. */
  function Slot(rpc: map<string, Entry>, meth: string): Entry {
    if meth in rpc then rpc[meth] else Empty
  }

  /** A bound function ends only in a way it is able to. */
  ghost predicate Possible(entry: Entry, req: Request, outcome: Outcome) {
    entry.Bound? && Parameters(entry.m, req).Ok? ==> entry.m.allowed(Parameters(entry.m, req).value, outcome)
  }

  ghost predicate Enabled(s: Server, step: Step) {
    match step
    case Enqueue(_) => true
    case Deliver => |s.jobs| < |s.requests|
    case Start(j) => j < |s.jobs| <= |s.requests| && s.jobs[j].Queued?
    case Find(j) => j < |s.jobs| <= |s.requests| && s.jobs[j].Looking?
    case Call(j, outcome) =>
      && j < |s.jobs| <= |s.requests| && s.jobs[j].Calling?
      && Possible(Slot(s.rpc, s.jobs[j].req.meth), s.jobs[j].req, outcome)
    case SendReply(j) => j < |s.jobs| && s.jobs[j].Ready?
    case Register(_) => true
    case Unregister(_) => true
  }

  ghost function Started(env: Envelope): Job {
    match DecodeDelivery(env)
    case Err(e) => Abandoned(Undecoded, e)
    case Ok(req) =>
      if req.kws != map[] then Ready(Caught(InitialRes(env), KEYWORD_ERROR), Keywords) else Looking(req)
  }

  ghost function Apply(s: Server, step: Step): Server
    requires Enabled(s, step)
  {
    match step
    case Enqueue(env) => s.(requests := s.requests + [env])
    case Deliver => s.(jobs := s.jobs + [Queued])
    case Start(j) => s.(jobs := s.jobs[j := Started(s.requests[j])])
    case Find(j) =>
      var req := s.jobs[j].req;
      s.(jobs := s.jobs[j := if req.meth in s.rpc then Calling(req) else Ready(InitialRes(s.requests[j]), Unknown)])
    case Call(j, outcome) =>
      var req := s.jobs[j].req;
      var entry := Slot(s.rpc, req.meth);
      var why := Called(entry, outcome);
      var job :=
        match Invoke(entry, req.args, outcome, InitialRes(s.requests[j]))
        case Ok(res) => Ready(res, why)
        case Err(e) => Abandoned(why, e);
      s.(jobs := s.jobs[j := job], rpc := s.rpc[req.meth := entry])
    case SendReply(j) =>
      var why := s.jobs[j].why;
      (match ReplyFor(s.jobs[j].res)
       case Ok(sent) => s.(jobs := s.jobs[j := Replied(why)], outbox := s.outbox + [Posted(j, sent)])
       case Err(e) => s.(jobs := s.jobs[j := Abandoned(why, e)]))
    case Register(m) =>
      if m.name in s.rpc then s
      else s.(rpc := s.rpc[m.name := Bound(m)], registered := s.registered + [m])
    case Unregister(name) => s.(rpc := s.rpc - {name})
  }

  ghost predicate Takes(s: Server, step: Step, t: Server) {
    Enabled(s, step) && t == Apply(s, step)
  }

  ghost predicate Follows(s: Server, t: Server) {
    exists step :: Takes(s, step, t)
  }

  /** A run is any sequence of steps from the initial state. */
  ghost predicate IsRun(run: seq<Server>) {
    && run != []
    && run[0] == INIT
    && forall m, n {:trigger Follows(run[m], run[n])} | 0 <= m && m + 1 == n < |run| :: Follows(run[m], run[n])
  }

  ghost predicate Reachable(s: Server) {
    exists run :: IsRun(run) && run[|run| - 1] == s
  }

  lemma {:induction false} ReachableInit()
    ensures Reachable(INIT)
  {
    assert IsRun([INIT]);
  }

  lemma {:induction false} ReachableStep(s: Server, step: Step)
    requires Reachable(s) && Enabled(s, step)
    ensures Reachable(Apply(s, step))
  {
    var run :| IsRun(run) && run[|run| - 1] == s;
    var t := Apply(s, step);
    var longer := run + [t];
    assert Takes(s, step, t);
    forall m, n | 0 <= m && m + 1 == n < |longer| ensures Follows(longer[m], longer[n]) {
      if n < |run| { assert Follows(run[m], run[n]); }
    }
    assert IsRun(longer);
  }

  // ---------------------------------------------------------------- the invariant

  /** `why` is a truthful account of what happened to `env`. */
  ghost predicate Accounts(env: Envelope, why: Cause) {
    var req := DecodeDelivery(env);
    match why
    case Undecoded => req.Err?
    case Keywords => req.Ok? && req.value.kws != map[]
    case Unknown => req.Ok? && req.value.kws == map[]
    case Called(entry, outcome) =>
      && req.Ok? && req.value.kws == map[]
      && (entry.Bound? ==> entry.m.name == req.value.meth)
      && Possible(entry, req.value, outcome)
  }

  /** The request is owed a reply: it carries keyword arguments, or its method was bound when it
      was called, its parameters could be recovered, and the function returned or threw
      `runtime_error`. */
  ghost predicate Owed(env: Envelope, why: Cause) {
    var req := DecodeDelivery(env);
    req.Ok? &&
    match why
    case Keywords => true
    case Called(entry, outcome) =>
      entry.Bound? && Parameters(entry.m, req.value).Ok? && !outcome.ThrowsOther?
    case _ => false
  }

  /** The error text and result that the reply must carry. */
  ghost function Answer(env: Envelope, why: Cause): Reply
    requires Owed(env, why)
  {
    if why.Keywords? then Reply(KEYWORD_ERROR, Dump(JNull)) else LocalReply(why.outcome)
  }

  /** The record just before `send_reply`. */
  ghost predicate Filled(env: Envelope, why: Cause, res: Res) {
    && res.typ == 1 && res.msgid == env.corr && res.replyTo == env.replyTo
    && if Owed(env, why)
       then res.error == Answer(env, why).error && res.result == Dump(JArr([Answer(env, why).result.json]))
       else res.result == NotJson
  }

  ghost predicate JobInv(env: Envelope, job: Job) {
    match job
    case Queued => true
    case Looking(req) => DecodeDelivery(env) == Ok(req) && req.kws == map[]
    case Calling(req) => DecodeDelivery(env) == Ok(req) && req.kws == map[]
    case Ready(res, why) => Accounts(env, why) && Filled(env, why, res)
    case Replied(why) => Accounts(env, why) && Owed(env, why)
    case Abandoned(why, _) => Accounts(env, why) && !Owed(env, why)
  }

  /** The only message that may be published for `env`. */
  ghost function ReplyTo(env: Envelope, why: Cause): Sent
    requires Owed(env, why)
  {
    var a := Answer(env, why);
    Sent(env.replyTo, env.corr, Dump(EncodeRep(1, env.corr, a.error, a.result.json)))
  }

  ghost predicate NamesMatch(rpc: map<string, Entry>) {
    forall n | n in rpc :: rpc[n].Bound? ==> rpc[n].m.name == n
  }

  ghost predicate PostedFor(env: Envelope, job: Job, sent: Sent) {
    job.Replied? && Owed(env, job.why) && sent == ReplyTo(env, job.why)
  }

  ghost predicate PostedInv(s: Server, p: Posted)
    requires |s.jobs| <= |s.requests|
  {
    p.job < |s.jobs| && PostedFor(s.requests[p.job], s.jobs[p.job], p.sent)
  }

  predicate IsReplied(job: Job) { job.Replied? }

  function Count(jobs: seq<Job>, p: Job -> bool): nat {
    if jobs == [] then 0 else Count(jobs[..|jobs| - 1], p) + if p(jobs[|jobs| - 1]) then 1 else 0
  }

  ghost predicate OutboxInv(s: Server) {
    && |s.jobs| <= |s.requests|
    && (forall p | 0 <= p < |s.outbox| :: PostedInv(s, s.outbox[p]))
    && (forall p, q | 0 <= p < q < |s.outbox| :: s.outbox[p].job != s.outbox[q].job)
  }

  ghost predicate Inv(s: Server) {
    && |s.jobs| <= |s.requests|
    && NamesMatch(s.rpc)
    && (forall j | 0 <= j < |s.jobs| :: JobInv(s.requests[j], s.jobs[j]))
    && OutboxInv(s)
    && |s.outbox| == Count(s.jobs, IsReplied)
  }

  lemma {:induction false} CountUpdate(jobs: seq<Job>, j: nat, job: Job, p: Job -> bool)
    requires j < |jobs|
    ensures Count(jobs[j := job], p) ==
      Count(jobs, p) - (if p(jobs[j]) then 1 else 0) + (if p(job) then 1 else 0)
  {
    var n := |jobs| - 1;
    if j < n {
      assert jobs[j := job][..n] == jobs[..n][j := job];
      CountUpdate(jobs[..n], j, job, p);
    } else {
      assert jobs[j := job][..n] == jobs[..n];
    }
  }

  lemma {:induction false} CountAppend(jobs: seq<Job>, job: Job, p: Job -> bool)
    ensures Count(jobs + [job], p) == Count(jobs, p) + if p(job) then 1 else 0
  {}

  /** The job that a worker step leaves behind satisfies its invariant. */
  lemma {:induction false} CallKeepsJobInv(env: Envelope, req: Request, entry: Entry, outcome: Outcome)
    requires DecodeDelivery(env) == Ok(req) && req.kws == map[]
    requires entry.Bound? ==> entry.m.name == req.meth
    requires Possible(entry, req, outcome)
    ensures Accounts(env, Called(entry, outcome))
    ensures
      match Invoke(entry, req.args, outcome, InitialRes(env))
      case Ok(res) => Owed(env, Called(entry, outcome)) && Filled(env, Called(entry, outcome), res)
      case Err(_) => !Owed(env, Called(entry, outcome))
  {}

  lemma {:induction false} ReplyIsDue(env: Envelope, why: Cause, res: Res)
    requires Accounts(env, why) && Filled(env, why, res)
    ensures ReplyFor(res).Ok? <==> Owed(env, why)
    ensures Owed(env, why) ==> ReplyFor(res).value == ReplyTo(env, why)
  {}

  lemma {:induction false} PostedStays(s: Server, t: Server, p: Posted)
    requires |s.jobs| <= |s.requests| && |t.jobs| <= |t.requests| && PostedInv(s, p)
    requires p.job < |t.jobs| && t.jobs[p.job] == s.jobs[p.job] && t.requests[p.job] == s.requests[p.job]
    ensures PostedInv(t, p)
  {}

  /** Moving a job without publishing anything. */
  lemma {:induction false} MoveKeepsInv(s: Server, j: nat, job: Job, rpc: map<string, Entry>)
    requires Inv(s) && j < |s.jobs| && NamesMatch(rpc)
    requires !s.jobs[j].Replied? && !job.Replied? && JobInv(s.requests[j], job)
    ensures Inv(s.(jobs := s.jobs[j := job], rpc := rpc))
  {
    CountUpdate(s.jobs, j, job, IsReplied);
    var t := s.(jobs := s.jobs[j := job], rpc := rpc);
    forall p | 0 <= p < |t.outbox| ensures PostedInv(t, t.outbox[p]) {
      assert s.outbox[p].job != j;
      PostedStays(s, t, s.outbox[p]);
    }
  }

  lemma {:induction false} PublishKeepsOutbox(s: Server, j: nat, job: Job, sent: Sent)
    requires OutboxInv(s) && j < |s.jobs| && !s.jobs[j].Replied? && PostedFor(s.requests[j], job, sent)
    ensures OutboxInv(s.(jobs := s.jobs[j := job], outbox := s.outbox + [Posted(j, sent)]))
  {}

  lemma {:induction false} PublishKeepsInv(s: Server, j: nat)
    requires Inv(s) && j < |s.jobs| && s.jobs[j].Ready? && Owed(s.requests[j], s.jobs[j].why)
    ensures
      var why := s.jobs[j].why;
      Inv(s.(jobs := s.jobs[j := Replied(why)], outbox := s.outbox + [Posted(j, ReplyTo(s.requests[j], why))]))
  {
    var why := s.jobs[j].why;
    var sent := ReplyTo(s.requests[j], why);
    assert JobInv(s.requests[j], s.jobs[j]);
    CountUpdate(s.jobs, j, Replied(why), IsReplied);
    PublishKeepsOutbox(s, j, Replied(why), sent);
  }

  lemma {:induction false} CallKeepsInv(s: Server, j: nat, outcome: Outcome)
    requires Inv(s) && Enabled(s, Call(j, outcome))
    ensures Inv(Apply(s, Call(j, outcome)))
  {
    assert JobInv(s.requests[j], s.jobs[j]);
    var t := Apply(s, Call(j, outcome));
    CallKeepsJobInv(s.requests[j], s.jobs[j].req, Slot(s.rpc, s.jobs[j].req.meth), outcome);
    MoveKeepsInv(s, j, t.jobs[j], t.rpc);
  }

  lemma {:induction false} SendReplyKeepsInv(s: Server, j: nat)
    requires Inv(s) && Enabled(s, SendReply(j))
    ensures Inv(Apply(s, SendReply(j)))
  {
    assert JobInv(s.requests[j], s.jobs[j]);
    ReplyIsDue(s.requests[j], s.jobs[j].why, s.jobs[j].res);
    if Owed(s.requests[j], s.jobs[j].why) {
      PublishKeepsInv(s, j);
    } else {
      MoveKeepsInv(s, j, Apply(s, SendReply(j)).jobs[j], s.rpc);
    }
  }

  lemma {:induction false} LookupKeepsInv(s: Server, step: Step)
    requires Inv(s) && Enabled(s, step) && (step.Start? || step.Find?)
    ensures Inv(Apply(s, step))
  {
    assert JobInv(s.requests[step.j], s.jobs[step.j]);
    MoveKeepsInv(s, step.j, Apply(s, step).jobs[step.j], s.rpc);
  }

  lemma {:induction false} RegistryKeepsInv(s: Server, step: Step)
    requires Inv(s) && Enabled(s, step) && (step.Register? || step.Unregister?)
    ensures Inv(Apply(s, step))
  {}

  lemma {:induction false} StepKeepsInv(s: Server, step: Step)
    requires Inv(s) && Enabled(s, step)
    ensures Inv(Apply(s, step))
  {
    match step
    case Enqueue(_) => GrowKeepsInv(s, step);
    case Deliver => GrowKeepsInv(s, step);
    case Start(_) => LookupKeepsInv(s, step);
    case Find(_) => LookupKeepsInv(s, step);
    case Call(j, outcome) => CallKeepsInv(s, j, outcome);
    case SendReply(j) => SendReplyKeepsInv(s, j);
    case Register(_) => RegistryKeepsInv(s, step);
    case Unregister(_) => RegistryKeepsInv(s, step);
  }

  lemma {:induction false} GrowKeepsInv(s: Server, step: Step)
    requires Inv(s) && Enabled(s, step) && (step.Enqueue? || step.Deliver?)
    ensures Inv(Apply(s, step))
  {
    CountAppend(s.jobs, Queued, IsReplied);
    var t := Apply(s, step);
    forall p | 0 <= p < |t.outbox| ensures PostedInv(t, t.outbox[p]) {
      PostedStays(s, t, s.outbox[p]);
    }
  }

  lemma {:induction false} FollowsKeepsInv(s: Server, t: Server)
    requires Inv(s) && Follows(s, t)
    ensures Inv(t)
  {
    var step :| Takes(s, step, t);
    StepKeepsInv(s, step);
  }

  lemma {:induction false} RunKeepsInv(run: seq<Server>, n: nat)
    requires IsRun(run) && n < |run|
    ensures Inv(run[n])
  {
    if n > 0 {
      RunKeepsInv(run, n - 1);
      assert Follows(run[n - 1], run[n]);
      FollowsKeepsInv(run[n - 1], run[n]);
    }
  }

  lemma {:induction false} ReachableInv(s: Server)
    requires Reachable(s)
    ensures Inv(s)
  {
    var run :| IsRun(run) && run[|run| - 1] == s;
    var n := |run| - 1;
    RunKeepsInv(run, n);
  }

  // ---------------------------------------------------------------- registered methods

  /** A bound entry was registered. */
  ghost predicate Known(registered: seq<Method>, entry: Entry) {
    entry.Bound? ==> entry.m in registered
  }

  predicate HasCause(job: Job) { job.Ready? || job.Replied? || job.Abandoned? }

  ghost predicate KnownInv(s: Server) {
    && (forall n | n in s.rpc :: Known(s.registered, s.rpc[n]))
    && (forall j | 0 <= j < |s.jobs| && HasCause(s.jobs[j]) && s.jobs[j].why.Called? ::
          Known(s.registered, s.jobs[j].why.entry))
  }

  lemma {:induction false} StepKeepsKnown(s: Server, step: Step)
    requires KnownInv(s) && Enabled(s, step)
    ensures KnownInv(Apply(s, step))
  {
    if step.Call? { assert Known(s.registered, Slot(s.rpc, s.jobs[step.j].req.meth)); }
  }

  lemma {:induction false} RunKeepsKnown(run: seq<Server>, n: nat)
    requires IsRun(run) && n < |run|
    ensures KnownInv(run[n])
  {
    if n > 0 {
      RunKeepsKnown(run, n - 1);
      assert Follows(run[n - 1], run[n]);
      var step :| Takes(run[n - 1], step, run[n]);
      StepKeepsKnown(run[n - 1], step);
    }
  }

  /** In every reachable state the functions in the registry, and the functions that have been
      called, are registered ones. */
  lemma {:induction false} OnlyRegisteredAreCalled(s: Server, j: nat)
    requires Reachable(s)
    ensures forall n | n in s.rpc && s.rpc[n].Bound? :: s.rpc[n].m in s.registered
    ensures j < |s.jobs| && HasCause(s.jobs[j]) && s.jobs[j].why.Called? && s.jobs[j].why.entry.Bound? ==>
              s.jobs[j].why.entry.m in s.registered
  {
    var run :| IsRun(run) && run[|run| - 1] == s;
    RunKeepsKnown(run, |run| - 1);
    assert forall n | n in s.rpc :: Known(s.registered, s.rpc[n]);
  }

  // ---------------------------------------------------------------- conservation

  predicate IsQueued(job: Job) { job.Queued? }

  predicate IsRunning(job: Job) { job.Looking? || job.Calling? || job.Ready? }

  predicate IsAbandoned(job: Job) { job.Abandoned? }

  lemma {:induction false} JobsPartition(jobs: seq<Job>)
    ensures |jobs| == Count(jobs, IsQueued) + Count(jobs, IsRunning) + Count(jobs, IsReplied) + Count(jobs, IsAbandoned)
  {
    if jobs != [] { JobsPartition(jobs[..|jobs| - 1]); }
  }

  /** How many published replies job j is responsible for. */
  function RepliesOf(outbox: seq<Posted>, j: nat): nat {
    if outbox == [] then 0
    else RepliesOf(outbox[..|outbox| - 1], j) + if outbox[|outbox| - 1].job == j then 1 else 0
  }

  lemma {:induction false} NoRepliesOf(outbox: seq<Posted>, j: nat)
    requires forall p | 0 <= p < |outbox| :: outbox[p].job != j
    ensures RepliesOf(outbox, j) == 0
  {
    if outbox != [] { NoRepliesOf(outbox[..|outbox| - 1], j); }
  }

  lemma {:induction false} OneReplyOf(outbox: seq<Posted>, p: nat)
    requires p < |outbox|
    requires forall q | 0 <= q < |outbox| && q != p :: outbox[q].job != outbox[p].job
    ensures RepliesOf(outbox, outbox[p].job) == 1
  {
    var n := |outbox| - 1;
    if p < n {
      OneReplyOf(outbox[..n], p);
    } else {
      NoRepliesOf(outbox[..n], outbox[p].job);
    }
  }

  /** As many distinct replied jobs as published replies, so none is missing. */
  lemma {:induction false} RepliedIsPosted(jobs: seq<Job>, outbox: seq<Posted>, j: nat)
    requires j < |jobs| && jobs[j].Replied?
    requires forall p | 0 <= p < |outbox| :: outbox[p].job < |jobs| && jobs[outbox[p].job].Replied?
    requires forall p, q | 0 <= p < q < |outbox| :: outbox[p].job != outbox[q].job
    requires |outbox| >= Count(jobs, IsReplied)
    ensures exists p :: 0 <= p < |outbox| && outbox[p].job == j
    decreases |outbox|
  {
    CountUpdate(jobs, j, Queued, IsReplied);
    var p := |outbox| - 1;
    if outbox[p].job != j && (forall q | 0 <= q < p :: outbox[q].job != j) {
      var less := jobs[outbox[p].job := Queued];
      CountUpdate(jobs, outbox[p].job, Queued, IsReplied);
      forall q | 0 <= q < p ensures less[outbox[q].job].Replied? { assert outbox[q].job != outbox[p].job; }
      RepliedIsPosted(less, outbox[..p], j);
    }
  }

  lemma {:induction false} PostedAnswers(s: Server, p: nat)
    requires Inv(s) && p < |s.outbox|
    ensures
      var j := s.outbox[p].job;
      && j < |s.jobs| && s.jobs[j].Replied? && Owed(s.requests[j], s.jobs[j].why)
      && s.outbox[p].sent.key == s.requests[j].replyTo
      && s.outbox[p].sent.corr == s.requests[j].corr
      && DecodeRep(s.outbox[p].sent.body, s.requests[j].corr) == Ok(Answer(s.requests[j], s.jobs[j].why))
      && DecodeRep(s.outbox[p].sent.body, "") == Ok(Answer(s.requests[j], s.jobs[j].why))
  {}

  lemma {:induction false} CountsReplies(s: Server, j: nat)
    requires Inv(s) && j < |s.jobs|
    ensures RepliesOf(s.outbox, j) == if s.jobs[j].Replied? then 1 else 0
  {
    forall p | 0 <= p < |s.outbox|
      ensures s.outbox[p].job < |s.jobs| && s.jobs[s.outbox[p].job].Replied?
    {
      assert PostedInv(s, s.outbox[p]);
    }
    if s.jobs[j].Replied? {
      RepliedIsPosted(s.jobs, s.outbox, j);
      var p :| 0 <= p < |s.outbox| && s.outbox[p].job == j;
      OneReplyOf(s.outbox, p);
    } else {
      NoRepliesOf(s.outbox, j);
    }
  }

  /** Exactly once, in every reachable state and under every pool schedule.  A delivery that no
      worker has finished has no reply.  A finished one has exactly one reply if it is owed one, and
      none otherwise. */
  lemma {:induction false} ReplyExactlyOnce(s: Server, j: nat)
    requires Reachable(s) && j < |s.jobs|
    ensures |s.jobs| <= |s.requests|
    ensures
      match s.jobs[j]
      case Replied(why) => Accounts(s.requests[j], why) && Owed(s.requests[j], why) && RepliesOf(s.outbox, j) == 1
      case Abandoned(why, _) => Accounts(s.requests[j], why) && !Owed(s.requests[j], why) && RepliesOf(s.outbox, j) == 0
      case _ => RepliesOf(s.outbox, j) == 0
  {
    ReachableInv(s);
    assert JobInv(s.requests[j], s.jobs[j]);
    CountsReplies(s, j);
  }

  /** Every published reply goes to its request's own reply-to with its own id, and decodes to the
      request's own answer. */
  lemma {:induction false} RepliesAreOwn(s: Server, p: nat)
    requires Reachable(s) && p < |s.outbox|
    ensures
      var j := s.outbox[p].job;
      && j < |s.jobs| <= |s.requests| && s.jobs[j].Replied? && Owed(s.requests[j], s.jobs[j].why)
      && s.outbox[p].sent.key == s.requests[j].replyTo
      && s.outbox[p].sent.corr == s.requests[j].corr
      && DecodeRep(s.outbox[p].sent.body, s.requests[j].corr) == Ok(Answer(s.requests[j], s.jobs[j].why))
  {
    ReachableInv(s);
    PostedAnswers(s, p);
  }

  // ---------------------------------------------------------------- one worker on its own

  ghost predicate CanServe(s: Server, j: nat, outcome: Outcome) {
    && Enabled(s, Start(j))
    && var req := DecodeDelivery(s.requests[j]);
    && (req.Ok? ==> Possible(Slot(s.rpc, req.value.meth), req.value, outcome))
  }

  /** The steps of one worker in a row, with nothing in between. */
  ghost function RunWorker(s: Server, j: nat, outcome: Outcome): Server
    requires CanServe(s, j, outcome)
  {
    var a := Apply(s, Start(j));
    var b := if a.jobs[j].Looking? then Apply(a, Find(j)) else a;
    var c := if b.jobs[j].Calling? then Apply(b, Call(j, outcome)) else b;
    Finish(c, j)
  }

  ghost function Finish(s: Server, j: nat): Server
    requires j < |s.jobs|
  {
    if s.jobs[j].Ready? then Apply(s, SendReply(j)) else s
  }

  /** From s to t, job j and nothing else ended with this reply or this failure. */
  ghost predicate EndedWith(s: Server, t: Server, j: nat, served: Result<Sent>)
    requires j < |s.jobs|
  {
    && t.requests == s.requests && t.rpc == s.rpc && t.registered == s.registered
    && |t.jobs| == |s.jobs| && t.jobs == s.jobs[j := t.jobs[j]]
    && match served
       case Ok(sent) => t.jobs[j].Replied? && t.outbox == s.outbox + [Posted(j, sent)]
       case Err(e) => t.jobs[j].Abandoned? && t.jobs[j].failure == e && t.outbox == s.outbox
  }

  lemma {:induction false} FinishEnds(s: Server, j: nat, res: Res, why: Cause)
    requires j < |s.jobs|
    ensures EndedWith(s, Finish(s.(jobs := s.jobs[j := Ready(res, why)]), j), j, ReplyFor(res))
  {}

  lemma {:induction false} CallEnds(s: Server, j: nat, req: Request, outcome: Outcome)
    requires j < |s.jobs| <= |s.requests| && req.meth in s.rpc && Possible(s.rpc[req.meth], req, outcome)
    ensures
      var c := Apply(s.(jobs := s.jobs[j := Calling(req)]), Call(j, outcome));
      EndedWith(s, Finish(c, j), j,
        match Invoke(s.rpc[req.meth], req.args, outcome, InitialRes(s.requests[j]))
        case Err(e) => Err(e)
        case Ok(res) => ReplyFor(res))
  {}

  /** The steps split `_rpc_worker` and `send_reply` without changing them: in a row they publish
      what `Serve` says for the request of job j, and touch no other job and no binding. */
  lemma {:induction false} WorkerAlone(s: Server, j: nat, outcome: Outcome)
    requires CanServe(s, j, outcome)
    ensures EndedWith(s, RunWorker(s, j, outcome), j, Serve(s.rpc, s.requests[j], outcome))
  {
    var env := s.requests[j];
    var a := Apply(s, Start(j));
    if a.jobs[j].Ready? {
      FinishEnds(s, j, a.jobs[j].res, Keywords);
    } else if a.jobs[j].Looking? {
      var req := a.jobs[j].req;
      var b := Apply(a, Find(j));
      if req.meth in s.rpc {
        assert b == s.(jobs := s.jobs[j := Calling(req)]);
        CallEnds(s, j, req, outcome);
      } else {
        assert b == s.(jobs := s.jobs[j := Ready(InitialRes(env), Unknown)]);
        FinishEnds(s, j, InitialRes(env), Unknown);
      }
    }
  }
}
