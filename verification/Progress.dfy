/** Waiting under a lock does not deadlock the client: `call` waits for its reply while it holds
    `req_events_mtx`, and still some thread can always step towards finishing every call. */
module Progress {
  import opened Wrappers
  import opened Slots
  import opened RpcClient
  import opened ClientTable

  // ---------------------------------------------------------------- who holds the other locks

  predicate HoldsGate(pc: PubPc) {
    pc.AtGate? || pc.Parking? || pc.WantChannel? || pc.Publishing?
  }

  ghost predicate LockInv(s: Client) {
    && (forall i | 0 <= i < |s.calls| :: s.calls[i].pc.Sending? <==> s.sendOwner == Some(ByCall(i)))
    && (forall p | 0 <= p < |s.gate.pubs| :: s.gate.pubs[p].pc.Publishing? <==> s.sendOwner == Some(ByPub(p)))
    && (forall p | 0 <= p < |s.gate.pubs| :: HoldsGate(s.gate.pubs[p].pc) <==> s.gate.owner == Some(p))
    && (s.gate.owner.Some? ==> s.gate.owner.value < |s.gate.pubs|)
    && (s.sendOwner.Some? ==>
          match s.sendOwner.value
          case ByCall(i) => i < |s.calls|
          case ByPub(p) => p < |s.gate.pubs|)
  }

  lemma {:induction false} CallStepKeepsLocks(cfg: Config, s: Client, i: nat)
    requires LockInv(s) && CallEnabled(s, i)
    ensures LockInv(StepCall(cfg, s, i))
  {}

  lemma {:induction false} PubStepKeepsLocks(s: Client, p: nat)
    requires LockInv(s) && PubEnabled(s, p)
    ensures LockInv(StepPub(s, p))
  {}

  /** Wakeups and notifications move threads between points where they hold the same locks. */
  lemma {:induction false} OtherStepKeepsLocks(s: Client, t: Client)
    requires LockInv(s) && t.sendOwner == s.sendOwner && t.gate.owner == s.gate.owner
    requires |t.calls| == |s.calls| && |t.gate.pubs| == |s.gate.pubs|
    requires forall i | 0 <= i < |s.calls| :: t.calls[i].pc.Sending? == s.calls[i].pc.Sending?
    requires forall p | 0 <= p < |s.gate.pubs| ::
      && t.gate.pubs[p].pc.Publishing? == s.gate.pubs[p].pc.Publishing?
      && HoldsGate(t.gate.pubs[p].pc) == HoldsGate(s.gate.pubs[p].pc)
    ensures LockInv(t)
  {}

  lemma {:induction false} StartKeepsLocks(cfg: Config, s: Client, step: Step)
    requires LockInv(s) && Enabled(cfg, s, step) && (step.StartCall? || step.StartPublish?)
    ensures LockInv(Apply(cfg, s, step))
  {}

  lemma {:induction false} EventKeepsLocks(s: Client)
    requires LockInv(s) && EventEnabled(s)
    ensures LockInv(StepEvent(s))
  {
    OtherStepKeepsLocks(s, StepEvent(s));
  }

  lemma {:induction false} StepKeepsLocks(cfg: Config, s: Client, step: Step)
    requires LockInv(s) && Enabled(cfg, s, step)
    ensures LockInv(Apply(cfg, s, step))
  {
    match step
    case StartCall(_, _, _, _) => StartKeepsLocks(cfg, s, step);
    case CallStep(i) => CallStepKeepsLocks(cfg, s, i);
    case EventStep => EventKeepsLocks(s);
    case StartPublish(_, _, _) => StartKeepsLocks(cfg, s, step);
    case PubStep(p) => PubStepKeepsLocks(s, p);
    case _ => OtherStepKeepsLocks(s, Apply(cfg, s, step));
  }

  lemma {:induction false} FollowsKeepsLocks(cfg: Config, s: Client, t: Client)
    requires LockInv(s) && Follows(cfg, s, t)
    ensures LockInv(t)
  {
    var step :| Takes(cfg, s, step, t);
    StepKeepsLocks(cfg, s, step);
  }

  lemma {:induction false} RunKeepsLocks(cfg: Config, run: seq<Client>, n: nat)
    requires IsRun(cfg, run) && n < |run|
    ensures LockInv(run[n])
  {
    if n > 0 {
      RunKeepsLocks(cfg, run, n - 1);
      assert Follows(cfg, run[n - 1], run[n]);
      FollowsKeepsLocks(cfg, run[n - 1], run[n]);
    }
  }

  lemma {:induction false} ReachableLocks(cfg: Config, s: Client)
    requires Reachable(cfg, s)
    ensures LockInv(s)
  {
    var run :| IsRun(cfg, run) && run[|run| - 1] == s;
    RunKeepsLocks(cfg, run, |run| - 1);
  }

  /** The acquisition order, in every reachable state: whoever still has to acquire a slot holds at
      most the table lock, whoever has to acquire the channel holds at most the gate, and whoever has
      to acquire the table or the gate holds nothing.  A parked publisher holds nothing either, and
      the event thread never holds the table. */
  lemma {:induction false} LockOrder(cfg: Config, s: Client)
    requires Reachable(cfg, s)
    ensures forall i | 0 <= i < |s.calls| ::
      var c := s.calls[i];
      && (c.pc.WantTable? || c.pc.WantResult? || c.pc.WantSend? ==>
            s.tableOwner != Some(i) && s.sendOwner != Some(ByCall(i))
            && (c.id in s.slots ==> s.slots[c.id].owner != Some(ByCaller)))
      && (c.pc.Indexing? || c.pc.Waiting? || c.pc.Woken? ==>
            s.tableOwner == Some(i) && s.sendOwner != Some(ByCall(i))
            && c.id in s.slots && s.slots[c.id].owner != Some(ByCaller))
    ensures forall p | 0 <= p < |s.gate.pubs| ::
      var pub := s.gate.pubs[p];
      && (pub.pc.WantGate? || pub.pc.Parked? || pub.pc.Unparked? ==>
            s.gate.owner != Some(p) && s.sendOwner != Some(ByPub(p)))
      && (pub.pc.WantChannel? ==> s.gate.owner == Some(p) && s.sendOwner != Some(ByPub(p)))
    ensures forall id | id in s.slots && !s.ev.Setting? :: s.slots[id].owner != Some(ByEvent)
  {
    ReachableInv(cfg, s);
    ReachableLocks(cfg, s);
    forall i | 0 <= i < |s.calls|
      ensures CallInv(s.calls[i], SlotOf(s.slots, s.calls[i].id), s.tableOwner == Some(i), s.received)
    {}
  }

  // ---------------------------------------------------------------- the measure

  /** How many more steps a call takes at most. */
  function Rank(pc: CallPc): nat {
    match pc
    case WantTable => 13
    case Registering => 12
    case WantSend => 11
    case Sending => 10
    case WantResult => 9
    case Indexing => 8
    case Checking => 7
    case Waiting => 6
    case Woken(_) => 5
    case Leaving(_) => 4
    case Taking => 3
    case Erasing(_) => 2
    case Deciding(_) => 1
    case Finished(_) => 0
  }

  function EventRank(ev: EventPc): nat {
    match ev
    case Found(_, _) => 3
    case Decoded(_, _) => 2
    case Setting(_, _) => 1
    case Idle => 0
  }

  function CallWork(calls: seq<Call>): nat {
    if calls == [] then 0 else CallWork(calls[..|calls| - 1]) + Rank(calls[|calls| - 1].pc)
  }

  /** Publishers that hold the channel. */
  function ChannelWork(pubs: seq<Pub>): nat {
    if pubs == [] then 0 else ChannelWork(pubs[..|pubs| - 1]) + if pubs[|pubs| - 1].pc.Publishing? then 1 else 0
  }

  function Work(s: Client): nat {
    CallWork(s.calls) + EventRank(s.ev) + ChannelWork(s.gate.pubs)
  }

  lemma {:induction false} CallWorkUpdate(calls: seq<Call>, i: nat, c: Call)
    requires i < |calls|
    ensures CallWork(calls[i := c]) == CallWork(calls) - Rank(calls[i].pc) + Rank(c.pc)
  {
    var n := |calls| - 1;
    if i < n {
      assert calls[i := c][..n] == calls[..n][i := c];
      CallWorkUpdate(calls[..n], i, c);
    } else {
      assert calls[i := c][..n] == calls[..n];
    }
  }

  lemma {:induction false} ChannelWorkUpdate(pubs: seq<Pub>, p: nat, pub: Pub)
    requires p < |pubs|
    ensures ChannelWork(pubs[p := pub]) ==
      ChannelWork(pubs) - (if pubs[p].pc.Publishing? then 1 else 0) + (if pub.pc.Publishing? then 1 else 0)
  {
    var n := |pubs| - 1;
    if p < n {
      assert pubs[p := pub][..n] == pubs[..n][p := pub];
      ChannelWorkUpdate(pubs[..n], p, pub);
    } else {
      assert pubs[p := pub][..n] == pubs[..n];
    }
  }

  lemma {:induction false} CallStepRank(cfg: Config, s: Client, i: nat)
    requires CallEnabled(s, i) && (NeedsSlot(s.calls[i].pc) || s.calls[i].pc.Indexing? ==> s.calls[i].id in s.slots)
    ensures
      var t := StepCall(cfg, s, i);
      t.calls == s.calls[i := s.calls[i].(pc := t.calls[i].pc)] && Rank(t.calls[i].pc) < Rank(s.calls[i].pc)
  {}

  lemma {:induction false} OtherThreadsKeepCalls(cfg: Config, s: Client, step: Step)
    requires Enabled(cfg, s, step) && !step.StartCall? && !step.CallStep? && !step.WakeCall?
    ensures Apply(cfg, s, step).calls == s.calls
  {}

  /** Every step of a call strictly lowers its own rank, and no step of any thread raises it: a call
      takes at most 13 steps, however the threads interleave. */
  lemma {:induction false} CallMeasure(cfg: Config, s: Client, step: Step, i: nat)
    requires Reachable(cfg, s) && Enabled(cfg, s, step) && i < |s.calls|
    ensures
      var t := Apply(cfg, s, step);
      && i < |t.calls| && t.calls[i].id == s.calls[i].id
      && Rank(t.calls[i].pc) <= Rank(s.calls[i].pc) <= 13
      && ((step == CallStep(i) || (step.WakeCall? && step.i == i)) ==> Rank(t.calls[i].pc) < Rank(s.calls[i].pc))
  {
    if step.CallStep? {
      if NeedsSlot(s.calls[step.i].pc) || s.calls[step.i].pc.Indexing? { SlotIsThere(cfg, s, step.i); }
      CallStepRank(cfg, s, step.i);
    } else if !step.StartCall? && !step.WakeCall? {
      OtherThreadsKeepCalls(cfg, s, step);
    }
  }

  lemma {:induction false} SlotIsThere(cfg: Config, s: Client, i: nat)
    requires Reachable(cfg, s) && i < |s.calls| && (NeedsSlot(s.calls[i].pc) || s.calls[i].pc.Indexing?)
    ensures s.calls[i].id in s.slots
  {
    ReachableInv(cfg, s);
    assert CallInv(s.calls[i], SlotOf(s.slots, s.calls[i].id), s.tableOwner == Some(i), s.received);
  }

  // ---------------------------------------------------------------- deadlock freedom

  ghost predicate Unfinished(s: Client) {
    exists i :: 0 <= i < |s.calls| && !s.calls[i].pc.Finished?
  }

  /** A step of a caller, a timeout, a step of the event thread, or a step of a publisher that
      holds the channel. */
  predicate IsProgress(s: Client, step: Step) {
    match step
    case CallStep(_) => true
    case WakeCall(_, kind) => kind.Timeout?
    case EventStep => true
    case PubStep(p) => p < |s.gate.pubs| && s.gate.pubs[p].pc.Publishing?
    case _ => false
  }

  lemma {:induction false} CallStepWorks(cfg: Config, s: Client, i: nat)
    requires Inv(s) && s.crash.None? && CallEnabled(s, i)
    ensures
      var t := StepCall(cfg, s, i);
      t.crash.None? && |t.calls| == |s.calls| && Work(t) < Work(s)
  {
    var t := StepCall(cfg, s, i);
    CallStepIsOwn(cfg, s, i);
    assert CallInv(s.calls[i], SlotOf(s.slots, s.calls[i].id), s.tableOwner == Some(i), s.received);
    CallStepRank(cfg, s, i);
    CallWorkUpdate(s.calls, i, t.calls[i]);
  }

  lemma {:induction false} TimeoutWorks(s: Client, i: nat)
    requires i < |s.calls| && s.calls[i].pc.Waiting? && s.calls[i].id in s.slots
    ensures Work(StepWake(s, i, Timeout)) < Work(s)
  {
    CallWorkUpdate(s.calls, i, StepWake(s, i, Timeout).calls[i]);
  }

  lemma {:induction false} PublishWorks(s: Client, p: nat)
    requires p < |s.gate.pubs| && s.gate.pubs[p].pc.Publishing?
    ensures Work(StepPub(s, p)) < Work(s)
  {
    ChannelWorkUpdate(s.gate.pubs, p, StepPub(s, p).gate.pubs[p]);
  }

  /** The holder of the table lock, or the event thread for its slot, can step. */
  lemma {:induction false} HolderCanStep(cfg: Config, s: Client) returns (step: Step)
    requires Inv(s) && s.crash.None? && s.tableOwner.Some?
    ensures IsProgress(s, step) && Enabled(cfg, s, step)
    ensures var t := Apply(cfg, s, step); t.crash.None? && |t.calls| == |s.calls| && Work(t) < Work(s)
  {
    var i := s.tableOwner.value;
    var c := s.calls[i];
    assert CallInv(c, SlotOf(s.slots, c.id), true, s.received);
    if c.pc.Waiting? {
      step := WakeCall(i, Timeout);
      TimeoutWorks(s, i);
    } else if c.id in s.slots && s.slots[c.id].owner == Some(ByEvent) {
      step := EventStep;
    } else {
      if c.id in s.slots { OwnerKinds(s.slots[c.id].owner); }
      step := CallStep(i);
      CallStepWorks(cfg, s, i);
    }
  }

  /** With the table free, an unfinished call or the holder of the channel can step. */
  lemma {:induction false} OtherCanStep(cfg: Config, s: Client, i: nat) returns (step: Step)
    requires Inv(s) && LockInv(s) && s.crash.None? && s.tableOwner.None?
    requires i < |s.calls| && !s.calls[i].pc.Finished?
    ensures IsProgress(s, step) && Enabled(cfg, s, step)
    ensures var t := Apply(cfg, s, step); t.crash.None? && |t.calls| == |s.calls| && Work(t) < Work(s)
  {
    assert CallInv(s.calls[i], SlotOf(s.slots, s.calls[i].id), false, s.received);
    if s.calls[i].pc.WantSend? && s.sendOwner.Some? {
      match s.sendOwner.value
      case ByCall(k) =>
        step := CallStep(k);
        CallStepWorks(cfg, s, k);
      case ByPub(p) =>
        step := PubStep(p);
        PublishWorks(s, p);
    } else {
      step := CallStep(i);
      CallStepWorks(cfg, s, i);
    }
  }

  /** Deadlock freedom.  In every reachable state with an unfinished call some thread can step, and
      can do so in a way that lowers the remaining work. */
  lemma {:induction false} DeadlockFree(cfg: Config, s: Client) returns (step: Step)
    requires Reachable(cfg, s) && s.crash.None? && Unfinished(s)
    ensures IsProgress(s, step) && Enabled(cfg, s, step)
    ensures var t := Apply(cfg, s, step); t.crash.None? && |t.calls| == |s.calls| && Work(t) < Work(s)
  {
    ReachableInv(cfg, s);
    ReachableLocks(cfg, s);
    if s.tableOwner.Some? {
      step := HolderCanStep(cfg, s);
    } else {
      var i :| 0 <= i < |s.calls| && !s.calls[i].pc.Finished?;
      step := OtherCanStep(cfg, s, i);
    }
  }

  /** From every reachable state the system can go on until every call has finished. */
  lemma {:induction false} CanFinish(cfg: Config, s: Client) returns (t: Client)
    requires Reachable(cfg, s) && s.crash.None?
    ensures Reachable(cfg, t) && t.crash.None? && |t.calls| == |s.calls|
    ensures forall i | 0 <= i < |t.calls| :: t.calls[i].pc.Finished?
    decreases Work(s)
  {
    t := s;
    if Unfinished(s) {
      var step := DeadlockFree(cfg, s);
      ReachableStep(cfg, s, step);
      t := CanFinish(cfg, Apply(cfg, s, step));
    }
  }

  // ---------------------------------------------------------------- publishers

  /** With the flag up, publisher p is not about to wait, and does not wait unnotified. */
  ghost predicate WillPass(s: Client, p: nat) {
    && p < |s.gate.pubs| && s.gate.inited
    && s.gate.pubs[p].pc != Parking && s.gate.pubs[p].pc != Parked(false)
  }

  function PubRank(pc: PubPc): nat {
    match pc
    case Looking => 11
    case Declaring => 10
    case Binding => 9
    case Inserting => 8
    case WantGate => 7
    case AtGate => 6
    case Parking => 5
    case Parked(_) => 4
    case Unparked => 3
    case WantChannel => 2
    case Publishing => 1
    case Done => 0
  }

  /** What publisher p and whoever stands in its way have still to do. */
  ghost function PubWork(s: Client, p: nat): nat
    requires p < |s.gate.pubs|
  {
    30 * PubRank(s.gate.pubs[p].pc)
    + (if s.gate.owner.Some? && s.gate.owner.value != p && s.gate.owner.value < |s.gate.pubs|
       then 2 * PubRank(s.gate.pubs[s.gate.owner.value].pc) else 0)
    + if s.sendOwner.Some? then 1 else 0
  }

  /** The step brings publisher p nearer to its end. */
  ghost predicate Advances(cfg: Config, s: Client, step: Step, p: nat)
    requires p < |s.gate.pubs|
  {
    && Enabled(cfg, s, step)
    && var t := Apply(cfg, s, step);
    && t.crash.None? && WillPass(t, p) && PubWork(t, p) < PubWork(s, p)
  }

  lemma {:induction false} SenderAdvances(cfg: Config, s: Client, p: nat) returns (step: Step)
    requires LockInv(s) && s.crash.None? && WillPass(s, p) && s.sendOwner.Some?
    requires s.sendOwner != Some(ByPub(p))
    ensures Advances(cfg, s, step, p)
  {
    match s.sendOwner.value
    case ByCall(i) => step := CallStep(i);
    case ByPub(q) => step := PubStep(q);
  }

  /** Whoever holds the gate can step, or the holder of the channel can. */
  lemma {:induction false} HolderAdvances(cfg: Config, s: Client, p: nat) returns (step: Step)
    requires LockInv(s) && s.crash.None? && WillPass(s, p)
    requires s.gate.owner.Some? && s.gate.owner.value != p
    ensures Advances(cfg, s, step, p)
  {
    var q := s.gate.owner.value;
    assert HoldsGate(s.gate.pubs[q].pc) && !HoldsGate(s.gate.pubs[p].pc);
    if s.gate.pubs[q].pc.WantChannel? && s.sendOwner.Some? {
      step := SenderAdvances(cfg, s, p);
    } else {
      step := PubStep(q);
    }
  }

  lemma {:induction false} PubWorkBounds(s: Client, p: nat)
    requires p < |s.gate.pubs|
    ensures 30 * PubRank(s.gate.pubs[p].pc) <= PubWork(s, p) <= 30 * PubRank(s.gate.pubs[p].pc) + 23
  {}

  lemma {:induction false} OwnStepLowersRank(s: Client, p: nat)
    requires WillPass(s, p) && PubEnabled(s, p)
    ensures
      var t := StepPub(s, p);
      WillPass(t, p) && t.crash == s.crash && PubRank(t.gate.pubs[p].pc) < PubRank(s.gate.pubs[p].pc)
  {}

  lemma {:induction false} OwnStepAdvances(cfg: Config, s: Client, p: nat)
    requires LockInv(s) && s.crash.None? && WillPass(s, p) && PubEnabled(s, p)
    ensures Advances(cfg, s, PubStep(p), p)
  {
    OwnStepLowersRank(s, p);
    PubWorkBounds(s, p);
    PubWorkBounds(StepPub(s, p), p);
  }

  lemma {:induction false} PublisherAdvances(cfg: Config, s: Client, p: nat) returns (step: Step)
    requires LockInv(s) && s.crash.None? && WillPass(s, p) && !s.gate.pubs[p].pc.Done?
    ensures Advances(cfg, s, step, p)
  {
    var pc := s.gate.pubs[p].pc;
    if pc.Parked? {
      step := WakePub(p);
    } else if (pc.WantGate? || pc.Unparked?) && s.gate.owner.Some? {
      step := HolderAdvances(cfg, s, p);
    } else if pc.WantChannel? && s.sendOwner.Some? {
      step := SenderAdvances(cfg, s, p);
    } else {
      step := PubStep(p);
      OwnStepAdvances(cfg, s, p);
    }
  }

  /** Once the flag is up, every publisher that has not missed it can finish, whatever the other threads
      are at. */
  lemma {:induction false} PublisherCanFinish(cfg: Config, s: Client, p: nat) returns (t: Client)
    requires Reachable(cfg, s) && s.crash.None? && WillPass(s, p)
    ensures Reachable(cfg, t) && p < |t.gate.pubs| && t.gate.pubs[p].pc.Done?
    decreases PubWork(s, p)
  {
    t := s;
    if !s.gate.pubs[p].pc.Done? {
      ReachableLocks(cfg, s);
      var step := PublisherAdvances(cfg, s, p);
      ReachableStep(cfg, s, step);
      t := PublisherCanFinish(cfg, Apply(cfg, s, step), p);
    }
  }
}
