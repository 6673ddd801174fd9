/** Is the unlocked response path of `on_response` safe?  The event thread finds a slot, decodes the
    reply, and then indexes the table again, while callers erase their slots. */
module SlotSafety {
  import opened Wrappers
  import opened Json
  import opened RpcUtils
  import opened Worker
  import opened Slots
  import opened RpcClient
  import opened ClientTable

  /** At most one reply per id. */
  ghost predicate OneReplyPerId(received: seq<Message>) {
    forall k, l | 0 <= k < l < |received| :: received[k].corr != received[l].corr
  }

  /** The reply with this id was received, and the event thread is done with it. */
  ghost predicate Settled(ev: EventPc, received: seq<Message>, id: string) {
    Handled(ev) != Some(id) && exists k :: 0 <= k < |received| && received[k].corr == id
  }

  /** The call has left its wait other than by a timeout, or never waited, and is using the slot. */
  predicate HasResult(pc: CallPc) {
    pc == Woken(false) || pc == Leaving(false) || pc.Taking?
  }

  /** The call has erased its slot. */
  predicate Erased(pc: CallPc) {
    pc.Deciding? || (pc.Finished? && (pc.out.Returned? || pc.out.Threw? || pc.out.ParseFailed?))
  }

  ghost predicate Safe(c: Call, slot: Option<Slot>, ev: EventPc, received: seq<Message>) {
    && (slot.Some? && !c.pc.Erasing? && (slot.value.done || slot.value.notified) ==>
          Settled(ev, received, c.id) && slot.value.result.result.Dump?)
    && (!c.unnotified ==>
        && (HasResult(c.pc) || c.pc.Erasing? || Erased(c.pc) ==> Settled(ev, received, c.id))
        && (HasResult(c.pc) ==> slot.Some? && slot.value.result.result.Dump?)
        && (c.pc.Erasing? || c.pc.Deciding? ==> c.pc.ret.result.Dump?)
        && c.pc != Finished(ParseFailed))
  }

  ghost predicate AllSafe(s: Client) {
    forall i | 0 <= i < |s.calls| :: Safe(s.calls[i], SlotOf(s.slots, s.calls[i].id), s.ev, s.received)
  }

  // ---------------------------------------------------------------- steps

  lemma {:induction false} OwnStepKeepsSafe(s: Client, t: Client, i: nat, c: Call, slot: Option<Slot>)
    requires Inv(s) && AllSafe(s) && OwnStep(s, t, i, c, slot)
    requires Safe(c, slot, s.ev, s.received)
    ensures AllSafe(t)
  {}

  lemma {:induction false} SlotStepIsSafe(c: Call, slot: Slot, ev: EventPc, received: seq<Message>)
    requires Safe(c, Some(slot), ev, received)
    requires c.pc.Indexing? || (NeedsSlot(c.pc) && !c.pc.Waiting?)
    ensures
      var (pc, slot') := SlotStep(c.pc, slot);
      Safe(c.(pc := pc), Some(slot'), ev, received)
  {}

  /** The part that concerns only the call itself. */
  lemma {:induction false} CallStepIsSafe(cfg: Config, s: Client, i: nat)
    requires CallEnabled(s, i)
    requires
      var c := s.calls[i];
      && CallInv(c, SlotOf(s.slots, c.id), s.tableOwner == Some(i), s.received)
      && Safe(c, SlotOf(s.slots, c.id), s.ev, s.received)
    ensures
      var t := StepCall(cfg, s, i);
      Safe(t.calls[i], SlotOf(t.slots, s.calls[i].id), s.ev, s.received)
  {
    var c := s.calls[i];
    if c.pc.Indexing? || NeedsSlot(c.pc) {
      SlotStepIsSafe(c, s.slots[c.id], s.ev, s.received);
    }
  }

  lemma {:induction false} CallStepKeepsSafe(cfg: Config, s: Client, i: nat)
    requires Inv(s) && AllSafe(s) && CallEnabled(s, i)
    ensures AllSafe(StepCall(cfg, s, i))
  {
    var t := StepCall(cfg, s, i);
    var c := s.calls[i];
    CallStepIsOwn(cfg, s, i);
    CallStepIsSafe(cfg, s, i);
    OwnStepKeepsSafe(s, t, i, t.calls[i], SlotOf(t.slots, c.id));
  }

  lemma {:induction false} WakeKeepsSafe(cfg: Config, s: Client, i: nat, kind: WakeKind)
    requires Inv(s) && AllSafe(s) && WakeEnabled(cfg, s, i, kind)
    ensures AllSafe(StepWake(s, i, kind))
  {}

  lemma {:induction false} ReceiveKeepsSafe(s: Client, msg: Message)
    requires Inv(s) && AllSafe(s) && s.ev.Idle? && OneReplyPerId(s.received + [msg])
    ensures AllSafe(StepReceive(s, msg))
  {
    var t := StepReceive(s, msg);
    forall id | Settled(s.ev, s.received, id) ensures Settled(t.ev, t.received, id) {
      var k :| 0 <= k < |s.received| && s.received[k].corr == id;
      assert t.received[k].corr == id && t.received[|s.received|].corr == msg.corr;
    }
    forall k | 0 <= k < |t.calls|
      ensures Safe(t.calls[k], SlotOf(t.slots, t.calls[k].id), t.ev, t.received)
    {
      assert Safe(s.calls[k], SlotOf(s.slots, s.calls[k].id), s.ev, s.received);
    }
  }

  lemma {:induction false} EventStepKeepsSafe(s: Client)
    requires Inv(s) && AllSafe(s) && EventEnabled(s)
    ensures AllSafe(StepEvent(s))
  {
    var t := StepEvent(s);
    forall k | 0 <= k < |t.calls|
      ensures Safe(t.calls[k], SlotOf(t.slots, t.calls[k].id), t.ev, t.received)
    {
      assert Safe(s.calls[k], SlotOf(s.slots, s.calls[k].id), s.ev, s.received);
      if s.ev.Setting? && s.ev.id == s.calls[k].id {
        var last := s.received[|s.received| - 1];
        DecodedRepParses(last.body, "");
        assert last.corr == s.ev.id;
      }
    }
  }

  lemma {:induction false} StartCallKeepsSafe(cfg: Config, s: Client, step: Step)
    requires Inv(s) && AllSafe(s) && Enabled(cfg, s, step) && step.StartCall?
    ensures AllSafe(Apply(cfg, s, step))
  {
    var t := Apply(cfg, s, step);
    forall k | 0 <= k < |t.calls|
      ensures Safe(t.calls[k], SlotOf(t.slots, t.calls[k].id), t.ev, t.received)
    {
      if k < |s.calls| {
        assert Safe(s.calls[k], SlotOf(s.slots, s.calls[k].id), s.ev, s.received);
      } else if step.meth != "" {
        assert step.id !in s.slots;
      }
    }
  }

  lemma {:induction false} StepKeepsSafe(cfg: Config, s: Client, step: Step)
    requires Inv(s) && AllSafe(s) && Enabled(cfg, s, step)
    requires OneReplyPerId(Apply(cfg, s, step).received)
    ensures AllSafe(Apply(cfg, s, step))
  {
    match step
    case StartCall(_, _, _, _) => StartCallKeepsSafe(cfg, s, step);
    case CallStep(i) => CallStepKeepsSafe(cfg, s, i);
    case WakeCall(i, kind) => WakeKeepsSafe(cfg, s, i, kind);
    case Receive(msg) => ReceiveKeepsSafe(s, msg);
    case EventStep => EventStepKeepsSafe(s);
    case _ => GateStepKeepsTable(cfg, s, step);
  }

  /** Messages are only ever added. */
  lemma {:induction false} OneReplyBefore(cfg: Config, s: Client, t: Client)
    requires Follows(cfg, s, t) && OneReplyPerId(t.received)
    ensures OneReplyPerId(s.received)
  {
    assert s.received <= t.received;
    forall k, l | 0 <= k < l < |s.received| ensures s.received[k].corr != s.received[l].corr {
      assert t.received[k].corr != t.received[l].corr;
    }
  }

  lemma {:induction false} FollowsKeepsSafe(cfg: Config, s: Client, t: Client)
    requires Inv(s) && AllSafe(s) && Follows(cfg, s, t) && OneReplyPerId(t.received)
    ensures AllSafe(t)
  {
    var step :| Takes(cfg, s, step, t);
    StepKeepsSafe(cfg, s, step);
  }

  lemma {:induction false} RunKeepsSafe(cfg: Config, run: seq<Client>, n: nat)
    requires IsRun(cfg, run) && n < |run| && OneReplyPerId(run[n].received)
    ensures AllSafe(run[n])
  {
    if n > 0 {
      assert Follows(cfg, run[n - 1], run[n]);
      OneReplyBefore(cfg, run[n - 1], run[n]);
      RunKeepsSafe(cfg, run, n - 1);
      RunKeepsInv(cfg, run, n - 1);
      FollowsKeepsSafe(cfg, run[n - 1], run[n]);
    }
  }

  lemma {:induction false} ReachableSafe(cfg: Config, s: Client)
    requires Reachable(cfg, s) && OneReplyPerId(s.received)
    ensures AllSafe(s)
  {
    var run :| IsRun(cfg, run) && run[|run| - 1] == s;
    RunKeepsSafe(cfg, run, |run| - 1);
  }

  // ---------------------------------------------------------------- the exact condition

  /** The call with this id was woken without a notification, and has erased its slot. */
  ghost predicate ErasedUnnotified(s: Client, id: string) {
    exists i :: 0 <= i < |s.calls| && s.calls[i].id == id && s.calls[i].unnotified && Erased(s.calls[i].pc)
  }

  /** With distinct ids and at most one reply per id, the slot that the event thread found is gone
      exactly when its own call left the wait by a spurious wakeup and has already erased it. */
  lemma {:induction false} SlotMissingExactly(cfg: Config, s: Client, id: string)
    requires Reachable(cfg, s) && OneReplyPerId(s.received) && Handled(s.ev) == Some(id)
    ensures id !in s.slots <==> ErasedUnnotified(s, id)
  {
    ReachableInv(cfg, s);
    ReachableSafe(cfg, s);
    MissingExactly(s, id);
  }

  lemma {:induction false} MissingExactly(s: Client, id: string)
    requires Inv(s) && AllSafe(s) && Handled(s.ev) == Some(id)
    ensures id !in s.slots <==> ErasedUnnotified(s, id)
  {}

  ghost predicate AllNotified(s: Client) {
    forall i | 0 <= i < |s.calls| :: !s.calls[i].unnotified
  }

  lemma {:induction false} StepNotified(cfg: Config, s: Client, step: Step)
    requires !cfg.spurious && AllNotified(s) && Enabled(cfg, s, step)
    ensures AllNotified(Apply(cfg, s, step))
  {}

  lemma {:induction false} StepNoNullSlot(cfg: Config, s: Client, step: Step)
    requires Inv(s) && AllSafe(s) && AllNotified(s) && Enabled(cfg, s, step)
    ensures Apply(cfg, s, step).crash != Some(NullSlot)
  {
    match step
    case CallStep(i) => CallStepKeepsInv(cfg, s, i);
    case EventStep => MissingExactly(s, Handled(s.ev).value);
    case _ =>
  }

  lemma {:induction false} FollowsNotified(cfg: Config, s: Client, t: Client)
    requires !cfg.spurious && AllNotified(s) && Follows(cfg, s, t)
    ensures AllNotified(t)
  {
    var step :| Takes(cfg, s, step, t);
    StepNotified(cfg, s, step);
  }

  lemma {:induction false} RunNotified(cfg: Config, run: seq<Client>, n: nat)
    requires IsRun(cfg, run) && n < |run| && !cfg.spurious
    ensures AllNotified(run[n])
  {
    if n > 0 {
      RunNotified(cfg, run, n - 1);
      assert Follows(cfg, run[n - 1], run[n]);
      FollowsNotified(cfg, run[n - 1], run[n]);
    }
  }

  lemma {:induction false} FollowsNoNullSlot(cfg: Config, s: Client, t: Client)
    requires Inv(s) && AllSafe(s) && AllNotified(s) && Follows(cfg, s, t)
    ensures t.crash != Some(NullSlot)
  {
    var step :| Takes(cfg, s, step, t);
    StepNoNullSlot(cfg, s, step);
  }

  lemma {:induction false} RunNoNullSlot(cfg: Config, run: seq<Client>, n: nat)
    requires IsRun(cfg, run) && n < |run| && !cfg.spurious && OneReplyPerId(run[n].received)
    ensures run[n].crash != Some(NullSlot)
  {
    if n > 0 {
      assert Follows(cfg, run[n - 1], run[n]);
      OneReplyBefore(cfg, run[n - 1], run[n]);
      RunKeepsInv(cfg, run, n - 1);
      RunKeepsSafe(cfg, run, n - 1);
      RunNotified(cfg, run, n - 1);
      FollowsNoNullSlot(cfg, run[n - 1], run[n]);
    }
  }

  /** Slot safety of the unlocked response path.  Given distinct ids, at most one reply per id and
      no spurious wakeups: whatever the interleaving, from the find to the indexed set the slot is
      registered, and the process never dereferences a missing slot. */
  lemma {:induction false} SlotSafe(cfg: Config, s: Client)
    requires Reachable(cfg, s) && !cfg.spurious && OneReplyPerId(s.received)
    ensures !s.ev.Idle? ==> Handled(s.ev).value in s.slots
    ensures s.crash != Some(NullSlot)
  {
    var run :| IsRun(cfg, run) && run[|run| - 1] == s;
    RunNotified(cfg, run, |run| - 1);
    RunNoNullSlot(cfg, run, |run| - 1);
    if !s.ev.Idle? { SlotMissingExactly(cfg, s, Handled(s.ev).value); }
  }

  /** Without spurious wakeups no call ends by failing to parse its result. */
  lemma {:induction false} NoParseFailure(cfg: Config, s: Client, i: nat)
    requires Reachable(cfg, s) && !cfg.spurious && OneReplyPerId(s.received) && i < |s.calls|
    ensures s.calls[i].pc != Finished(ParseFailed)
  {
    var run :| IsRun(cfg, run) && run[|run| - 1] == s;
    RunNotified(cfg, run, |run| - 1);
    ReachableSafe(cfg, s);
    assert Safe(s.calls[i], SlotOf(s.slots, s.calls[i].id), s.ev, s.received);
  }

  // ---------------------------------------------------------------- what `unnotified` means

  predicate PastWait(pc: CallPc) {
    HasResult(pc) || pc.Woken? || pc.Leaving? || pc.Erasing? || pc.Deciding? || pc.Finished?
  }

  /** Step number k of the run wakes call i without a notification. */
  ghost predicate WakesSpuriously(cfg: Config, run: seq<Client>, k: int, i: nat) {
    0 <= k && k + 1 < |run| && Takes(cfg, run[k], WakeCall(i, Spurious), run[k + 1])
  }

  /** What a step does to the record of call i. */
  ghost predicate Records(s: Client, step: Step, t: Client, i: nat) {
    && i < |s.calls| && i < |t.calls|
    && (PastWait(s.calls[i].pc) ==> PastWait(t.calls[i].pc) && t.calls[i].unnotified == s.calls[i].unnotified)
    && (t.calls[i].unnotified && !s.calls[i].unnotified ==> step == WakeCall(i, Spurious))
    && (step == WakeCall(i, Spurious) ==> t.calls[i].unnotified && PastWait(t.calls[i].pc))
  }

  lemma {:induction false} CallStepRecords(cfg: Config, s: Client, k: nat, i: nat)
    requires CallEnabled(s, k) && i < |s.calls|
    ensures Records(s, CallStep(k), StepCall(cfg, s, k), i)
  {}

  lemma {:induction false} StepRecordsWake(cfg: Config, s: Client, step: Step, t: Client, i: nat)
    requires Takes(cfg, s, step, t) && i < |s.calls|
    ensures Records(s, step, t, i)
  {
    if step.CallStep? {
      CallStepRecords(cfg, s, step.i, i);
    } else if IsGateStep(step) {
      GateStepKeepsTable(cfg, s, step);
    }
  }

  lemma {:induction false} WakeIsRecorded(cfg: Config, run: seq<Client>, k: int, n: nat, i: nat)
    requires IsRun(cfg, run) && k < n < |run| && WakesSpuriously(cfg, run, k, i)
    ensures i < |run[n].calls| && run[n].calls[i].unnotified && PastWait(run[n].calls[i].pc)
    decreases n
  {
    if k + 1 == n {
      StepRecordsWake(cfg, run[k], WakeCall(i, Spurious), run[n], i);
    } else {
      WakeIsRecorded(cfg, run, k, n - 1, i);
      assert Follows(cfg, run[n - 1], run[n]);
      var step :| Takes(cfg, run[n - 1], step, run[n]);
      StepRecordsWake(cfg, run[n - 1], step, run[n], i);
    }
  }

  lemma {:induction false} RecordedWake(cfg: Config, run: seq<Client>, n: nat, i: nat) returns (k: int)
    requires IsRun(cfg, run) && n < |run| && i < |run[n].calls| && run[n].calls[i].unnotified
    ensures k < n && WakesSpuriously(cfg, run, k, i)
    decreases n
  {
    assert Follows(cfg, run[n - 1], run[n]);
    var step :| Takes(cfg, run[n - 1], step, run[n]);
    if i < |run[n - 1].calls| {
      StepRecordsWake(cfg, run[n - 1], step, run[n], i);
      if run[n - 1].calls[i].unnotified {
        k := RecordedWake(cfg, run, n - 1, i);
      } else {
        k := n - 1;
      }
    }
  }

  /** Over every run the record of a call says that it was woken without a notification iff some step
      did that. */
  lemma {:induction false} UnnotifiedExactly(cfg: Config, run: seq<Client>, n: nat, i: nat)
    requires IsRun(cfg, run) && n < |run| && i < |run[n].calls|
    ensures run[n].calls[i].unnotified <==> exists k :: k < n && WakesSpuriously(cfg, run, k, i)
  {
    if run[n].calls[i].unnotified {
      var k := RecordedWake(cfg, run, n, i);
    }
    forall k | k < n && WakesSpuriously(cfg, run, k, i) ensures run[n].calls[i].unnotified {
      WakeIsRecorded(cfg, run, k, n, i);
    }
  }

  // ---------------------------------------------------------------- with spurious wakeups

  /** Taking one step of call i from a reachable state. */
  lemma {:induction false} TakeStep(cfg: Config, s: Client, i: nat) returns (t: Client)
    requires Reachable(cfg, s) && s.crash.None? && CallEnabled(s, i)
    ensures t == StepCall(cfg, s, i) && Reachable(cfg, t) && t.crash.None?
  {
    assert Enabled(cfg, s, CallStep(i));
    t := Apply(cfg, s, CallStep(i));
    ReachableStep(cfg, s, CallStep(i));
    ReachableInv(cfg, s);
    CallStepKeepsInv(cfg, s, i);
  }

  lemma {:induction false} TakeEventStep(cfg: Config, s: Client) returns (t: Client)
    requires Reachable(cfg, s) && s.crash.None? && EventEnabled(s)
    ensures t == StepEvent(s) && Reachable(cfg, t)
  {
    assert Enabled(cfg, s, EventStep);
    t := Apply(cfg, s, EventStep);
    ReachableStep(cfg, s, EventStep);
  }

  lemma {:induction false} WokenCanTake(cfg: Config, s: Client, i: nat) returns (t: Client)
    requires Reachable(cfg, s) && s.crash.None? && i < |s.calls|
    requires s.calls[i].pc == Woken(false) && s.calls[i].id in s.slots && s.slots[s.calls[i].id].owner.None?
    ensures Reachable(cfg, t) && t.crash.None? && i < |t.calls|
    ensures t.ev == s.ev && t.received == s.received
    ensures t.calls[i] == s.calls[i].(pc := Taking) && s.calls[i].id in t.slots
  {
    t := TakeStep(cfg, s, i);
    assert t.calls[i] == s.calls[i].(pc := Leaving(false)) && s.calls[i].id in t.slots;
    t := TakeStep(cfg, t, i);
  }

  /** A woken call can go on to erase its slot while the event thread stands still. */
  lemma {:induction false} WokenCanErase(cfg: Config, s: Client, i: nat) returns (t: Client)
    requires Reachable(cfg, s) && s.crash.None? && i < |s.calls|
    requires s.calls[i].pc == Woken(false) && s.calls[i].id in s.slots && s.slots[s.calls[i].id].owner.None?
    ensures Reachable(cfg, t) && t.crash.None?
    ensures t.ev == s.ev && t.received == s.received && s.calls[i].id !in t.slots
  {
    t := WokenCanTake(cfg, s, i);
    t := TakeStep(cfg, t, i);
    assert t.calls[i].pc.Erasing? && t.calls[i].id == s.calls[i].id;
    t := TakeStep(cfg, t, i);
  }

  lemma {:induction false} FoundCanCrash(cfg: Config, s: Client) returns (t: Client)
    requires Reachable(cfg, s) && s.crash.None?
    requires s.ev.Found? && s.ev.id !in s.slots && DecodeRep(s.ev.body, "").Ok?
    ensures Reachable(cfg, t) && t.received == s.received && t.crash == Some(NullSlot)
  {
    t := TakeEventStep(cfg, s);
    assert t == s.(ev := Decoded(s.ev.id, DecodeRep(s.ev.body, "").value));
    t := TakeEventStep(cfg, t);
  }

  lemma {:induction false} WaitingSlotIsFree(cfg: Config, s: Client, i: nat)
    requires Reachable(cfg, s) && i < |s.calls| && s.calls[i].pc.Waiting? && !s.ev.Setting?
    ensures s.calls[i].id in s.slots && s.slots[s.calls[i].id].owner.None?
  {
    ReachableInv(cfg, s);
    var id := s.calls[i].id;
    assert CallInv(s.calls[i], SlotOf(s.slots, id), s.tableOwner == Some(i), s.received);
    assert id in s.slots && s.slots[id].owner != Some(ByEvent) && s.slots[id].owner != Some(ByCaller);
    OwnerKinds(s.slots[id].owner);
  }

  /** From every reachable state in which call i waits for the reply that the event thread has just
      found, one spurious wakeup can lead to a dereferenced missing slot. */
  lemma {:induction false} SpuriousWakeupCanCrash(cfg: Config, s: Client, i: nat) returns (t: Client)
    requires Reachable(cfg, s) && s.crash.None? && cfg.spurious
    requires i < |s.calls| && s.calls[i].pc.Waiting?
    requires s.ev.Found? && s.ev.id == s.calls[i].id && DecodeRep(s.ev.body, "").Ok?
    ensures Reachable(cfg, t) && t.received == s.received && t.crash == Some(NullSlot)
  {
    WaitingSlotIsFree(cfg, s, i);
    assert Enabled(cfg, s, WakeCall(i, Spurious));
    ReachableStep(cfg, s, WakeCall(i, Spurious));
    t := WokenCanErase(cfg, StepWake(s, i, Spurious), i);
    t := FoundCanCrash(cfg, t);
  }

  /** The first call of a client, once it has registered. */
  lemma {:induction false} FirstCallRegistered(cfg: Config, id: string) returns (t: Client)
    requires id != ""
    ensures Reachable(cfg, t)
    ensures t == INIT.(calls := [Call(cfg.rpcQueue, "add", [], id, WantSend, false)], slots := map[id := NEW_SLOT])
  {
    var start := StartCall(cfg.rpcQueue, "add", [], id);
    ReachableInit(cfg);
    assert Enabled(cfg, INIT, start);
    ReachableStep(cfg, INIT, start);
    t := Apply(cfg, INIT, start);
    assert t == INIT.(calls := [Call(cfg.rpcQueue, "add", [], id, WantTable, false)]);
    t := TakeStep(cfg, t, 0);
    assert t == INIT.(calls := [Call(cfg.rpcQueue, "add", [], id, Registering, false)], tableOwner := Some(0));
    t := TakeStep(cfg, t, 0);
  }

  /** The first call of a client, once it has published its request. */
  lemma {:induction false} FirstCallPublished(cfg: Config, id: string) returns (t: Client)
    requires id != ""
    ensures Reachable(cfg, t) && t.crash.None? && t.ev.Idle? && t.received == [] && t.tableOwner.None?
    ensures t.slots == map[id := NEW_SLOT] && t.calls == [Call(cfg.rpcQueue, "add", [], id, WantResult, false)]
  {
    t := FirstCallRegistered(cfg, id);
    t := TakeStep(cfg, t, 0);
    assert t.calls == [Call(cfg.rpcQueue, "add", [], id, Sending, false)] && t.slots == map[id := NEW_SLOT];
    t := TakeStep(cfg, t, 0);
  }

  /** The first call of a client, waiting for its reply. */
  lemma {:induction false} FirstCallWaits(cfg: Config, id: string) returns (t: Client)
    requires id != ""
    ensures Reachable(cfg, t) && t.crash.None? && t.ev.Idle? && t.received == [] && id in t.slots
    ensures t.calls == [Call(cfg.rpcQueue, "add", [], id, Waiting, false)]
  {
    t := FirstCallPublished(cfg, id);
    t := TakeStep(cfg, t, 0);
    assert t.calls == [Call(cfg.rpcQueue, "add", [], id, Indexing, false)] && t.slots == map[id := NEW_SLOT];
    t := TakeStep(cfg, t, 0);
    assert t.calls == [Call(cfg.rpcQueue, "add", [], id, Checking, false)] && !t.slots[id].done;
    t := TakeStep(cfg, t, 0);
  }

  /** Such a state exists, so with spurious wakeups the path is not safe. */
  lemma {:induction false} SpuriousWakeupCrashes(cfg: Config) returns (t: Client)
    requires cfg.spurious
    ensures Reachable(cfg, t) && OneReplyPerId(t.received) && t.crash == Some(NullSlot)
  {
    var id := "corr-1";
    t := FirstCallWaits(cfg, id);
    var msg := Message(0, id, Dump(EncodeRep(1, id, "", JNull)));
    ReplyRoundTrip(id, "", JNull, "");
    assert Enabled(cfg, t, Receive(msg));
    ReachableStep(cfg, t, Receive(msg));
    t := SpuriousWakeupCanCrash(cfg, StepReceive(t, msg), 0);
  }

  /** If `on_response` runs as one step, from the find to the set, then it is safe from every state,
      whatever wakeups have happened: it sets a registered slot or touches nothing. */
  lemma {:induction false} AtomicResponseIsSafe(s: Client, msg: Message)
    requires s.ev.Idle? && (msg.corr in s.slots ==> s.slots[msg.corr].owner.None?)
    requires DecodeRep(msg.body, "").Ok?
    ensures
      var found := StepReceive(s, msg);
      if msg.corr !in s.slots then found.ev.Idle? && found.slots == s.slots
      else
        var locked := StepEvent(StepEvent(found));
        var t := StepEvent(locked);
        && t.crash == s.crash && t.ev.Idle?
        && t.slots == s.slots[msg.corr := SetDone(s.slots[msg.corr], DecodeRep(msg.body, "").value)]
  {}
}
