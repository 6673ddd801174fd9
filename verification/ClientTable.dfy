/** What every interleaving of the client keeps: the slot table is accounted for, every lock is
    held by exactly the thread that is inside its critical section, and every pair that a caller
    moves out of its slot was received under its own id. */
module ClientTable {
  import opened Wrappers
  import opened RpcUtils
  import opened Worker
  import opened Slots
  import opened RpcClient

  /** The id of the call has a slot in `req_events`. */
  predicate InTable(pc: CallPc) {
    match pc
    case WantTable => false
    case Registering => false
    case Deciding(_) => false
    case Finished(out) => out.TimedOut?
    case _ => true
  }

  predicate HoldsTable(pc: CallPc) {
    match pc
    case Registering => true
    case Indexing => true
    case Checking => true
    case Waiting => true
    case Woken(_) => true
    case Leaving(_) => true
    case Taking => true
    case Erasing(_) => true
    case _ => false
  }

  predicate HoldsSlot(pc: CallPc) { pc.Checking? || pc.Leaving? }

  function Handled(ev: EventPc): Option<string> {
    match ev
    case Idle => None
    case Found(id, _) => Some(id)
    case Decoded(id, _) => Some(id)
    case Setting(id, _) => Some(id)
  }

  /** `reply` is what some received message with this id decodes to. */
  ghost predicate Got(received: seq<Message>, id: string, reply: Reply) {
    exists k :: 0 <= k < |received| && received[k].corr == id && DecodeRep(received[k].body, "") == Ok(reply)
  }

  /** The two normal ways for a call to end were decided by a reply received under its id. */
  ghost predicate Decided(received: seq<Message>, id: string, out: CallResult) {
    out.Returned? || out.Threw? ==> exists reply :: Got(received, id, reply) && out == Conclude(reply)
  }

  ghost predicate Origin(received: seq<Message>, id: string, reply: Reply) {
    reply == EMPTY || Got(received, id, reply)
  }

  function SlotOf(slots: map<string, Slot>, id: string): Option<Slot> {
    if id in slots then Some(slots[id]) else None
  }

  /** The invariant of call i, given its own slot and whether it owns the table lock. */
  ghost predicate CallInv(c: Call, slot: Option<Slot>, owns: bool, received: seq<Message>) {
    && (c.id == "" <==> c.pc == Finished(EmptyName))
    && (slot.Some? <==> InTable(c.pc))
    && (owns <==> HoldsTable(c.pc))
    && (slot.Some? ==>
        && (slot.value.owner == Some(ByCaller) <==> HoldsSlot(c.pc))
        && (slot.value.waiting <==> c.pc.Waiting?)
        && (slot.value.notified ==> slot.value.waiting)
        && Origin(received, c.id, slot.value.result))
    && (c.pc.Erasing? || c.pc.Deciding? ==> Origin(received, c.id, c.pc.ret))
    && (c.pc.Finished? ==> Decided(received, c.id, c.pc.out))
  }

  ghost predicate CallsInv(s: Client) {
    && (forall i | 0 <= i < |s.calls| ::
          CallInv(s.calls[i], SlotOf(s.slots, s.calls[i].id), s.tableOwner == Some(i), s.received))
    && (forall i, j | 0 <= i < j < |s.calls| && s.calls[i].id != "" :: s.calls[i].id != s.calls[j].id)
    && (s.tableOwner.Some? ==> s.tableOwner.value < |s.calls|)
  }

  /** No slot without a call. */
  ghost predicate SlotsInv(s: Client) {
    && "" !in s.slots
    && forall id | id in s.slots ::
         && (exists i :: 0 <= i < |s.calls| && s.calls[i].id == id)
         && (s.slots[id].owner == Some(ByEvent) <==> (s.ev.Setting? && s.ev.id == id))
  }

  /** The event thread handles the last message it received. */
  ghost predicate EventInv(ev: EventPc, received: seq<Message>) {
    !ev.Idle? ==>
      && received != []
      && received[|received| - 1].corr == Handled(ev).value
      && match ev
         case Found(_, body) => body == received[|received| - 1].body
         case Decoded(_, reply) => DecodeRep(received[|received| - 1].body, "") == Ok(reply)
         case Setting(_, reply) => DecodeRep(received[|received| - 1].body, "") == Ok(reply)
  }

  /** The call has not inserted its slot yet. */
  predicate Early(pc: CallPc) { pc.WantTable? || pc.Registering? }

  /** The call is past the publish of its request. */
  predicate Published(pc: CallPc) {
    !Early(pc) && !pc.WantSend? && !pc.Sending?
  }

  /** The handled id was registered. */
  ghost predicate HandledIsKnown(s: Client) {
    Handled(s.ev).Some? ==>
      && Handled(s.ev).value != ""
      && exists i :: 0 <= i < |s.calls| && s.calls[i].id == Handled(s.ev).value && !Early(s.calls[i].pc)
  }

  ghost predicate Inv(s: Client) {
    CallsInv(s) && SlotsInv(s) && EventInv(s.ev, s.received) && HandledIsKnown(s)
  }

  // ---------------------------------------------------------------- frames

  lemma {:induction false} GotGrows(received: seq<Message>, more: seq<Message>, id: string, reply: Reply)
    requires Got(received, id, reply)
    ensures Got(received + more, id, reply)
  {
    var k :| 0 <= k < |received| && received[k].corr == id && DecodeRep(received[k].body, "") == Ok(reply);
    assert (received + more)[k] == received[k];
  }

  lemma {:induction false} CallInvGrows(c: Call, slot: Option<Slot>, owns: bool, received: seq<Message>, more: seq<Message>)
    requires CallInv(c, slot, owns, received)
    ensures CallInv(c, slot, owns, received + more)
  {
    if slot.Some? && slot.value.result != EMPTY { GotGrows(received, more, c.id, slot.value.result); }
    if (c.pc.Erasing? || c.pc.Deciding?) && c.pc.ret != EMPTY { GotGrows(received, more, c.id, c.pc.ret); }
    if c.pc.Finished? && (c.pc.out.Returned? || c.pc.out.Threw?) {
      var reply :| Got(received, c.id, reply) && c.pc.out == Conclude(reply);
      GotGrows(received, more, c.id, reply);
    }
  }

  /** A step of call i that changes only its own record, its own slot and its hold on the table. */
  ghost predicate OwnStep(s: Client, t: Client, i: nat, c: Call, slot: Option<Slot>) {
    && i < |s.calls| && c.id == s.calls[i].id && c.id != ""
    && t.calls == s.calls[i := c]
    && t.received == s.received && t.ev == s.ev
    && t.slots == (if slot.Some? then s.slots[c.id := slot.value] else s.slots - {c.id})
    && (t.tableOwner == s.tableOwner || (s.tableOwner.None? && t.tableOwner == Some(i))
        || (s.tableOwner == Some(i) && t.tableOwner.None?))
    && (Early(c.pc) ==> Early(s.calls[i].pc))
    && (slot.Some? ==> (slot.value.owner == Some(ByEvent) <==> (s.ev.Setting? && s.ev.id == c.id)))
  }

  lemma {:induction false} OwnStepKeepsInv(s: Client, t: Client, i: nat, c: Call, slot: Option<Slot>)
    requires Inv(s) && OwnStep(s, t, i, c, slot)
    requires CallInv(c, slot, t.tableOwner == Some(i), s.received)
    ensures Inv(t)
  {
    OwnStepKeepsCalls(s, t, i, c, slot);
    OwnStepKeepsSlots(s, t, i, c, slot);
    OwnStepKeepsHandled(s, t, i, c);
  }

  lemma {:induction false} OwnStepKeepsCalls(s: Client, t: Client, i: nat, c: Call, slot: Option<Slot>)
    requires CallsInv(s) && OwnStep(s, t, i, c, slot)
    requires CallInv(c, slot, t.tableOwner == Some(i), s.received)
    ensures CallsInv(t)
  {}

  lemma {:induction false} OwnStepKeepsSlots(s: Client, t: Client, i: nat, c: Call, slot: Option<Slot>)
    requires SlotsInv(s) && OwnStep(s, t, i, c, slot)
    ensures SlotsInv(t)
  {
    forall id | id in t.slots
      ensures exists k :: 0 <= k < |t.calls| && t.calls[k].id == id
    {
      if id == c.id {
        assert t.calls[i].id == id;
      } else {
        var k :| 0 <= k < |s.calls| && s.calls[k].id == id;
        assert t.calls[k].id == id;
      }
    }
  }

  lemma {:induction false} OwnStepKeepsHandled(s: Client, t: Client, i: nat, c: Call)
    requires HandledIsKnown(s) && i < |s.calls| && c.id == s.calls[i].id
    requires t.calls == s.calls[i := c] && t.ev == s.ev
    requires Early(c.pc) ==> Early(s.calls[i].pc)
    ensures HandledIsKnown(t)
  {
    if Handled(s.ev).Some? {
      var k :| 0 <= k < |s.calls| && s.calls[k].id == Handled(s.ev).value && !Early(s.calls[k].pc);
      assert t.calls[k].id == s.calls[k].id && !Early(t.calls[k].pc);
    }
  }

  /** A call that is not in the table yet is not being handled. */
  lemma {:induction false} EarlyNotHandled(s: Client, i: nat)
    requires Inv(s) && i < |s.calls| && Early(s.calls[i].pc)
    ensures Handled(s.ev) != Some(s.calls[i].id)
  {}

  // ---------------------------------------------------------------- callers

  /** What a caller's step changes: its own record, its own slot, its hold on the table. */
  lemma {:induction false} CallStepIsOwn(cfg: Config, s: Client, i: nat)
    requires Inv(s) && CallEnabled(s, i)
    ensures
      var t := StepCall(cfg, s, i);
      var c := s.calls[i];
      && t.crash == s.crash
      && t.calls[i] == c.(pc := t.calls[i].pc)
      && OwnStep(s, t, i, t.calls[i], SlotOf(t.slots, c.id))
  {
    if Early(s.calls[i].pc) { EarlyNotHandled(s, i); }
    CallStepIsLocal(cfg, s, i);
  }

  lemma {:induction false} CallStepIsLocal(cfg: Config, s: Client, i: nat)
    requires CallEnabled(s, i)
    requires
      var c := s.calls[i];
      && CallInv(c, SlotOf(s.slots, c.id), s.tableOwner == Some(i), s.received)
      && (c.id in s.slots ==> (s.slots[c.id].owner == Some(ByEvent) <==> (s.ev.Setting? && s.ev.id == c.id)))
      && (Early(c.pc) ==> Handled(s.ev) != Some(c.id))
    ensures
      var t := StepCall(cfg, s, i);
      var c := s.calls[i];
      && t.crash == s.crash
      && t.calls[i] == c.(pc := t.calls[i].pc)
      && OwnStep(s, t, i, t.calls[i], SlotOf(t.slots, c.id))
  {
    var c := s.calls[i];
    var t := StepCall(cfg, s, i);
    if c.id in t.slots {
      assert t.slots == s.slots[c.id := t.slots[c.id]];
    } else {
      assert t.slots == s.slots - {c.id};
    }
  }

  lemma {:induction false} SlotStepKeepsCallInv(c: Call, slot: Slot, received: seq<Message>)
    requires CallInv(c, Some(slot), true, received) && c.id != ""
    requires c.pc.Indexing? || (NeedsSlot(c.pc) && !c.pc.Waiting?)
    ensures
      var (pc, slot') := SlotStep(c.pc, slot);
      CallInv(c.(pc := pc), Some(slot'), !pc.Finished?, received)
  {}

  lemma {:induction false} CallStepKeepsInv(cfg: Config, s: Client, i: nat)
    requires Inv(s) && CallEnabled(s, i)
    ensures StepCall(cfg, s, i).crash == s.crash
    ensures Inv(StepCall(cfg, s, i))
  {
    var c := s.calls[i];
    var t := StepCall(cfg, s, i);
    CallStepIsOwn(cfg, s, i);
    assert CallInv(c, SlotOf(s.slots, c.id), s.tableOwner == Some(i), s.received);
    if c.pc.Indexing? || NeedsSlot(c.pc) {
      SlotStepKeepsCallInv(c, s.slots[c.id], s.received);
    } else if c.pc.Deciding? {
      DecidedByOrigin(s.received, c.id, c.pc.ret);
    }
    OwnStepKeepsInv(s, t, i, t.calls[i], SlotOf(t.slots, c.id));
  }

  lemma {:induction false} DecidedByOrigin(received: seq<Message>, id: string, ret: Reply)
    requires Origin(received, id, ret)
    ensures Decided(received, id, Conclude(ret))
  {}

  lemma {:induction false} WakeKeepsInv(s: Client, i: nat, kind: WakeKind)
    requires Inv(s) && i < |s.calls| && s.calls[i].pc.Waiting? && s.calls[i].id in s.slots
    ensures Inv(StepWake(s, i, kind))
  {
    var t := StepWake(s, i, kind);
    assert CallInv(s.calls[i], SlotOf(s.slots, s.calls[i].id), s.tableOwner == Some(i), s.received);
    OwnStepKeepsInv(s, t, i, t.calls[i], SlotOf(t.slots, s.calls[i].id));
  }

  lemma {:induction false} StartCallKeepsInv(s: Client, c: Call)
    requires Inv(s)
    requires (c.id == "" && c.pc == Finished(EmptyName)) || (FreshId(s, c.id) && c.pc == WantTable)
    ensures Inv(s.(calls := s.calls + [c]))
  {}

  // ---------------------------------------------------------------- event thread

  lemma {:induction false} ReceiveKeepsInv(s: Client, msg: Message)
    requires Inv(s) && s.ev.Idle?
    ensures Inv(StepReceive(s, msg))
  {
    var t := StepReceive(s, msg);
    forall k | 0 <= k < |t.calls|
      ensures CallInv(t.calls[k], SlotOf(t.slots, t.calls[k].id), t.tableOwner == Some(k), t.received)
    {
      CallInvGrows(s.calls[k], SlotOf(s.slots, s.calls[k].id), s.tableOwner == Some(k), s.received, [msg]);
    }
  }

  lemma {:induction false} EventStepKeepsInv(s: Client)
    requires Inv(s) && EventEnabled(s)
    ensures Inv(StepEvent(s))
  {
    var t := StepEvent(s);
    if t.crash == s.crash && !s.ev.Found? && s.ev.id in s.slots {
      var id := s.ev.id;
      var last := s.received[|s.received| - 1];
      assert Got(s.received, id, s.ev.reply);
      forall k | 0 <= k < |t.calls|
        ensures CallInv(t.calls[k], SlotOf(t.slots, t.calls[k].id), t.tableOwner == Some(k), t.received)
      {
        assert CallInv(s.calls[k], SlotOf(s.slots, s.calls[k].id), s.tableOwner == Some(k), s.received);
      }
    }
  }

  // ---------------------------------------------------------------- every run

  /** The invariant does not look at the publishers or at the send channel. */
  lemma {:induction false} SameTableKeepsInv(s: Client, t: Client)
    requires Inv(s)
    requires t.calls == s.calls && t.slots == s.slots && t.tableOwner == s.tableOwner
    requires t.ev == s.ev && t.received == s.received
    ensures Inv(t)
  {}

  predicate IsGateStep(step: Step) {
    step.StartPublish? || step.PubStep? || step.WakePub? || step.BindConfirmed?
  }

  lemma {:induction false} GateStepKeepsTable(cfg: Config, s: Client, step: Step)
    requires Enabled(cfg, s, step) && IsGateStep(step)
    ensures
      var t := Apply(cfg, s, step);
      && t.calls == s.calls && t.slots == s.slots && t.tableOwner == s.tableOwner
      && t.ev == s.ev && t.received == s.received && t.crash == s.crash
  {}

  lemma {:induction false} StepKeepsInv(cfg: Config, s: Client, step: Step)
    requires Inv(s) && Enabled(cfg, s, step)
    ensures Inv(Apply(cfg, s, step))
  {
    match step
    case StartCall(key, meth, args, id) =>
      var c := if meth == "" then Call(key, meth, args, "", Finished(EmptyName), false)
               else Call(key, meth, args, id, WantTable, false);
      StartCallKeepsInv(s, c);
    case CallStep(i) => CallStepKeepsInv(cfg, s, i);
    case WakeCall(i, kind) => WakeKeepsInv(s, i, kind);
    case Receive(msg) => ReceiveKeepsInv(s, msg);
    case EventStep => EventStepKeepsInv(s);
    case _ =>
      GateStepKeepsTable(cfg, s, step);
      SameTableKeepsInv(s, Apply(cfg, s, step));
  }

  lemma {:induction false} FollowsKeepsInv(cfg: Config, s: Client, t: Client)
    requires Inv(s) && Follows(cfg, s, t)
    ensures Inv(t)
  {
    var step :| Takes(cfg, s, step, t);
    StepKeepsInv(cfg, s, step);
  }

  lemma {:induction false} RunKeepsInv(cfg: Config, run: seq<Client>, n: nat)
    requires IsRun(cfg, run) && n < |run|
    ensures Inv(run[n])
  {
    if n > 0 {
      RunKeepsInv(cfg, run, n - 1);
      assert Follows(cfg, run[n - 1], run[n]);
      FollowsKeepsInv(cfg, run[n - 1], run[n]);
    }
  }

  lemma {:induction false} ReachableInv(cfg: Config, s: Client)
    requires Reachable(cfg, s)
    ensures Inv(s)
  {
    var run :| IsRun(cfg, run) && run[|run| - 1] == s;
    RunKeepsInv(cfg, run, |run| - 1);
  }

  /** The call has registered its slot and has not finished. */
  predicate Registered(pc: CallPc) {
    !Early(pc) && !pc.Deciding? && !pc.Finished?
  }

  /** Slot table accounting, in every reachable state: the keys of `req_events` are exactly the ids of the
      registered unfinished calls and of the timed-out calls.  In particular a call that ended
      normally leaves no slot behind, a call that timed out does, and a reply that arrives later
      reaches only a slot of the latter kind. */
  lemma {:induction false} TableAccounting(cfg: Config, s: Client)
    requires Reachable(cfg, s)
    ensures forall i | 0 <= i < |s.calls| ::
              s.calls[i].id in s.slots <==> Registered(s.calls[i].pc) || s.calls[i].pc == Finished(TimedOut)
    ensures forall id | id in s.slots :: exists i :: 0 <= i < |s.calls| && s.calls[i].id == id
    ensures forall i, j | 0 <= i < j < |s.calls| && s.calls[i].id != "" :: s.calls[i].id != s.calls[j].id
  {
    ReachableInv(cfg, s);
    forall i | 0 <= i < |s.calls|
      ensures s.calls[i].id in s.slots <==> Registered(s.calls[i].pc) || s.calls[i].pc == Finished(TimedOut)
    {
      assert CallInv(s.calls[i], SlotOf(s.slots, s.calls[i].id), s.tableOwner == Some(i), s.received);
    }
  }

  /** A call that returns or throws does so on a reply that was received under its own id, in
      every reachable state, also with spurious wakeups. */
  lemma {:induction false} CallUsesOwnReply(cfg: Config, s: Client, i: nat)
    requires Reachable(cfg, s) && i < |s.calls|
    requires s.calls[i].pc.Finished? && (s.calls[i].pc.out.Returned? || s.calls[i].pc.out.Threw?)
    ensures exists k :: 0 <= k < |s.received| && s.received[k].corr == s.calls[i].id
              && DecodeRep(s.received[k].body, "").Ok?
              && s.calls[i].pc.out == Conclude(DecodeRep(s.received[k].body, "").value)
  {
    ReachableInv(cfg, s);
    assert CallInv(s.calls[i], SlotOf(s.slots, s.calls[i].id), s.tableOwner == Some(i), s.received);
    var reply :| Got(s.received, s.calls[i].id, reply) && s.calls[i].pc.out == Conclude(reply);
  }
}
