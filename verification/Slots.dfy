/** `AsyncResult` of include/client.h and src/client.cc.  Every critical section of its mutex is one
    function on the abstract slot; the class below executes the same sections on fields. */
module Slots {
  import opened Wrappers
  import opened Json
  import opened RpcUtils

  /** Who holds the slot's mutex. */
  datatype Holder = ByCaller | ByEvent

  /** `done_` and `result_`, together with the state of the mutex and of the condition variable:
      `waiting` says that the caller is parked in it, `notified` that it has been told to leave. */
  datatype Slot = Slot(done: bool, result: Reply, waiting: bool, notified: bool, owner: Option<Holder>)

  lemma {:induction false} OwnerKinds(owner: Option<Holder>)
    ensures owner.None? || owner == Some(ByCaller) || owner == Some(ByEvent)
  {
    match owner
    case None =>
    case Some(h) => assert h.ByCaller? || h.ByEvent?;
  }

  /** Two empty strings. */
  const EMPTY := Reply("", NotJson)

  const NEW_SLOT := Slot(false, EMPTY, false, false, None)

  /** `set`: store, mark and notify; a notification without a waiter is lost. */
  function SetDone(slot: Slot, reply: Reply): Slot {
    slot.(done := true, result := reply, notified := slot.waiting, owner := None)
  }

  /** The start of `get`: either the result is there, or the caller parks and frees the mutex. */
  function Check(slot: Slot): Slot {
    if slot.done then slot.(done := false, owner := None) else slot.(waiting := true, owner := None)
  }

  function WakeUp(slot: Slot): Slot {
    slot.(waiting := false, notified := false)
  }

  /** The end of `get` after a wait; a timeout throws before `done_` is cleared. */
  function Leave(slot: Slot, timedOut: bool): Slot {
    slot.(done := slot.done && timedOut, owner := None)
  }

  /** Moving the pair out of the returned rvalue reference, with the mutex already free. */
  function MoveOut(slot: Slot): Slot {
    slot.(result := EMPTY)
  }

  class AsyncResult {
    var done: bool
    var result: Reply
    var waiting: bool
    var notified: bool
    var owner: Option<Holder>

    ghost function View(): Slot
      reads this
    {
      Slot(done, result, waiting, notified, owner)
    }

    constructor ()
      ensures View() == NEW_SLOT
    {
      done, result, waiting, notified, owner := false, EMPTY, false, false, None;
    }

    method Lock(who: Holder)
      requires owner.None?
      modifies this
      ensures View() == old(View()).(owner := Some(who))
    {
      owner := Some(who);
    }

    method Set(reply: Reply)
      requires owner == Some(ByEvent)
      modifies this
      ensures View() == SetDone(old(View()), reply)
      ensures done && result == reply && notified == old(waiting) && waiting == old(waiting) && owner == None
    {
      result := reply;
      done := true;
      notified := waiting;
      owner := None;
    }

    method BeginGet() returns (ready: bool)
      requires owner == Some(ByCaller)
      modifies this
      ensures View() == Check(old(View()))
      ensures ready <==> old(done)
      ensures !done && owner == None && result == old(result) && notified == old(notified)
      ensures waiting <==> old(waiting) || !ready
    {
      ready := done;
      if done {
        done := false;
      } else {
        waiting := true;
      }
      owner := None;
    }

    method EndGet(timedOut: bool)
      requires owner == Some(ByCaller)
      modifies this
      ensures View() == Leave(old(View()), timedOut)
      ensures (done <==> old(done) && timedOut) && owner == None
      ensures result == old(result) && waiting == old(waiting) && notified == old(notified)
    {
      if !timedOut {
        done := false;
      }
      owner := None;
    }

    method Move() returns (reply: Reply)
      modifies this
      ensures reply == old(result) && View() == MoveOut(old(View()))
      ensures result == Reply("", NotJson) && done == old(done) && owner == old(owner)
    {
      reply := result;
      result := EMPTY;
    }
  }
}
