/** The slot table of `MessageQueueClient` as the object it is: a map from request ids to shared
    `AsyncResult` objects.  The methods run the critical sections that `RpcClient` takes step by step,
    with the slot functions of `Slots` for both. */
module Client {
  import opened Wrappers
  import opened Json
  import opened RpcUtils
  import opened Slots

  class MessageQueueClient {
    var reqEvents: map<string, AsyncResult>

    /** No two ids share a slot. */
    ghost predicate Valid()
      reads this
    {
      forall a, b | a in reqEvents && b in reqEvents && a != b :: reqEvents[a] != reqEvents[b]
    }

    ghost function Objects(): set<object>
      reads this
    {
      set id | id in reqEvents :: reqEvents[id]
    }

    /** The table of the step system. */
    ghost function Table(): map<string, Slot>
      reads this, Objects()
    {
      map id | id in reqEvents :: reqEvents[id].View()
    }

    constructor ()
      ensures Valid() && Table() == map[]
    {
      reqEvents := map[];
    }

    /** `call_async`, inside the table lock. */
    method Insert(id: string)
      requires Valid()
      modifies this
      ensures Valid() && Table() == old(Table())[id := NEW_SLOT]
      ensures fresh(Objects() - old(Objects()))
    {
      var slot := new AsyncResult();
      reqEvents := reqEvents[id := slot];
    }

    /** `on_response` without interruption: a reply to a registered id sets its slot, any other reply
        changes nothing, and a reply that does not decode escapes. */
    method OnResponse(corr: string, body: Text) returns (escaped: Option<Failure>)
      requires Valid() && (corr in reqEvents ==> reqEvents[corr].owner.None?)
      modifies Objects()
      ensures Valid()
      ensures escaped.Some? <==> corr in reqEvents && DecodeRep(body, "").Err?
      ensures Table() ==
        if corr in reqEvents && DecodeRep(body, "").Ok?
        then old(Table())[corr := SetDone(old(Table())[corr], DecodeRep(body, "").value)]
        else old(Table())
    {
      escaped := None;
      if corr in reqEvents {
        var reply := DecodeRep(body, "");
        if reply.Err? { return Some(reply.error); }
        reqEvents[corr].Lock(ByEvent);
        reqEvents[corr].Set(reply.value);
      }
    }

    /** The first half of `call`'s critical section: the result if it is there, and then its slot is
        erased; otherwise the caller is parked in its slot. */
    method BeginTake(id: string) returns (reply: Option<Reply>)
      requires Valid() && id in reqEvents && reqEvents[id].owner.None?
      modifies this, Objects()
      ensures Valid() && (reply.Some? <==> old(Table())[id].done)
      ensures reply.Some? ==> reply.value == old(Table())[id].result && Table() == old(Table()) - {id}
      ensures reply.None? ==> Table() == old(Table())[id := Check(old(Table())[id])]
    {
      var slot := reqEvents[id];
      slot.Lock(ByCaller);
      var ready := slot.BeginGet();
      if !ready { return None; }
      var result := slot.Move();
      reqEvents := reqEvents - {id};
      reply := Some(result);
    }

    /** The second half, after the wait: a timeout throws past the erase and leaves the slot. */
    method EndTake(id: string, timedOut: bool) returns (reply: Option<Reply>)
      requires Valid() && id in reqEvents && reqEvents[id].owner.None?
      modifies this, Objects()
      ensures Valid() && (reply.None? <==> timedOut)
      ensures timedOut ==> Table() == old(Table())
      ensures !timedOut ==> reply.value == old(Table())[id].result && Table() == old(Table()) - {id}
    {
      var slot := reqEvents[id];
      slot.Lock(ByCaller);
      slot.EndGet(timedOut);
      if timedOut { return None; }
      var result := slot.Move();
      reqEvents := reqEvents - {id};
      reply := Some(result);
    }
  }
}
