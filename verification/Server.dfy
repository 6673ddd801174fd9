/** `MessageQueueServer` as the object it is: its maps, its id counter, its pool and its send channel,
    and the methods that update them.  Each method is tied to the function that the step systems of
    `RpcServer` and `Events` use for the same code. */
module Server {
  import opened Wrappers
  import opened Json
  import opened Values
  import opened RpcUtils
  import opened Recovery
  import opened Worker
  import opened Events

  /** A queued `_event_worker`. */
  datatype EventTask = EventTask(evType: string, data: Value, id: int)

  /** The handlers outside `todo` have one task each, in the order of the ids, before those in `todo`. */
  ghost predicate Detached(tasks: seq<EventTask>, evType: string, data: Value, ids: set<int>, todo: set<int>) {
    && (forall k | 0 <= k < |tasks| :: tasks[k].evType == evType && tasks[k].data == data && tasks[k].id in ids - todo)
    && (forall k, l | 0 <= k < l < |tasks| :: tasks[k].id < tasks[l].id)
    && (forall k, id | 0 <= k < |tasks| && id in todo :: tasks[k].id < id)
    && (forall id | id in ids - todo :: HasTask(tasks, id))
  }

  ghost predicate HasTask(tasks: seq<EventTask>, id: int) {
    exists k :: 0 <= k < |tasks| && tasks[k].id == id
  }

  /** One task per handler, in the order of the ids. */
  ghost predicate TasksInOrder(tasks: seq<EventTask>, evType: string, data: Value, handlers: map<int, Entry>) {
    Detached(tasks, evType, data, handlers.Keys, {})
  }

  lemma {:induction false} DetachNext(
    tasks: seq<EventTask>, evType: string, data: Value, ids: set<int>, todo: set<int>, id: int)
    requires Detached(tasks, evType, data, ids, todo) && IsMin(id, todo) && todo <= ids
    ensures Detached(tasks + [EventTask(evType, data, id)], evType, data, ids, todo - {id})
  {
    var more := tasks + [EventTask(evType, data, id)];
    forall x | x in ids - (todo - {id}) ensures HasTask(more, x) {
      if x == id {
        assert more[|tasks|].id == x;
      } else {
        assert HasTask(tasks, x);
        var k :| 0 <= k < |tasks| && tasks[k].id == x;
        assert more[k].id == x;
      }
    }
  }

  lemma {:induction false} CountDistinct(s: seq<Task>, x: Task)
    requires forall k, l | 0 <= k < l < |s| :: s[k] != s[l]
    ensures multiset(s)[x] == if x in s then 1 else 0
  {
    if s != [] {
      var n := |s| - 1;
      CountDistinct(s[..n], x);
      assert s == s[..n] + [s[n]];
    }
  }

  /** The tasks that the heap method queues are the ones that the step system queues. */
  lemma {:induction false} QueuesTasksFor(
    tasks: seq<EventTask>, evType: string, data: Value, handlers: map<int, Entry>, n: nat)
    requires TasksInOrder(tasks, evType, data, handlers)
    ensures multiset(seq(|tasks|, k requires 0 <= k < |tasks| => Task(n, tasks[k].id))) == TasksFor(n, handlers)
  {
    var s := seq(|tasks|, k requires 0 <= k < |tasks| => Task(n, tasks[k].id));
    forall x: Task ensures multiset(s)[x] == TasksFor(n, handlers)[x] {
      CountDistinct(s, x);
      if x.event == n && x.id in handlers {
        assert HasTask(tasks, x.id);
        var k :| 0 <= k < |tasks| && tasks[k].id == x.id;
        assert s[k] == x;
      }
    }
  }

  predicate IsMin(id: int, ids: set<int>) {
    id in ids && forall x | x in ids :: id <= x
  }

  lemma {:induction false} MinExists(ids: set<int>)
    requires ids != {}
    ensures exists id :: IsMin(id, ids)
    decreases |ids|
  {
    assert (exists x :: x in ids) || ids == {};
    var x :| x in ids;
    var rest := ids - {x};
    if rest == {} {
      assert ids == {x};
      assert IsMin(x, ids);
    } else {
      MinExists(rest);
      var m :| IsMin(m, rest);
      var least := if x < m then x else m;
      forall y | y in ids ensures least <= y {
        assert y == x || y in rest;
      }
      assert IsMin(least, ids);
    }
  }

  /** When `cbId` stands under no type but `evType`, the scan needs to change that one type only. */
  lemma {:induction false} UnregisteredChanges(reg: Registry, cbId: int, evType: string)
    requires forall t | t in reg.handlers && t != evType && t != "" :: cbId !in reg.handlers[t]
    ensures Unregistered(reg, cbId) ==
      if evType == "" || evType !in reg.handlers then reg
      else reg.(handlers := reg.handlers[evType := reg.handlers[evType] - {cbId}])
  {
    var after := Unregistered(reg, cbId).handlers;
    forall t | t in reg.handlers && t != evType ensures after[t] == reg.handlers[t] {
      if t != "" { assert reg.handlers[t] - {cbId} == reg.handlers[t]; }
    }
    if evType == "" || evType !in reg.handlers {
      assert after == reg.handlers;
    } else {
      assert after == reg.handlers[evType := reg.handlers[evType] - {cbId}];
    }
  }

  class MessageQueueServer {
    var rpcFuncMap: map<string, Entry>
    var evtCbId: nat
    var eventHandlerMap: Handlers
    var pool: seq<EventTask>
    var channel: seq<Sent>

    ghost function Reg(): Registry
      reads this
    {
      Registry(evtCbId, eventHandlerMap)
    }

    /** Ids lie in 1..`evt_cb_id` and none stands under two event types. */
    ghost predicate Valid()
      reads this
    {
      && (forall t, id | t in eventHandlerMap && id in eventHandlerMap[t] :: 1 <= id <= evtCbId)
      && (forall t, u, id | t in eventHandlerMap && u in eventHandlerMap && id in eventHandlerMap[t] && id in eventHandlerMap[u] :: t == u)
    }

    constructor ()
      ensures Valid() && rpcFuncMap == map[] && Reg() == Registry(0, map[]) && pool == [] && channel == []
    {
      rpcFuncMap, evtCbId, eventHandlerMap, pool, channel := map[], 0, map[], [], [];
    }

    // -------------------------------------------------------------- rpc registry

    /** Throws when the name is taken, even by an empty function. */
    method RegisterRpc(m: Method) returns (thrown: bool)
      modifies this`rpcFuncMap
      ensures thrown <==> m.name in old(rpcFuncMap)
      ensures rpcFuncMap == if thrown then old(rpcFuncMap) else old(rpcFuncMap)[m.name := Bound(m)]
    {
      thrown := m.name in rpcFuncMap;
      if !thrown {
        rpcFuncMap := rpcFuncMap[m.name := Bound(m)];
      }
    }

    method UnregisterRpc(name: string)
      modifies this`rpcFuncMap
      ensures rpcFuncMap == old(rpcFuncMap) - {name}
    {
      if name in rpcFuncMap {
        rpcFuncMap := rpcFuncMap - {name};
      }
    }

    // -------------------------------------------------------------- rpc worker

    method SendReply(res: Res) returns (r: Result<Sent>)
      modifies this`channel
      ensures r == ReplyFor(res)
      ensures channel == old(channel) + if r.Ok? then [r.value] else []
    {
      if res.result.NotJson? { return Err(ParseError); }
      var x := Element(res.result.json, 0);
      if x.Err? { return Err(x.error); }
      var body := Dump(EncodeRep(res.typ, res.msgid, res.error, x.value));
      channel := channel + [Sent(res.replyTo, res.msgid, body)];
      r := Ok(Sent(res.replyTo, res.msgid, body));
    }

    /** An uninterrupted `_rpc_worker`; `outcome` is how the bound function ends if it is called. */
    method RpcWorker(env: Envelope, outcome: Outcome) returns (r: Result<Sent>)
      modifies this`channel
      ensures r == Serve(rpcFuncMap, env, outcome)
      ensures channel == old(channel) + if r.Ok? then [r.value] else []
    {
      var data := JsonLoadb(env.body);
      if data.Err? { return Err(data.error); }
      var req := DecodeReq(data.value, env.corr);
      if req.Err? { return Err(req.error); }
      var res := Res(1, env.corr, env.replyTo, NotJson, "");
      if |req.value.kws| > 0 {
        res := Caught(res, KEYWORD_ERROR);
      } else if req.value.meth in rpcFuncMap {
        var filled := CallProxy(rpcFuncMap[req.value.meth], req.value.args, outcome, res);
        if filled.Err? { return Err(filled.error); }
        res := filled.value;
      }
      r := SendReply(res);
    }

    // -------------------------------------------------------------- event registry

    method RegisterEventHandler(evType: string, m: Method)
      requires Valid() && evtCbId < INT_MAX
      modifies this`evtCbId, this`eventHandlerMap
      ensures Valid() && Reg() == Registered(old(Reg()), evType, m)
    {
      if evType !in eventHandlerMap {
        eventHandlerMap := eventHandlerMap[evType := map[]];
      }
      evtCbId := evtCbId + 1;
      var id := evtCbId;
      assert id !in eventHandlerMap[evType];
      eventHandlerMap := eventHandlerMap[evType := eventHandlerMap[evType][id := Bound(m)]];
    }

    /** The scan takes the event types in any order. */
    method UnregisterEventHandler(cbId: int)
      requires Valid()
      modifies this`eventHandlerMap
      ensures Valid() && Reg() == Unregistered(old(Reg()), cbId)
    {
      var evType := "";
      var todo := eventHandlerMap.Keys;
      while todo != {}
        invariant todo <= eventHandlerMap.Keys && evType == "" && eventHandlerMap == old(eventHandlerMap)
        invariant forall t | t in eventHandlerMap && t !in todo :: cbId !in eventHandlerMap[t]
      {
        var k :| k in todo;
        if cbId in eventHandlerMap[k] {
          evType := k;
          break;
        }
        todo := todo - {k};
      }
      if evType == "" {
        UnregisteredChanges(Reg(), cbId, "");
        return;
      }
      UnregisteredChanges(Reg(), cbId, evType);
      eventHandlerMap := eventHandlerMap[evType := eventHandlerMap[evType] - {cbId}];
    }

    // -------------------------------------------------------------- events

    method OnEventMessage(body: Text) returns (r: Result<()>)
      modifies this`pool
      ensures r.Ok? <==> DecodeEvent(body).Ok?
      ensures r.Err? ==> r.error == DecodeEvent(body).error && pool == old(pool)
      ensures r.Ok? ==>
        && old(pool) <= pool
        && TasksInOrder(pool[|old(pool)|..], DecodeEvent(body).value.0, DecodeEvent(body).value.1,
                        HandlersOf(eventHandlerMap, DecodeEvent(body).value.0))
    {
      var vec := JsonLoadb(body);
      if vec.Err? { return Err(vec.error); }
      if |vec.value| < 1 { return Err(OutOfRange); }
      if !vec.value[0].VString? { return Err(BadAnyCast); }
      var evType := vec.value[0].s;
      if |vec.value| < 2 { return Err(OutOfRange); }
      var data := vec.value[1];
      r := Ok(());
      if evType !in eventHandlerMap {
        assert pool[|pool|..] == [];
        return;
      }
      var tasks := Detach(evType, data, eventHandlerMap[evType]);
      pool := pool + tasks;
      assert pool[|old(pool)|..] == tasks;
    }

    /** The loop over the handlers of one event type, in the order of a `std::map`. */
    static method Detach(evType: string, data: Value, handlers: map<int, Entry>) returns (tasks: seq<EventTask>)
      ensures TasksInOrder(tasks, evType, data, handlers)
    {
      tasks := [];
      var todo := handlers.Keys;
      while todo != {}
        invariant todo <= handlers.Keys
        invariant Detached(tasks, evType, data, handlers.Keys, todo)
      {
        MinExists(todo);
        var id :| id in todo && IsMin(id, todo);
        DetachNext(tasks, evType, data, handlers.Keys, todo, id);
        tasks := tasks + [EventTask(evType, data, id)];
        todo := todo - {id};
      }
    }

    /** `_event_worker`: `runtime_error` is logged and forgotten, any other exception escapes. */
    method EventWorker(task: EventTask, outcome: Outcome) returns (escaped: Option<Failure>)
      modifies this`eventHandlerMap
      ensures Reg() == Indexed(old(Reg()), task.evType, task.id)
      ensures
        var ended := Invoke(Reg().handlers[task.evType][task.id], [VString(task.evType), task.data], outcome,
                            Res(1, "", "", NotJson, ""));
        && escaped == (if ended.Ok? then None else Some(ended.error))
        && (escaped.None? <==>
              && task.evType in old(eventHandlerMap) && task.id in old(eventHandlerMap)[task.evType]
              && old(eventHandlerMap)[task.evType][task.id].Bound?
              && RecoverAll([VString(task.evType), task.data], old(eventHandlerMap)[task.evType][task.id].m.params).Ok?
              && !outcome.ThrowsOther?)
    {
      if task.evType !in eventHandlerMap {
        eventHandlerMap := eventHandlerMap[task.evType := map[]];
      }
      if task.id !in eventHandlerMap[task.evType] {
        eventHandlerMap := eventHandlerMap[task.evType := eventHandlerMap[task.evType][task.id := Empty]];
      }
      var ended := CallProxy(eventHandlerMap[task.evType][task.id], [VString(task.evType), task.data], outcome,
                             Res(1, "", "", NotJson, ""));
      escaped := if ended.Ok? then None else Some(ended.error);
    }
  }
}
