/** One request from delivery to reply: `_rpc_worker` and `send_reply` of src/server.cc, the call
    proxies of include/server.inl, and the tail of `Caller::call` of include/client.inl. */
module Worker {
  import opened Wrappers
  import opened Json
  import opened Values
  import opened RpcUtils
  import opened Recovery

  /** How the bound C++ function ends. */
  datatype Outcome =
    | Returns(v: Value)
    | ReturnsVoid
    | ThrowsRuntime(what: string)
    | ThrowsOther

  /** A registered function.  It need not be deterministic: `allowed` relates its parameters to
      the ways it may end. */
  datatype Method = Method(name: string, params: seq<ParamTy>, allowed: (seq<Value>, Outcome) -> bool)

  /** A `std::function` slot of the registry; `operator[]` on a missing name creates an empty one. */
  datatype Entry = Empty | Bound(m: Method)

  /** A message as the broker carries it: body, correlation header, reply-to header. */
  datatype Envelope = Envelope(body: Text, corr: string, replyTo: string)

  datatype Res = Res(typ: int, msgid: string, replyTo: string, result: Text, error: string)

  /** A reply published to the default exchange under `key`. */
  datatype Sent = Sent(key: string, corr: string, body: Text)

  const KEYWORD_ERROR := "Invalid parameter passing mode<k: v>"

  // ---------------------------------------------------------------- the stages of _rpc_worker

  ghost function DecodeDelivery(env: Envelope): Result<Request> {
    match LoadJson(env.body)
    case Err(e) => Err(e)
    case Ok(data) => DecodeReq(data, env.corr)
  }

  function InitialRes(env: Envelope): Res {
    Res(1, env.corr, env.replyTo, NotJson, "")
  }

  /** The handler of `runtime_error`. */
  function Caught(res: Res, what: string): Res {
    res.(error := what, result := Dump(JArr([JNull])))
  }

  /** Calling a registry slot inside the `try`: the filled record, or the exception that escapes. */
  function Invoke(entry: Entry, args: seq<Value>, outcome: Outcome, res: Res): Result<Res> {
    match entry
    case Empty => Err(BadFunctionCall)
    case Bound(m) =>
      match RecoverAll(args, m.params)
      case Err(e) => Err(e)
      case Ok(_) =>
        match outcome
        case Returns(v) => Ok(res.(result := Dump(JArr([ToJson(v)]))))
        case ReturnsVoid => Ok(res.(result := Dump(JArr([JInt(0)]))))
        case ThrowsRuntime(what) => Ok(Caught(res, what))
        case ThrowsOther => Err(OtherException)
  }

  /** `send_reply`: the published message, or the exception of `json::parse(...)[0]`. */
  function ReplyFor(res: Res): Result<Sent> {
    match Parse(res.result)
    case Err(e) => Err(e)
    case Ok(j) =>
      match Element(j, 0)
      case Err(e) => Err(e)
      case Ok(x) => Ok(Sent(res.replyTo, res.msgid, Dump(EncodeRep(res.typ, res.msgid, res.error, x))))
  }

  /** A whole uninterrupted `_rpc_worker`: the reply it publishes, or the escaping exception. */
  ghost function Serve(rpc: map<string, Entry>, env: Envelope, outcome: Outcome): Result<Sent> {
    match DecodeDelivery(env)
    case Err(e) => Err(e)
    case Ok(req) =>
      if req.kws != map[] then ReplyFor(Caught(InitialRes(env), KEYWORD_ERROR))
      else if req.meth !in rpc then ReplyFor(InitialRes(env))
      else
        match Invoke(rpc[req.meth], req.args, outcome, InitialRes(env))
        case Err(e) => Err(e)
        case Ok(res) => ReplyFor(res)
  }

  /** `callproxy`: recover the parameters, call, and store the result. */
  method CallProxy(entry: Entry, args: seq<Value>, outcome: Outcome, res: Res) returns (r: Result<Res>)
    ensures r == Invoke(entry, args, outcome, res)
  {
    if entry.Empty? { return Err(BadFunctionCall); }
    var parameters := GetTuple(args, entry.m.params);
    if parameters.Err? { return Err(parameters.error); }
    var filled := res;
    match outcome {
      case Returns(v) => filled := filled.(result := Dump(JArr([ToJson(v)])));
      case ReturnsVoid => filled := filled.(result := Dump(JArr([JInt(0)])));
      case ThrowsRuntime(what) => filled := Caught(filled, what);
      case ThrowsOther => return Err(OtherException);
    }
    r := Ok(filled);
  }

  // ---------------------------------------------------------------- what a request is owed

  /** The parameters with which `m` is called for `req`. */
  function Parameters(m: Method, req: Request): Result<seq<Value>> {
    RecoverAll(req.args, m.params)
  }

  /** The answer a local call would give: an error text, and a JSON value. */
  function LocalReply(outcome: Outcome): Reply
    requires !outcome.ThrowsOther?
  {
    match outcome
    case Returns(v) => Reply("", Dump(ToJson(v)))
    case ReturnsVoid => Reply("", Dump(JInt(0)))
    case ThrowsRuntime(what) => Reply(what, Dump(JNull))
  }

  ghost predicate IsRefused(env: Envelope) {
    DecodeDelivery(env).Ok? && DecodeDelivery(env).value.kws != map[]
  }

  /** The method was called and ended in a way that is answered. */
  ghost predicate IsCalled(rpc: map<string, Entry>, env: Envelope, outcome: Outcome) {
    && DecodeDelivery(env).Ok?
    && var req := DecodeDelivery(env).value;
    && req.kws == map[] && req.meth in rpc && rpc[req.meth].Bound?
    && Parameters(rpc[req.meth].m, req).Ok? && !outcome.ThrowsOther?
  }

  /** Exactly which requests are answered by a worker that runs uninterrupted, and with what: the
      reply goes to the request's own reply-to with its own id, and decodes to the local answer. */
  lemma {:induction false} ServeExact(rpc: map<string, Entry>, env: Envelope, outcome: Outcome)
    ensures
      var sent := Serve(rpc, env, outcome);
      && (sent.Ok? <==> IsCalled(rpc, env, outcome) || IsRefused(env))
      && (sent.Ok? ==>
            && sent.value.key == env.replyTo && sent.value.corr == env.corr
            && DecodeRep(sent.value.body, env.corr) ==
               Ok(if IsRefused(env) then Reply(KEYWORD_ERROR, Dump(JNull)) else LocalReply(outcome)))
  {
    if IsRefused(env) {
      ReplyRoundTrip(env.corr, KEYWORD_ERROR, JNull, env.corr);
    } else if IsCalled(rpc, env, outcome) {
      var answer := LocalReply(outcome);
      assert Serve(rpc, env, outcome) ==
        Ok(Sent(env.replyTo, env.corr, Dump(EncodeRep(1, env.corr, answer.error, answer.result.json))));
      ReplyRoundTrip(env.corr, answer.error, answer.result.json, env.corr);
    }
  }

  /** Exactly how a request goes unanswered: it does not decode, its method is unknown or stands for an
      empty function, its parameters are not recovered, or the function throws another exception. */
  lemma {:induction false} ServeFails(rpc: map<string, Entry>, env: Envelope, outcome: Outcome, e: Failure)
    ensures Serve(rpc, env, outcome) == Err(e) <==>
      match DecodeDelivery(env)
      case Err(d) => e == d
      case Ok(req) =>
        && req.kws == map[]
        && if req.meth !in rpc then e == ParseError
           else match rpc[req.meth]
             case Empty => e == BadFunctionCall
             case Bound(m) =>
               if Parameters(m, req).Err? then e == Parameters(m, req).error
               else outcome.ThrowsOther? && e == OtherException
  {}

  /** The one element of the result that goes into the reply. */
  ghost predicate IsResult(j: Json, x: Json) {
    match j
    case JArr(items) => x == if items == [] then JNull else items[0]
    case JNull => x == JNull
    case _ => false
  }

  /** Exactly what `send_reply` publishes: to the record's reply-to, under its id, the array of its type,
      id and error and of the first element of its result. */
  lemma {:induction false} ReplyForExact(res: Res, sent: Sent)
    ensures ReplyFor(res) == Ok(sent) <==>
      && sent.key == res.replyTo && sent.corr == res.msgid && res.result.Dump?
      && sent.body.Dump? && sent.body.json.JArr?
      && var xs := sent.body.json.items;
      && |xs| == 4 && xs[0] == JInt(res.typ) && xs[1] == JString(res.msgid) && xs[2] == JString(res.error)
      && IsResult(res.result.json, xs[3])
    ensures ReplyFor(res) == Err(ParseError) <==> res.result.NotJson?
  {
    if sent.body.Dump? && sent.body.json.JArr? && |sent.body.json.items| == 4 {
      var xs := sent.body.json.items;
      assert xs == [xs[0], xs[1], xs[2], xs[3]];
    }
  }

  // ---------------------------------------------------------------- the tail of Caller::call

  datatype CallResult =
    | Returned(j: Json)
    | Threw(what: string)
    | TimedOut
    | ParseFailed
    | EmptyName

  /** What `call` does with the pair moved out of the slot. */
  function Conclude(reply: Reply): CallResult {
    if reply.error != "" then Threw(reply.error)
    else match Parse(reply.result)
      case Ok(j) => Returned(j)
      case Err(_) => ParseFailed
  }

  /** How `call` ends on the pair from its slot. */
  lemma {:induction false} ConcludeExact(reply: Reply, what: string, j: Json)
    ensures Conclude(reply) == Threw(what) <==> what != "" && reply.error == what
    ensures Conclude(reply) == Returned(j) <==> reply.error == "" && reply.result == Dump(j)
    ensures Conclude(reply) == ParseFailed <==> reply.error == "" && reply.result == NotJson
  {}

  /** A peer that reports success with a null error ends the call as well as one with an empty error. */
  lemma {:induction false} NullErrorIsSuccess(id: string, header: string, x: Json)
    requires header == "" || header == id
    ensures
      var reply := DecodeRep(Dump(JArr([JInt(1), JString(id), JNull, x])), header);
      reply.Ok? && Conclude(reply.value) == Returned(x)
  {
    DecodeRepExact(Dump(JArr([JInt(1), JString(id), JNull, x])), header, Reply("", Dump(x)));
  }

  /** The caller of a request with keyword arguments gets this message, whatever the method. */
  lemma {:induction false} KeywordsAreRefused(rpc: map<string, Entry>, env: Envelope, outcome: Outcome)
    requires IsRefused(env)
    ensures Serve(rpc, env, outcome).Ok?
    ensures
      var reply := DecodeRep(Serve(rpc, env, outcome).value.body, env.corr);
      reply.Ok? && Conclude(reply.value) == Threw("Invalid parameter passing mode<k: v>")
  {
    ReplyRoundTrip(env.corr, KEYWORD_ERROR, JNull, env.corr);
  }

  /** Result and error round trip, from the end of the bound function to the end of `call`.  A
      value comes back unchanged and void comes back as 0.  The caller throws exactly the non-empty
      messages; a `runtime_error` with an empty message comes back as a normal null result. */
  lemma {:induction false} ResultRoundTrip(rpc: map<string, Entry>, env: Envelope, outcome: Outcome, what: string)
    requires Serve(rpc, env, outcome).Ok? && DecodeDelivery(env).value.kws == map[]
    ensures
      var reply := DecodeRep(Serve(rpc, env, outcome).value.body, "");
      && reply.Ok?
      && (outcome.Returns? ==> Conclude(reply.value) == Returned(ToJson(outcome.v)))
      && (outcome.ReturnsVoid? ==> Conclude(reply.value) == Returned(JInt(0)))
      && (outcome.ThrowsRuntime? ==> reply.value == Reply(outcome.what, Dump(JNull)))
      && (outcome == ThrowsRuntime("") ==> Conclude(reply.value) == Returned(JNull))
      && (Conclude(reply.value) == Threw(what) <==> what != "" && outcome == ThrowsRuntime(what))
  {}
}
