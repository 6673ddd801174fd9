/** src/rpc_utils.cc and include/rpc_utils.h: decoding JSON into `std::any` trees, and the two
    message formats.  A message body is a `Text`, so `dump` followed by `parse` is the identity. */
module RpcUtils {
  import opened Wrappers
  import opened Json
  import opened Values

  // ---------------------------------------------------------------- _parse_json_element

  /** The tree `_parse_json_element` builds. */
  function Decode(j: Json): Value
    decreases j, 1
  {
    match j
    case JObj(m) => VMap(TAny, DecodeFields(j))
    case JArr(xs) => VVec(TAny, DecodeAll(xs))
    case JString(s) => VString(s)
    case JInt(n) => VInt(ToInt32(n))
    case JDouble(d) => VDouble(d)
    case JBool(b) => VBool(b)
    case JNull => VNull
  }

  function DecodeAll(js: seq<Json>): (vs: seq<Value>)
    ensures |vs| == |js|
    ensures forall i | 0 <= i < |js| :: vs[i] == Decode(js[i])
  {
    if js == [] then [] else [Decode(js[0])] + DecodeAll(js[1..])
  }

  function DecodeFields(j: Json): (f: map<string, Value>)
    requires j.JObj?
    ensures f.Keys == j.fields.Keys
    ensures forall k | k in f :: f[k] == Decode(j.fields[k])
    decreases j, 0
  {
    map k | k in j.fields :: Decode(j.fields[k])
  }

  method ParseJsonElement(element: Json) returns (v: Value)
    ensures v == Decode(element)
    decreases element, 1
  {
    match element
    case JObj(m) =>
      var obj: map<string, Value> := map[];
      var todo := m.Keys;
      while todo != {}
        invariant todo <= m.Keys
        invariant obj.Keys == m.Keys - todo
        invariant forall k | k in obj :: obj[k] == Decode(m[k])
      {
        var key :| key in todo;
        var value := ParseJsonElement(m[key]);
        obj := obj[key := value];
        todo := todo - {key};
      }
      assert obj == DecodeFields(element);
      v := VMap(TAny, obj);
    case JArr(xs) =>
      var elements: seq<Value> := [];
      for i := 0 to |xs|
        invariant |elements| == i
        invariant forall x | 0 <= x < i :: elements[x] == Decode(xs[x])
      {
        var nested := ParseJsonElement(xs[i]);
        elements := elements + [nested];
      }
      assert elements == DecodeAll(xs);
      v := VVec(TAny, elements);
    case JString(s) => v := VString(s);
    case JInt(n) => v := VInt(ToInt32(n));
    case JDouble(d) => v := VDouble(d);
    case JBool(b) => v := VBool(b);
    case JNull => v := VNull;
  }

  // ---- what decoding keeps

  /** A step down a JSON tree. */
  datatype Edge = Item(i: nat) | Field(name: string)

  function Lookup(j: Json, path: seq<Edge>): Option<Json> {
    if path == [] then Some(j)
    else match (path[0], j)
      case (Item(i), JArr(xs)) => if i < |xs| then Lookup(xs[i], path[1..]) else None
      case (Field(k), JObj(m)) => if k in m then Lookup(m[k], path[1..]) else None
      case _ => None
  }

  function LookupValue(v: Value, path: seq<Edge>): Option<Value> {
    if path == [] then Some(v)
    else match (path[0], v)
      case (Item(i), VVec(_, xs)) => if i < |xs| then LookupValue(xs[i], path[1..]) else None
      case (Field(k), VMap(_, m)) => if k in m then LookupValue(m[k], path[1..]) else None
      case _ => None
  }

  /** `v` has the kind, size or keys, and scalar content of `j`; nothing is said about children. */
  predicate SameNode(v: Value, j: Json) {
    match (v, j)
    case (VMap(t, f), JObj(m)) => t == TAny && f.Keys == m.Keys
    case (VVec(t, ys), JArr(xs)) => t == TAny && |ys| == |xs|
    case (VString(s), JString(s')) => s == s'
    case (VInt(n), JInt(n')) => FitsInt(n) && (n - n') % 0x1_0000_0000 == 0
    case (VDouble(d), JDouble(d')) => d == d'
    case (VBool(b), JBool(b')) => b == b'
    case (VNull, JNull) => true
    case _ => false
  }

  /** Along every path the decoded tree has a node exactly where the JSON tree has one, and the
      two nodes agree. */
  lemma {:induction false} DecodeKeepsStructure(j: Json, path: seq<Edge>)
    ensures Lookup(j, path).Some? <==> LookupValue(Decode(j), path).Some?
    ensures Lookup(j, path).Some? ==> SameNode(LookupValue(Decode(j), path).value, Lookup(j, path).value)
    decreases |path|
  {
    if path != [] {
      match (path[0], j)
      case (Item(i), JArr(xs)) => if i < |xs| { DecodeKeepsStructure(xs[i], path[1..]); }
      case (Field(k), JObj(m)) => if k in m { DecodeKeepsStructure(m[k], path[1..]); }
      case _ =>
    }
  }

  /** `j` has the kind, size or keys, and scalar content of `v`; nothing is said about children. */
  predicate SameScalar(j: Json, v: Value) {
    match (j, v)
    case (JObj(m), VMap(_, f)) => m.Keys == f.Keys
    case (JArr(xs), VVec(_, ys)) => |xs| == |ys|
    case (JString(s), VString(s')) => s == s'
    case (JInt(n), VInt(n')) => n == n'
    case (JDouble(d), VDouble(d')) => d == d'
    case (JBool(b), VBool(b')) => b == b'
    case (JNull, VNull) => true
    case _ => false
  }

  /** The JSON form of a value has, along every path, a node exactly where the value has one, with the same
      content. */
  lemma {:induction false} ToJsonKeepsStructure(v: Value, path: seq<Edge>)
    ensures Lookup(ToJson(v), path).Some? <==> LookupValue(v, path).Some?
    ensures LookupValue(v, path).Some? ==> SameScalar(Lookup(ToJson(v), path).value, LookupValue(v, path).value)
    decreases |path|
  {
    if path != [] {
      match (path[0], v)
      case (Item(i), VVec(_, xs)) => if i < |xs| { ToJsonKeepsStructure(xs[i], path[1..]); }
      case (Field(k), VMap(_, m)) => if k in m { ToJsonKeepsStructure(m[k], path[1..]); }
      case _ =>
    }
  }

  /** All integers of the tree lie in [-2^31, 2^31). */
  predicate IntsFit(j: Json) {
    match j
    case JInt(n) => FitsInt(n)
    case JArr(xs) => forall x | x in xs :: IntsFit(x)
    case JObj(m) => forall k | k in m :: IntsFit(m[k])
    case _ => true
  }

  /** Erasing the types of a decoded tree restores it exactly when no integer was narrowed. */
  lemma {:induction false} EraseUndoesDecode(j: Json)
    ensures ToJson(Decode(j)) == j <==> IntsFit(j)
  {
    match j
    case JArr(xs) =>
      forall i | 0 <= i < |xs| ensures ToJson(Decode(xs[i])) == xs[i] <==> IntsFit(xs[i]) {
        EraseUndoesDecode(xs[i]);
      }
      var ys := ToJsonAll(DecodeAll(xs));
      assert ys == xs <==> forall i | 0 <= i < |xs| :: ys[i] == xs[i];
    case JObj(m) =>
      forall k | k in m ensures ToJson(Decode(m[k])) == m[k] <==> IntsFit(m[k]) {
        EraseUndoesDecode(m[k]);
      }
      var f := ToJson(Decode(j)).fields;
      assert f.Keys == m.Keys;
      assert f == m <==> forall k | k in m :: f[k] == m[k];
    case _ =>
  }

  // ---------------------------------------------------------------- json_loadb

  /** The children a range-for over a JSON value visits. */
  ghost function Children(j: Json): seq<Json> {
    match j
    case JArr(xs) => xs
    case JObj(m) =>
      SortedKeysAreKeys(m.Keys);
      var keys := SortedKeys(m.Keys);
      seq(|keys|, i requires 0 <= i < |keys| => m[keys[i]])
    case JNull => []
    case _ => [j]
  }

  ghost function LoadJson(text: Text): Result<seq<Value>> {
    match text
    case NotJson => Err(ParseError)
    case Dump(j) => Ok(DecodeAll(Children(j)))
  }

  /** The keys occur once each, all of them, in ascending byte order. */
  ghost predicate InKeyOrder(keys: seq<string>, m: map<string, Json>) {
    && (forall k | k in keys :: k in m)
    && (forall k | k in m :: k in keys)
    && forall x, y | 0 <= x < y < |keys| :: keys[x] != keys[y] && StringLe(keys[x], keys[y])
  }

  /** What `json_loadb` loads: the elements of an array in order, the values of an object in key order,
      nothing from null, and any other scalar once. */
  lemma {:induction false} LoadJsonExact(text: Text)
    ensures LoadJson(text).Err? <==> text.NotJson?
    ensures text.NotJson? ==> LoadJson(text).error == ParseError
    ensures text.Dump? ==>
      var vs := LoadJson(text).value;
      match text.json
      case JArr(xs) => |vs| == |xs| && forall i | 0 <= i < |xs| :: vs[i] == Decode(xs[i])
      case JObj(m) => exists keys ::
        InKeyOrder(keys, m) && |vs| == |keys| && forall i | 0 <= i < |keys| :: vs[i] == Decode(m[keys[i]])
      case JNull => vs == []
      case _ => vs == [Decode(text.json)]
  {
    if text.Dump? && text.json.JObj? {
      var m := text.json.fields;
      var keys := SortedKeys(m.Keys);
      SortedKeysAreKeys(m.Keys);
      SortedKeysAscend(m.Keys);
      assert InKeyOrder(keys, m);
    }
  }

  method ObjectChildren(m: map<string, Json>) returns (keys: seq<string>, children: seq<Json>)
    ensures keys == SortedKeys(m.Keys) && |children| == |keys|
    ensures forall x | 0 <= x < |keys| :: keys[x] in m && children[x] == m[keys[x]]
  {
    keys, children := [], [];
    var todo := m.Keys;
    while todo != {}
      invariant todo <= m.Keys
      invariant keys + SortedKeys(todo) == SortedKeys(m.Keys)
      invariant |children| == |keys|
      invariant forall x | 0 <= x < |keys| :: keys[x] in m && children[x] == m[keys[x]]
    {
      var key := TakeLeast(todo);
      ghost var rest := SortedKeys(todo - {key});
      assert keys + ([key] + rest) == (keys + [key]) + rest;
      keys, children, todo := keys + [key], children + [m[key]], todo - {key};
    }
  }

  /** The JSON library's iteration: array order, or key order, or the scalar itself once. */
  method Iterate(j: Json) returns (children: seq<Json>)
    ensures children == Children(j)
  {
    match j
    case JArr(xs) => children := xs;
    case JNull => children := [];
    case JObj(m) =>
      var keys;
      keys, children := ObjectChildren(m);
      assert children == Children(j);
    case _ => children := [j];
  }

  method TakeLeast(keys: set<string>) returns (k: string)
    requires keys != {}
    ensures k in keys && SortedKeys(keys) == [k] + SortedKeys(keys - {k})
  {
    LeastExists(keys);
    k :| k in keys && IsLeast(k, keys);
    SortedKeysFirst(k, keys);
  }

  method JsonLoadb(text: Text) returns (r: Result<seq<Value>>)
    ensures r == LoadJson(text)
  {
    if text.NotJson? { return Err(ParseError); }
    var children := Iterate(text.json);
    var vec: seq<Value> := [];
    for i := 0 to |children|
      invariant |vec| == i
      invariant forall x | 0 <= x < i :: vec[x] == Decode(children[x])
    {
      var value := ParseJsonElement(children[i]);
      vec := vec + [value];
    }
    assert vec == DecodeAll(children);
    r := Ok(vec);
  }

  // ---------------------------------------------------------------- requests

  /** `rpc_encode_req`: the body [0, id, method, arguments, {}]. */
  function EncodeReq(id: string, meth: string, args: seq<Value>): Json {
    JArr([JInt(0), JString(id), JString(meth), JArr(ToJsonAll(args)), JObj(map[])])
  }

  datatype Request = Request(id: string, meth: string, args: seq<Value>, kws: map<string, Value>)

  /** `rpc_decode_req`: the outcome of its casts and asserts, taken in order. */
  function DecodeReq(data: seq<Value>, checkId: string): Result<Request> {
    if |data| < 1 then Err(OutOfRange)
    else if !data[0].VInt? then Err(BadAnyCast)
    else if data[0].n != 0 then Err(AssertFailed)
    else if |data| < 2 then Err(OutOfRange)
    else if !data[1].VString? then Err(BadAnyCast)
    else if checkId != "" && data[1].s != checkId then Err(AssertFailed)
    else if |data| < 3 then Err(OutOfRange)
    else if !data[2].VString? then Err(BadAnyCast)
    else if |data| < 4 then Err(OutOfRange)
    else if TypeOf(data[3]) != TVec(TAny) then Err(BadAnyCast)
    else if |data| < 5 then Err(OutOfRange)
    else if TypeOf(data[4]) != TMap(TAny) then Err(BadAnyCast)
    else Ok(Request(data[1].s, data[2].s, data[3].items, data[4].fields))
  }

  /** A request is accepted exactly when its five leading elements spell it out. */
  lemma {:induction false} DecodeReqExact(data: seq<Value>, checkId: string, req: Request)
    ensures DecodeReq(data, checkId) == Ok(req) <==>
      && |data| >= 5
      && data[..5] == [VInt(0), VString(req.id), VString(req.meth), VVec(TAny, req.args), VMap(TAny, req.kws)]
      && (checkId == "" || checkId == req.id)
  {}

  /** How a request is refused: a field that is not there, an id or type tag that fails its assert, and a
      field of the wrong type, whichever comes first. */
  lemma {:induction false} DecodeReqRefuses(data: seq<Value>, checkId: string)
    ensures DecodeReq(data, checkId) == Err(AssertFailed) <==>
      && |data| >= 1 && data[0].VInt?
      && (data[0].n != 0 || (|data| >= 2 && data[1].VString? && checkId != "" && checkId != data[1].s))
    ensures DecodeReq(data, checkId) == Err(OutOfRange) <==>
      && |data| < 5
      && (|data| >= 1 ==> data[0] == VInt(0))
      && (|data| >= 2 ==> data[1].VString? && (checkId == "" || checkId == data[1].s))
      && (|data| >= 3 ==> data[2].VString?)
      && (|data| >= 4 ==> TypeOf(data[3]) == TVec(TAny))
    ensures DecodeReq(data, checkId).Err? ==> DecodeReq(data, checkId).error in {AssertFailed, OutOfRange, BadAnyCast}
  {}

  /** The decoders undo `rpc_encode_req`, up to the loss of static argument types; the id assert
      fails exactly on a non-empty header that differs from the id in the body. */
  lemma {:induction false} RequestRoundTrip(id: string, meth: string, args: seq<Value>, header: string)
    ensures LoadJson(Dump(EncodeReq(id, meth, args))).Ok?
    ensures DecodeReq(LoadJson(Dump(EncodeReq(id, meth, args))).value, header) ==
      if header == "" || header == id
      then Ok(Request(id, meth, DecodeAll(ToJsonAll(args)), map[]))
      else Err(AssertFailed)
  {}

  // ---------------------------------------------------------------- replies

  /** The body [type, id, error, result] that `send_reply` builds. */
  function EncodeRep(typ: int, id: string, error: string, result: Json): Json {
    JArr([JInt(typ), JString(id), JString(error), result])
  }

  datatype Reply = Reply(error: string, result: Text)

  /** `get<int>`: numbers and booleans convert, everything else is a type error. */
  function GetInt(j: Json): Result<int> {
    match j
    case JInt(n) => Ok(ToInt32(n))
    case JDouble(d) => Ok(ToInt32(d.whole))
    case JBool(b) => Ok(if b then 1 else 0)
    case _ => Err(TypeError)
  }

  /** `rpc_decode_rep`.  The error is taken only from a string; a missing result reads as null. */
  function DecodeRep(text: Text, checkId: string): Result<Reply> {
    if text.NotJson? then Err(ParseError)
    else if !text.json.JArr? then Err(TypeError)
    else
      var typ := GetInt(Element(text.json, 0).value);
      if typ.Err? then Err(typ.error)
      else if typ.value != 1 then Err(AssertFailed)
      else
        var id := Element(text.json, 1).value;
        if !id.JString? then Err(TypeError)
        else if checkId != "" && id.s != checkId then Err(AssertFailed)
        else
          var e := Element(text.json, 2).value;
          Ok(Reply(if e.JString? then e.s else "", Dump(Element(text.json, 3).value)))
  }

  /** The first field reads as the type tag 1. */
  predicate ReadsAsOne(j: Json) {
    match j
    case JInt(n) => (n - 1) % 0x1_0000_0000 == 0
    case JDouble(d) => (d.whole - 1) % 0x1_0000_0000 == 0
    case JBool(b) => b
    case _ => false
  }

  /** A reply is accepted exactly when it is an array that starts with the type tag and a string that
      agrees with a non-empty header.  Its error is the third field if that is a string, and empty if it
      is anything else or missing; its result is the fourth field, or null if that is missing. */
  lemma {:induction false} DecodeRepExact(text: Text, checkId: string, reply: Reply)
    ensures DecodeRep(text, checkId) == Ok(reply) <==>
      && text.Dump? && text.json.JArr?
      && var xs := text.json.items;
      && |xs| >= 2 && ReadsAsOne(xs[0])
      && xs[1].JString? && (checkId == "" || checkId == xs[1].s)
      && reply.error == (if |xs| > 2 && xs[2].JString? then xs[2].s else "")
      && reply.result == Dump(if |xs| > 3 then xs[3] else JNull)
  {}

  /** How a reply is refused: text that does not parse; a tag other than 1, or an id that differs from a
      non-empty header; and everything else that has not the right types. */
  lemma {:induction false} DecodeRepRefuses(text: Text, checkId: string)
    ensures DecodeRep(text, checkId) == Err(ParseError) <==> text.NotJson?
    ensures DecodeRep(text, checkId) == Err(AssertFailed) <==>
      && text.Dump? && text.json.JArr?
      && var xs := text.json.items;
      && |xs| >= 1 && (xs[0].JInt? || xs[0].JDouble? || xs[0].JBool?)
      && (!ReadsAsOne(xs[0]) || (|xs| >= 2 && xs[1].JString? && checkId != "" && checkId != xs[1].s))
    ensures DecodeRep(text, checkId).Err? ==> DecodeRep(text, checkId).error in {ParseError, AssertFailed, TypeError}
  {}

  /** A reply that decodes always carries a result that parses. */
  lemma {:induction false} DecodedRepParses(text: Text, checkId: string)
    ensures DecodeRep(text, checkId).Ok? ==> DecodeRep(text, checkId).value.result.Dump?
  {}

  lemma {:induction false} ReplyRoundTrip(id: string, error: string, result: Json, header: string)
    ensures DecodeRep(Dump(EncodeRep(1, id, error, result)), header) ==
      if header == "" || header == id then Ok(Reply(error, Dump(result))) else Err(AssertFailed)
  {}
}
