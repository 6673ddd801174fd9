/** include/server.inl: typed recovery of arguments, and the call proxies. */
module Recovery {
  import opened Wrappers
  import opened Json
  import opened Values
  import opened RpcUtils

  // ---------------------------------------------------------------- getv and get_tuple

  function Default(t: Ty): Value
    requires IsScalar(t)
  {
    match t
    case TInt => VInt(0)
    case TDouble => VDouble(ZERO)
    case TString => VString("")
    case TBool => VBool(false)
    case TNull => VNull
  }

  /** What `getv` puts into a tuple element of type `t`, or the cast that throws. */
  function Recover(data: Value, t: ParamTy): Result<Value> {
    if TypeOf(data) == t then Ok(data)
    else if IsScalar(t) then Ok(Default(t))
    else if t.TVec? then
      if TypeOf(data) == TVec(TAny) && forall x | x in data.items :: TypeOf(x) == t.elem
      then Ok(VVec(t.elem, data.items)) else Err(BadAnyCast)
    else
      if TypeOf(data) == TMap(TAny) && forall k | k in data.fields :: TypeOf(data.fields[k]) == t.elem
      then Ok(VMap(t.elem, data.fields)) else Err(BadAnyCast)
  }

  method GetV(data: Value, t: ParamTy) returns (r: Result<Value>)
    ensures r == Recover(data, t)
    ensures TypeOf(data) == t ==> r == Ok(data)
    ensures TypeOf(data) != t ==>
      match t
      case TInt => r == Ok(VInt(0))
      case TDouble => r == Ok(VDouble(Double(0, 0)))
      case TString => r == Ok(VString(""))
      case TBool => r == Ok(VBool(false))
      case TNull => r == Ok(VNull)
      case _ => r.Ok? ==> TypeOf(r.value) == t
  {
    if TypeOf(data) == t { return Ok(data); }
    if IsScalar(t) { return Ok(Default(t)); }
    if t.TVec? {
      if TypeOf(data) != TVec(TAny) { return Err(BadAnyCast); }
      var out: seq<Value> := [];
      for i := 0 to |data.items|
        invariant out == data.items[..i]
        invariant forall x | x in out :: TypeOf(x) == t.elem
      {
        if TypeOf(data.items[i]) != t.elem { return Err(BadAnyCast); }
        out := out + [data.items[i]];
      }
      assert out == data.items;
      r := Ok(VVec(t.elem, out));
    } else {
      if TypeOf(data) != TMap(TAny) { return Err(BadAnyCast); }
      var out: map<string, Value> := map[];
      var todo := data.fields.Keys;
      while todo != {}
        invariant todo <= data.fields.Keys
        invariant out.Keys == data.fields.Keys - todo
        invariant forall k | k in out :: out[k] == data.fields[k] && TypeOf(out[k]) == t.elem
      {
        var key :| key in todo;
        if TypeOf(data.fields[key]) != t.elem { return Err(BadAnyCast); }
        out := out[key := data.fields[key]];
        todo := todo - {key};
      }
      assert out == data.fields;
      r := Ok(VMap(t.elem, out));
    }
  }

  /** The parameter tuple, filled from left to right. */
  function RecoverAll(data: seq<Value>, types: seq<ParamTy>): Result<seq<Value>> {
    if types == [] then Ok([])
    else
      var n := |types| - 1;
      var init := RecoverAll(data, types[..n]);
      if init.Err? then init
      else if n >= |data| then Err(OutOfRange)
      else
        var last := Recover(data[n], types[n]);
        if last.Err? then Err(last.error) else Ok(init.value + [last.value])
  }

  /** A failure while filling a prefix is the failure of the whole tuple. */
  lemma {:induction false} FailureIsFinal(data: seq<Value>, types: seq<ParamTy>, n: nat)
    requires n <= |types| && RecoverAll(data, types[..n]).Err?
    ensures RecoverAll(data, types) == RecoverAll(data, types[..n])
  {
    if n < |types| {
      var shorter := types[..|types| - 1];
      assert shorter[..n] == types[..n];
      FailureIsFinal(data, shorter, n);
    } else {
      assert types[..n] == types;
    }
  }

  method GetTuple(data: seq<Value>, types: seq<ParamTy>) returns (r: Result<seq<Value>>)
    ensures r == RecoverAll(data, types)
  {
    var t: seq<Value> := [];
    for i := 0 to |types|
      invariant RecoverAll(data, types[..i]) == Ok(t)
    {
      assert types[..i + 1][..i] == types[..i];
      if i >= |data| {
        FailureIsFinal(data, types, i + 1);
        return Err(OutOfRange);
      }
      var v := GetV(data[i], types[i]);
      if v.Err? {
        FailureIsFinal(data, types, i + 1);
        return Err(v.error);
      }
      t := t + [v.value];
    }
    assert types[..|types|] == types;
    r := Ok(t);
  }

  /** The tuple exists exactly when there are enough arguments and each is recovered on its own;
      surplus arguments are ignored. */
  lemma {:induction false} RecoverAllExact(data: seq<Value>, types: seq<ParamTy>, vs: seq<Value>)
    ensures RecoverAll(data, types) == Ok(vs) <==>
      && |vs| == |types| <= |data|
      && forall i | 0 <= i < |types| :: Recover(data[i], types[i]) == Ok(vs[i])
  {
    if types != [] {
      var n := |types| - 1;
      if vs != [] {
        RecoverAllExact(data, types[..n], vs[..|vs| - 1]);
        assert vs == vs[..|vs| - 1] + [vs[|vs| - 1]];
      }
      var init := RecoverAll(data, types[..n]);
      if init.Ok? && vs != [] && init.value != vs[..|vs| - 1] && n < |data| && Recover(data[n], types[n]).Ok? {
        var w := init.value + [Recover(data[n], types[n]).value];
        assert w[..|w| - 1] == init.value;
      }
    }
  }

  /** The tuple fails at the first parameter that has no argument, or whose argument is not recovered. */
  lemma {:induction false} RecoverAllFails(data: seq<Value>, types: seq<ParamTy>, e: Failure)
    ensures RecoverAll(data, types) == Err(e) <==>
      exists i :: 0 <= i < |types| && FailsAt(data, types, i, e)
  {
    if types != [] {
      var n := |types| - 1;
      RecoverAllFails(data, types[..n], e);
      var init := RecoverAll(data, types[..n]);
      if init.Ok? {
        RecoverAllExact(data, types[..n], init.value);
        assert FailsAt(data, types, n, e) <==> RecoverAll(data, types) == Err(e);
        forall i | 0 <= i < n ensures !FailsAt(data, types, i, e) { assert Recover(data[i], types[..n][i]).Ok?; }
      } else {
        RecoverAllFails(data, types[..n], init.error);
        var i :| 0 <= i < n && FailsAt(data, types[..n], i, init.error);
        assert FailsAt(data, types, i, init.error);
      }
    }
  }

  /** The parameters before i are recovered, and i fails in this way. */
  ghost predicate FailsAt(data: seq<Value>, types: seq<ParamTy>, i: nat, e: Failure)
    requires i < |types|
  {
    && i <= |data| && (forall k | 0 <= k < i :: Recover(data[k], types[k]).Ok?)
    && if i == |data| then e == OutOfRange else Recover(data[i], types[i]) == Err(e)
  }

  // ---- which JSON values are recovered

  /** The JSON value decodes to exactly the C++ type `t`. */
  predicate HasJsonType(j: Json, t: Ty) {
    match j
    case JNull => t == TNull
    case JBool(_) => t == TBool
    case JInt(_) => t == TInt
    case JDouble(_) => t == TDouble
    case JString(_) => t == TString
    case JArr(_) => t == TVec(TAny)
    case JObj(_) => t == TMap(TAny)
  }

  predicate ElementsHaveType(j: Json, t: Ty) {
    match (j, t)
    case (JArr(xs), TVec(e)) => forall x | x in xs :: HasJsonType(x, e)
    case (JObj(m), TMap(e)) => forall k | k in m :: HasJsonType(m[k], e)
    case _ => false
  }

  lemma {:induction false} DecodedTypeExact(j: Json, t: Ty)
    ensures TypeOf(Decode(j)) == t <==> HasJsonType(j, t)
  {}

  lemma {:induction false} DecodedElementTypes(js: seq<Json>, t: Ty)
    ensures (forall v | v in DecodeAll(js) :: TypeOf(v) == t) <==> (forall j | j in js :: HasJsonType(j, t))
  {
    var vs := DecodeAll(js);
    forall i | 0 <= i < |js| ensures TypeOf(vs[i]) == t <==> HasJsonType(js[i], t) {
      DecodedTypeExact(js[i], t);
    }
    if forall v | v in vs :: TypeOf(v) == t {
      forall i | 0 <= i < |js| ensures HasJsonType(js[i], t) { assert vs[i] in vs; }
    }
  }

  lemma {:induction false} DecodedFieldTypes(j: Json, t: Ty)
    requires j.JObj?
    ensures
      var f := DecodeFields(j);
      (forall k | k in f :: TypeOf(f[k]) == t) <==> (forall k | k in j.fields :: HasJsonType(j.fields[k], t))
  {
    var f := DecodeFields(j);
    forall k | k in f ensures TypeOf(f[k]) == t <==> HasJsonType(j.fields[k], t) {
      DecodedTypeExact(j.fields[k], t);
    }
    if forall k | k in f :: TypeOf(f[k]) == t {
      forall k | k in j.fields ensures HasJsonType(j.fields[k], t) { assert k in f; }
    }
  }

  /** Exact classification of typed recovery from a JSON value. */
  lemma {:induction false} RecoverExact(j: Json, t: ParamTy)
    ensures Recover(Decode(j), t).Ok? <==> HasJsonType(j, t) || IsScalar(t) || ElementsHaveType(j, t)
    ensures Recover(Decode(j), t).Err? ==> Recover(Decode(j), t).error == BadAnyCast
    ensures HasJsonType(j, t) ==> Recover(Decode(j), t) == Ok(Decode(j))
    ensures IsScalar(t) && !HasJsonType(j, t) ==>
      match t
      case TInt => Recover(Decode(j), t) == Ok(VInt(0))
      case TDouble => Recover(Decode(j), t) == Ok(VDouble(Double(0, 0)))
      case TString => Recover(Decode(j), t) == Ok(VString(""))
      case TBool => Recover(Decode(j), t) == Ok(VBool(false))
      case TNull => Recover(Decode(j), t) == Ok(VNull)
    ensures !HasJsonType(j, t) && ElementsHaveType(j, t) ==>
      match j
      case JArr(xs) => Recover(Decode(j), t) == Ok(VVec(t.elem, DecodeAll(xs)))
      case JObj(m) => Recover(Decode(j), t) == Ok(VMap(t.elem, DecodeFields(j)))
      case _ => false
  {
    DecodedTypeExact(j, t);
    if t.TVec? && j.JArr? { DecodedElementTypes(j.items, t.elem); }
    if t.TMap? && j.JObj? { DecodedFieldTypes(j, t.elem); }
  }

  /** A recovered value has the parameter's type. */
  lemma {:induction false} RecoveredType(data: Value, t: ParamTy)
    ensures Recover(data, t).Ok? ==> TypeOf(Recover(data, t).value) == t
  {}

  /** A vector or map of typed containers is never recovered from a non-empty array or object. */
  lemma {:induction false} NestedContainersFail(j: Json, t: ParamTy)
    requires t.TVec? || t.TMap?
    requires (t.elem.TVec? || t.elem.TMap?) && !t.elem.elem.TAny?
    requires (j.JArr? && j.items != []) || (j.JObj? && j.fields != map[])
    ensures Recover(Decode(j), t) == Err(BadAnyCast)
  {
    RecoverExact(j, t);
    match j
    case JArr(xs) => assert xs[0] in xs && !HasJsonType(xs[0], t.elem);
    case JObj(m) =>
      var k :| k in m;
      assert !HasJsonType(m[k], t.elem);
    case _ =>
  }

  // ---- the argument round trip

  /** JSON conversion compiles only for types that do not mention `std::any`. */
  predicate Serializable(t: Ty) {
    match t
    case TAny => false
    case TVec(e) => Serializable(e)
    case TMap(e) => Serializable(e)
    case _ => true
  }

  /** A scalar, or a container whose elements are all scalars (in particular an empty one). */
  predicate Flat(v: Value) {
    match v
    case VVec(_, xs) => forall x | x in xs :: IsScalar(TypeOf(x))
    case VMap(_, m) => forall k | k in m :: IsScalar(TypeOf(m[k]))
    case _ => true
  }

  lemma {:induction false} ScalarRoundTrip(v: Value)
    requires WellTyped(v)
    ensures IsScalar(TypeOf(v)) ==> Decode(ToJson(v)) == v
    ensures !IsScalar(TypeOf(v)) ==> TypeOf(Decode(ToJson(v))) in {TVec(TAny), TMap(TAny)}
  {}

  lemma {:induction false} ElementRoundTrip(v: Value, t: Ty)
    requires WellTyped(v) && TypeOf(v) == t && Serializable(t)
    ensures TypeOf(Decode(ToJson(v))) == t <==> IsScalar(t)
    ensures IsScalar(t) ==> Decode(ToJson(v)) == v
  {}

  /** Recovery of a decoded vector `ds` standing for the typed elements `xs`. */
  lemma {:induction false} VectorRecovered(t: Ty, xs: seq<Value>, ds: seq<Value>)
    requires !t.TAny? && |ds| == |xs|
    requires forall i | 0 <= i < |ds| :: (TypeOf(ds[i]) == t <==> IsScalar(t)) && (IsScalar(t) ==> ds[i] == xs[i])
    ensures Recover(VVec(TAny, ds), TVec(t)) == Ok(VVec(t, xs)) <==> IsScalar(t) || xs == []
  {
    if IsScalar(t) || xs == [] {
      assert ds == xs;
    } else {
      assert ds[0] in ds && TypeOf(ds[0]) != t;
    }
  }

  lemma {:induction false} MapRecovered(t: Ty, m: map<string, Value>, ds: map<string, Value>)
    requires !t.TAny? && ds.Keys == m.Keys
    requires forall k | k in ds :: (TypeOf(ds[k]) == t <==> IsScalar(t)) && (IsScalar(t) ==> ds[k] == m[k])
    ensures Recover(VMap(TAny, ds), TMap(t)) == Ok(VMap(t, m)) <==> IsScalar(t) || m == map[]
  {
    if IsScalar(t) || m == map[] {
      assert ds == m;
    } else {
      var k :| k in m;
      assert TypeOf(ds[k]) != t;
    }
  }

  lemma {:induction false} VectorRoundTrip(t: Ty, xs: seq<Value>)
    requires Serializable(t)
    requires forall i | 0 <= i < |xs| :: WellTyped(xs[i]) && TypeOf(xs[i]) == t
    ensures Recover(VVec(TAny, DecodeAll(ToJsonAll(xs))), TVec(t)) == Ok(VVec(t, xs)) <==> IsScalar(t) || xs == []
  {
    var js := ToJsonAll(xs);
    var ds := DecodeAll(js);
    forall i | 0 <= i < |ds|
      ensures (TypeOf(ds[i]) == t <==> IsScalar(t)) && (IsScalar(t) ==> ds[i] == xs[i])
    {
      ElementRoundTrip(xs[i], t);
      assert ds[i] == Decode(js[i]);
    }
    VectorRecovered(t, xs, ds);
  }

  lemma {:induction false} MapRoundTrip(t: Ty, m: map<string, Value>)
    requires Serializable(t)
    requires forall k | k in m :: WellTyped(m[k]) && TypeOf(m[k]) == t
    ensures Recover(VMap(TAny, DecodeFields(JObj(ToJsonFields(VMap(t, m))))), TMap(t)) == Ok(VMap(t, m))
            <==> IsScalar(t) || m == map[]
  {
    var js := ToJsonFields(VMap(t, m));
    var ds := DecodeFields(JObj(js));
    forall k | k in ds
      ensures (TypeOf(ds[k]) == t <==> IsScalar(t)) && (IsScalar(t) ==> ds[k] == m[k])
    {
      ElementRoundTrip(m[k], t);
      assert ds[k] == Decode(js[k]);
    }
    MapRecovered(t, m, ds);
  }

  /** A value comes back unchanged at its own type exactly when it is flat. */
  lemma {:induction false} ArgumentRoundTrip(v: Value)
    requires WellTyped(v) && Serializable(TypeOf(v))
    ensures Recover(Decode(ToJson(v)), TypeOf(v)) == Ok(v) <==> Flat(v)
  {
    if v.VVec? {
      VectorArgument(v.elem, v.items);
    } else if v.VMap? {
      MapArgument(v.elem, v.fields);
    } else {
      ScalarRoundTrip(v);
    }
  }

  lemma {:induction false} VectorArgument(t: Ty, xs: seq<Value>)
    requires WellTyped(VVec(t, xs)) && Serializable(t)
    ensures Recover(Decode(ToJson(VVec(t, xs))), TVec(t)) == Ok(VVec(t, xs)) <==> Flat(VVec(t, xs))
  {
    forall i | 0 <= i < |xs| ensures WellTyped(xs[i]) && TypeOf(xs[i]) == t { assert xs[i] in xs; }
    VectorRoundTrip(t, xs);
    if xs != [] { assert xs[0] in xs; }
  }

  lemma {:induction false} FlatMap(t: Ty, m: map<string, Value>)
    requires forall k | k in m :: TypeOf(m[k]) == t
    ensures Flat(VMap(t, m)) <==> IsScalar(t) || m == map[]
  {
    if m != map[] {
      var k :| k in m;
      assert IsScalar(TypeOf(m[k])) == IsScalar(t);
    }
  }

  lemma {:induction false} MapArgument(t: Ty, m: map<string, Value>)
    requires WellTyped(VMap(t, m)) && Serializable(t)
    ensures Recover(Decode(ToJson(VMap(t, m))), TMap(t)) == Ok(VMap(t, m)) <==> Flat(VMap(t, m))
  {
    forall k | k in m ensures WellTyped(m[k]) && TypeOf(m[k]) == t {}
    MapRoundTrip(t, m);
    FlatMap(t, m);
  }

  /** The types at which a caller's arguments are recovered by a matching method. */
  function TypesOf(vs: seq<Value>): (ts: seq<ParamTy>)
    ensures |ts| == |vs|
    ensures forall i | 0 <= i < |vs| :: ts[i] == TypeOf(vs[i])
  {
    if vs == [] then [] else [TypeOf(vs[0])] + TypesOf(vs[1..])
  }

  /** From the caller's argument list to the method's parameter tuple: encode, dump, parse, load,
      decode and recover.  The id, the method and empty keyword arguments always come back; the
      arguments come back exactly when every one of them is flat. */
  lemma {:induction false} CallRoundTrip(id: string, meth: string, args: seq<Value>)
    requires forall a | a in args :: WellTyped(a) && Serializable(TypeOf(a))
    ensures
      var data := LoadJson(Dump(EncodeReq(id, meth, args)));
      var req := DecodeReq(data.value, id);
      && data.Ok? && req.Ok?
      && req.value.id == id && req.value.meth == meth && req.value.kws == map[]
      && |req.value.args| == |args|
      && (RecoverAll(req.value.args, TypesOf(args)) == Ok(args) <==> forall a | a in args :: Flat(a))
  {
    RequestRoundTrip(id, meth, args, id);
    var ds := DecodeAll(ToJsonAll(args));
    RecoverAllExact(ds, TypesOf(args), args);
    forall i | 0 <= i < |args|
      ensures Recover(ds[i], TypesOf(args)[i]) == Ok(args[i]) <==> Flat(args[i])
    {
      assert args[i] in args;
      ArgumentRoundTrip(args[i]);
    }
    if forall i | 0 <= i < |args| :: Flat(args[i]) {
      assert forall a | a in args :: Flat(a);
    } else {
      var i :| 0 <= i < |args| && !Flat(args[i]);
      assert args[i] in args;
    }
  }
}
