/** C++ values as the framework sees them: held in a `std::any`, or as typed parameters. */
module Values {
  import opened Json

  /** Static types.  `TAny` is `std::any` and occurs only as an element type: the decoder builds
      `std::vector<std::any>` (`TVec(TAny)`) and `std::map<string, std::any>` (`TMap(TAny)`). */
  datatype Ty = TInt | TDouble | TString | TBool | TNull | TAny | TVec(elem: Ty) | TMap(elem: Ty)

  /** Values.  A container carries its static element type. */
  datatype Value =
    | VInt(n: int)
    | VDouble(d: Double)
    | VString(s: string)
    | VBool(b: bool)
    | VNull
    | VVec(elem: Ty, items: seq<Value>)
    | VMap(elem: Ty, fields: map<string, Value>)

  /** The dynamic type that `std::any::type` reports. */
  function TypeOf(v: Value): Ty {
    match v
    case VInt(_) => TInt
    case VDouble(_) => TDouble
    case VString(_) => TString
    case VBool(_) => TBool
    case VNull => TNull
    case VVec(t, _) => TVec(t)
    case VMap(t, _) => TMap(t)
  }

  predicate IsScalar(t: Ty) {
    t.TInt? || t.TDouble? || t.TString? || t.TBool? || t.TNull?
  }

  /** A parameter type: the code does not compile for a bare `std::any` parameter. */
  type ParamTy = t: Ty | !t.TAny? witness TInt

  const INT_MIN: int := -0x8000_0000
  const INT_MAX: int := 0x7fff_ffff

  predicate FitsInt(n: int) { INT_MIN <= n <= INT_MAX }

  /** `static_cast<int>` from a 64-bit integer. */
  function ToInt32(n: int): (r: int)
    ensures -0x8000_0000 <= r <= 0x7fff_ffff
    ensures -0x8000_0000 <= n <= 0x7fff_ffff <==> r == n
    ensures (r - n) % 0x1_0000_0000 == 0
  {
    (n - INT_MIN) % 0x1_0000_0000 + INT_MIN
  }

  /** A value a C++ program can hold: ints fit, and container elements have the element type. */
  predicate WellTyped(v: Value) {
    match v
    case VInt(n) => FitsInt(n)
    case VVec(t, xs) => forall x | x in xs :: WellTyped(x) && (t.TAny? || TypeOf(x) == t)
    case VMap(t, m) => forall k | k in m :: WellTyped(m[k]) && (t.TAny? || TypeOf(m[k]) == t)
    case _ => true
  }

  /** Conversion of a value to JSON, as the JSON library's constructors do it. */
  function ToJson(v: Value): Json
    decreases v, 1
  {
    match v
    case VInt(n) => JInt(n)
    case VDouble(d) => JDouble(d)
    case VString(s) => JString(s)
    case VBool(b) => JBool(b)
    case VNull => JNull
    case VVec(_, xs) => JArr(ToJsonAll(xs))
    case VMap(_, m) => JObj(ToJsonFields(v))
  }

  function ToJsonAll(vs: seq<Value>): (js: seq<Json>)
    ensures |js| == |vs|
    ensures forall i | 0 <= i < |vs| :: js[i] == ToJson(vs[i])
  {
    if vs == [] then [] else [ToJson(vs[0])] + ToJsonAll(vs[1..])
  }

  function ToJsonFields(v: Value): (f: map<string, Json>)
    requires v.VMap?
    ensures f.Keys == v.fields.Keys
    ensures forall k | k in f :: f[k] == ToJson(v.fields[k])
    decreases v, 0
  {
    map k | k in v.fields :: ToJson(v.fields[k])
  }
}
