/** JSON values, JSON texts, and the key order in which the JSON library walks an object. */
module Json {
  import opened Wrappers

  /** A double is an opaque bit pattern, together with the integer it truncates to: nothing else is
      ever computed from it. */
  datatype Double = Double(bits: nat, whole: int)

  const ZERO := Double(0, 0)

  datatype Json =
    | JNull
    | JBool(b: bool)
    | JInt(n: int)
    | JDouble(d: Double)
    | JString(s: string)
    | JArr(items: seq<Json>)
    | JObj(fields: map<string, Json>)

  /** A string that is read as JSON: either the dump of a value, or text that does not parse.
      The empty string is `NotJson`. */
  datatype Text = NotJson | Dump(json: Json)

  function Parse(text: Text): Result<Json> {
    match text
    case NotJson => Err(ParseError)
    case Dump(j) => Ok(j)
  }

  /** Non-const `operator[](size_type)`: a missing array element is created as null. */
  function Element(j: Json, i: nat): Result<Json> {
    match j
    case JArr(items) => Ok(if i < |items| then items[i] else JNull)
    case JNull => Ok(JNull)
    case _ => Err(TypeError)
  }

  // ---------------------------------------------------------------- key order

  predicate StringLe(a: string, b: string) {
    a == "" || (b != "" && (a[0] < b[0] || (a[0] == b[0] && StringLe(a[1..], b[1..]))))
  }

  lemma {:induction false} StringLeTotal(a: string, b: string)
    ensures StringLe(a, b) || StringLe(b, a)
    ensures StringLe(a, b) && StringLe(b, a) ==> a == b
  {
    if a != "" && b != "" {
      StringLeTotal(a[1..], b[1..]);
      assert a == [a[0]] + a[1..] && b == [b[0]] + b[1..];
    }
  }

  lemma {:induction false} StringLeTransitive(a: string, b: string, c: string)
    requires StringLe(a, b) && StringLe(b, c)
    ensures StringLe(a, c)
  {
    if a != "" && a[0] == b[0] == c[0] {
      StringLeTransitive(a[1..], b[1..], c[1..]);
    }
  }

  predicate IsLeast(k: string, keys: set<string>) {
    k in keys && forall x | x in keys :: StringLe(k, x)
  }

  lemma {:induction false} LeastExists(keys: set<string>)
    requires keys != {}
    ensures exists k :: IsLeast(k, keys)
    decreases |keys|
  {
    var k :| k in keys;
    var rest := keys - {k};
    StringLeTotal(k, k);
    if rest == {} {
      assert keys == {k};
      assert IsLeast(k, keys);
    } else {
      LeastExists(rest);
      var m :| IsLeast(m, rest);
      StringLeTotal(k, m);
      if StringLe(k, m) {
        forall x | x in keys ensures StringLe(k, x) {
          if x != k { StringLeTransitive(k, m, x); }
        }
        assert IsLeast(k, keys);
      } else {
        assert IsLeast(m, keys);
      }
    }
  }

  /** The keys of an object in iteration order. */
  ghost function SortedKeys(keys: set<string>): seq<string> {
    if keys == {} then []
    else
      LeastExists(keys);
      var k :| IsLeast(k, keys);
      [k] + SortedKeys(keys - {k})
  }

  lemma {:induction false} SortedKeysAreKeys(keys: set<string>)
    ensures |SortedKeys(keys)| == |keys|
    ensures forall i | 0 <= i < |keys| :: SortedKeys(keys)[i] in keys
  {
    if keys != {} {
      var r := SortedKeys(keys);
      SortedKeysAreKeys(keys - {r[0]});
    }
  }

  /** Any least key is the one `SortedKeys` starts with. */
  lemma {:induction false} SortedKeysFirst(k: string, keys: set<string>)
    requires IsLeast(k, keys)
    ensures SortedKeys(keys) == [k] + SortedKeys(keys - {k})
  {
    LeastExists(keys);
    forall m | IsLeast(m, keys) ensures m == k { StringLeTotal(m, k); }
  }

  /** Up to i the strings agree, and there a ends or has the smaller character. */
  predicate LessFrom(a: string, b: string, i: nat) {
    && i <= |a| && i <= |b| && (forall k | 0 <= k < i :: a[k] == b[k])
    && (i == |a| || (i < |b| && a[i] < b[i]))
  }

  lemma {:induction false} LessIsLe(a: string, b: string, i: nat)
    requires LessFrom(a, b, i)
    ensures StringLe(a, b)
  {
    if i > 0 { LessIsLe(a[1..], b[1..], i - 1); }
  }

  lemma {:induction false} LeIsLess(a: string, b: string) returns (i: nat)
    requires StringLe(a, b)
    ensures LessFrom(a, b, i)
  {
    i := 0;
    if a != "" && a[0] == b[0] {
      i := LeIsLess(a[1..], b[1..]);
      assert forall k | 1 <= k < i + 1 :: a[k] == a[1..][k - 1] && b[k] == b[1..][k - 1];
      i := i + 1;
    }
  }

  /** The order of strings: a prefix comes first, otherwise the first different character decides. */
  lemma {:induction false} StringLeExact(a: string, b: string)
    ensures StringLe(a, b) <==> exists i :: LessFrom(a, b, i)
  {
    if StringLe(a, b) { var i := LeIsLess(a, b); }
    forall i | LessFrom(a, b, i) ensures StringLe(a, b) { LessIsLe(a, b, i); }
  }

  /** Every key of a set is among its sorted keys, and they ascend strictly. */
  lemma {:induction false} SortedKeysAscend(keys: set<string>)
    ensures forall k | k in keys :: k in SortedKeys(keys)
    ensures forall x, y | 0 <= x < y < |SortedKeys(keys)| ::
              SortedKeys(keys)[x] != SortedKeys(keys)[y] && StringLe(SortedKeys(keys)[x], SortedKeys(keys)[y])
  {
    if keys != {} {
      LeastExists(keys);
      var k := SortedKeys(keys)[0];
      assert IsLeast(k, keys);
      var rest := SortedKeys(keys - {k});
      SortedKeysAreKeys(keys - {k});
      SortedKeysAscend(keys - {k});
      forall y | 0 <= y < |rest| ensures rest[y] != k && StringLe(k, rest[y]) { assert rest[y] in keys - {k}; }
    }
  }
}
