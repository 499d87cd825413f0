/** The usual optional value. */
module Wrappers {

  datatype Option<+T> = None | Some(value: T)
}

/**
  A parsed JSON document as Qt's QJsonValue / QJsonObject / QJsonArray hold it,
  together with the lenient conversions Qt offers (`toArray`, `toObject`,
  `toString`, `toDouble`, `toInt`) and the key order of `QJsonObject::keys()`.
  The text form of JSON is not modelled: a document is this tree.
 */
module JsonValues {

  /** The 32-bit C++ `int`. */
  newtype int32 = x: int | -0x8000_0000 <= x < 0x8000_0000

  /** A JSON value. Numbers are kept as reals: the stores only copy them. */
  datatype Json =
    | JNull
    | JBool(b: bool)
    | JNum(n: real)
    | JStr(s: string)
    | JArr(items: seq<Json>)
    | JObj(fields: Object)

  /** A QJsonObject: keys are unique; the order of keys is the order of `Below`. */
  type Object = map<string, Json>

  /** `QJsonValue::toArray()`: the array, or the empty array for any other value. */
  function ToArray(v: Json): seq<Json> {
    if v.JArr? then v.items else []
  }

  /** `QJsonValue::toObject()`: the object, or the empty object for any other value. */
  function ToObject(v: Json): Object {
    if v.JObj? then v.fields else map[]
  }

  /** `QJsonValue::toString()`: the string, or the empty string for any other value. */
  function ToText(v: Json): string {
    if v.JStr? then v.s else ""
  }

  /** `QJsonValue::toDouble()`: the number, or 0 for any other value. */
  function ToDouble(v: Json): real {
    if v.JNum? then v.n else 0.0
  }

  /** `QJsonValue::toInt()`: a number that is whole and fits an `int`, otherwise 0. */
  function ToInt(v: Json): int32 {
    if v.JNum? && v.n == v.n.Floor as real && -0x8000_0000 <= v.n.Floor < 0x8000_0000
    then v.n.Floor as int32
    else 0
  }

  /** The JSON number that stores a C++ `int`. */
  function IntJson(i: int32): Json {
    JNum(i as int as real)
  }

  /** Lookup through a const QJsonObject: a missing key reads as an undefined value, which converts like null. */
  function Get(o: Object, key: string): Json {
    if key in o then o[key] else JNull
  }

  /**
    The side effect of the non-const `QJsonObject::operator[]`: every key that is
    looked up and missing is inserted with a null value.
   */
  function Touch(o: Object, keys: set<string>): (r: Object)
    ensures r.Keys == o.Keys + keys
    ensures forall k :: k in o ==> r[k] == o[k]
    ensures forall k :: k in keys && k !in o ==> r[k] == JNull
  {
    map k | k in o.Keys + keys :: if k in o then o[k] else JNull
  }

  /** Looking up keys that are all present inserts nothing. */
  lemma TouchPresent(o: Object, keys: set<string>)
    requires keys <= o.Keys
    ensures Touch(o, keys) == o
  {
  }

  /** A key that is looked up and then assigned ends with the assigned value either way. */
  lemma TouchThenSet(o: Object, key: string, v: Json)
    ensures Touch(o, {key})[key := v] == o[key := v]
  {
  }

  lemma IntJsonToInt(i: int32)
    ensures ToInt(IntJson(i)) == i
  {
  }

  /** Strict lexicographic order on keys by Unicode code point, the order QJsonObject keeps them in. */
  predicate Below(a: string, b: string)
    decreases |a|
  {
    |b| > 0 && (|a| == 0 || a[0] < b[0] || (a[0] == b[0] && Below(a[1..], b[1..])))
  }

  lemma {:induction false} BelowIrreflexive(a: string)
    ensures !Below(a, a)
    decreases |a|
  {
    if |a| > 0 {
      BelowIrreflexive(a[1..]);
    }
  }

  lemma {:induction false} BelowTransitive(a: string, b: string, c: string)
    requires Below(a, b) && Below(b, c)
    ensures Below(a, c)
    decreases |a|
  {
    if |a| > 0 && a[0] == b[0] && b[0] == c[0] {
      BelowTransitive(a[1..], b[1..], c[1..]);
    }
  }

  lemma {:induction false} BelowTotal(a: string, b: string)
    requires a != b
    ensures Below(a, b) || Below(b, a)
    decreases |a|
  {
    if |a| > 0 && |b| > 0 && a[0] == b[0] {
      assert a == [a[0]] + a[1..] && b == [b[0]] + b[1..];
      BelowTotal(a[1..], b[1..]);
    }
  }

  /** `m` comes before every other key of `keys`. */
  predicate IsLeast(m: string, keys: set<string>) {
    m in keys && forall k :: k in keys && k != m ==> Below(m, k)
  }

  lemma {:induction false} LeastExists(keys: set<string>)
    requires keys != {}
    ensures exists m :: IsLeast(m, keys)
    decreases |keys|
  {
    var x :| x in keys;
    if keys == {x} {
      assert IsLeast(x, keys);
    } else {
      var rest := keys - {x};
      LeastExists(rest);
      var m :| IsLeast(m, rest);
      if Below(x, m) {
        forall k | k in keys && k != x
          ensures Below(x, k)
        {
          if k != m {
            BelowTransitive(x, m, k);
          }
        }
        assert IsLeast(x, keys);
      } else {
        BelowTotal(x, m);
        assert IsLeast(m, keys);
      }
    }
  }

  lemma LeastUnique(keys: set<string>)
    ensures forall m, m' :: IsLeast(m, keys) && IsLeast(m', keys) ==> m == m'
  {
    forall m, m' | IsLeast(m, keys) && IsLeast(m', keys)
      ensures m == m'
    {
      if m != m' {
        BelowTransitive(m, m', m);
        BelowIrreflexive(m);
      }
    }
  }

  /** `QJsonObject::keys()`: every key once, least key first (see `SortedKeysAscending`). */
  function SortedKeys(keys: set<string>): (r: seq<string>)
    ensures |r| == |keys|
    ensures forall k :: k in r <==> k in keys
    decreases |keys|
  {
    if keys == {} then []
    else
      LeastExists(keys);
      LeastUnique(keys);
      var m :| IsLeast(m, keys);
      [m] + SortedKeys(keys - {m})
  }

  /** The keys come in strictly ascending code-point order. */
  lemma {:induction false} SortedKeysAscending(keys: set<string>)
    ensures forall i, j :: 0 <= i < j < |SortedKeys(keys)| ==> Below(SortedKeys(keys)[i], SortedKeys(keys)[j])
    decreases |keys|
  {
    if keys != {} {
      LeastExists(keys);
      LeastUnique(keys);
      var m :| IsLeast(m, keys);
      var rest := SortedKeys(keys - {m});
      assert SortedKeys(keys) == [m] + rest;
      SortedKeysAscending(keys - {m});
      forall i, j | 0 <= i < j < |SortedKeys(keys)|
        ensures Below(SortedKeys(keys)[i], SortedKeys(keys)[j])
      {
        if i == 0 {
          assert SortedKeys(keys)[j] == rest[j - 1];
          assert rest[j - 1] in rest;
        } else {
          assert SortedKeys(keys)[i] == rest[i - 1] && SortedKeys(keys)[j] == rest[j - 1];
        }
      }
    }
  }
}
