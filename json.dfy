/**
  Parsed JSON values, as `json.loads` returns them and `json.dumps` takes
  them. Objects keep their keys in insertion order; a key may appear twice,
  which a Python dict cannot, and lookup takes the first.
*/
module Json {
  import opened Wrappers

  datatype Value =
    | JNull
    | JBool(b: bool)
    | JInt(i: int)
    | JReal(r: real)
    | JStr(s: string)
    | JArr(items: seq<Value>)
    | JObj(fields: seq<(string, Value)>)

  /** Python truthiness of a decoded value (`if value:`). */
  predicate Truthy(v: Value)
  {
    match v
    case JNull => false
    case JBool(b) => b
    case JInt(i) => i != 0
    case JReal(r) => r != 0.0
    case JStr(s) => s != ""
    case JArr(items) => items != []
    case JObj(fields) => fields != []
  }

  /** The keys of an object, in insertion order. */
  function Keys(v: Value): seq<string>
  {
    match v
    case JObj(fields) => seq(|fields|, k requires 0 <= k < |fields| => fields[k].0)
    case _ => []
  }

  /** `v.get(key)` on an object: the value of the first field with that key. */
  function Get(fields: seq<(string, Value)>, key: string): (r: Option<Value>)
    ensures r.Some? <==> exists k :: 0 <= k < |fields| && fields[k].0 == key
  {
    if fields == [] then None
    else if fields[0].0 == key then Some(fields[0].1)
    else
      var r := Get(fields[1..], key);
      assert forall k :: 1 <= k < |fields| ==> fields[k] == fields[1..][k - 1];
      r
  }

  /** The value under the first field that carries the key. */
  lemma {:induction false} GetAt(fields: seq<(string, Value)>, k: nat, key: string)
    requires k < |fields| && fields[k].0 == key
    requires forall j :: 0 <= j < k ==> fields[j].0 != key
    ensures Get(fields, key) == Some(fields[k].1)
  {
    if k > 0 {
      GetAt(fields[1..], k - 1, key);
    }
  }

  /** A Python list of strings as a JSON array. */
  function StrList(ss: seq<string>): Value
  {
    JArr(seq(|ss|, k requires 0 <= k < |ss| => JStr(ss[k])))
  }

  function Lookup(v: Value, key: string): Option<Value>
  {
    if v.JObj? then Get(v.fields, key) else None
  }

  /** `json.dumps` with its default settings, taken as given: it prints
      a value on one line, escaping any newline inside a string. */
  type Serializer = dumps: Value -> string | forall v :: '\n' !in dumps(v)
    witness (v: Value) => "null"
}
