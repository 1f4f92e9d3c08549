/** Values produced by `JSON.parse`, and the JavaScript operations the
    service applies to them: property access and truthiness. */
module Json {
  import opened Types

  /** A parsed JSON value. A number carries its value as a real; JSON text
      cannot produce NaN, and an overflowing literal (parsed as an infinity)
      only ever matters here through its truthiness, which any nonzero real
      gives. An object keeps its members in text order, duplicates included. */
  datatype Json =
    | JNull
    | JBool(b: bool)
    | JNumber(n: real)
    | JString(s: string)
    | JArray(items: seq<Json>)
    | JObject(members: seq<(string, Json)>)

  /** The position of the last member with the given key, or -1. */
  function LastKeyIndex(members: seq<(string, Json)>, key: string): (r: int)
    ensures -1 <= r < |members|
    ensures r == -1 <==> forall i :: 0 <= i < |members| ==> members[i].0 != key
    ensures r != -1 ==> members[r].0 == key
    ensures forall j :: r < j < |members| ==> members[j].0 != key
  {
    if members == [] then -1
    else if members[|members| - 1].0 == key then |members| - 1
    else LastKeyIndex(members[..|members| - 1], key)
  }

  /** The value `JSON.parse` gives a key of an object: when a key occurs more
      than once the last occurrence wins; a missing key is `undefined`. */
  function Lookup(members: seq<(string, Json)>, key: string): (r: Option<Json>)
    ensures r.None? <==> forall i :: 0 <= i < |members| ==> members[i].0 != key
    ensures r.Some? ==> exists i :: 0 <= i < |members| && members[i] == (key, r.value)
                          && forall j :: i < j < |members| ==> members[j].0 != key
  {
    var i := LastKeyIndex(members, key);
    if i == -1 then None
    else
      assert members[i] == (key, members[i].1);
      Some(members[i].1)
  }

  /** Property access `v.key` on a value that is not `null` (reading a
      property of `null` throws, which callers handle before asking): only an
      object has own properties; on any other value the result is
      `undefined`. */
  function Property(v: Json, key: string): (r: Option<Json>)
    requires !v.JNull?
    ensures r.Some? ==> v.JObject?
    ensures v.JObject? ==> r == Lookup(v.members, key)
  {
    match v
    case JObject(members) => Lookup(members, key)
    case _ => None
  }

  /** JavaScript truthiness of a parsed value: `null`, `false`, zero and the
      empty string are falsy; every array and object is truthy. */
  predicate Truthy(v: Json) {
    match v
    case JNull => false
    case JBool(b) => b
    case JNumber(n) => n != 0.0
    case JString(s) => s != ""
    case JArray(_) => true
    case JObject(_) => true
  }
}
