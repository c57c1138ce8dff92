/** JSON values as the router handles them. Request and reply bodies are passed through
    untouched; only the error envelope is built, key by key, the way an object node's
    `put` builds it. */
module Json {
  import opened Wrappers

  datatype Json =
    | JNull
    | JBool(b: bool)
    | JNumber(n: int)
    | JString(s: string)
    | JArray(items: seq<Json>)
    | JObject(fields: seq<(string, Json)>)

  /** The value stored under key in an object's field list, if any. */
  function Get(fields: seq<(string, Json)>, key: string): (r: Option<Json>)
  {
    if |fields| == 0 then None
    else if fields[0].0 == key then Some(fields[0].1)
    else Get(fields[1..], key)
  }

  /** Setting a field: an existing key keeps its position and takes the new value, a new
      key is appended, as in an insertion-ordered object node. */
  function PutField(fields: seq<(string, Json)>, key: string, value: Json): (r: seq<(string, Json)>)
    ensures Get(r, key) == Some(value)
    ensures forall k :: k != key ==> Get(r, k) == Get(fields, k)
    ensures |r| == if Get(fields, key).Some? then |fields| else |fields| + 1
    ensures Get(fields, key).None? ==> r == fields + [(key, value)]
    ensures forall i :: 0 <= i < |fields| ==> r[i].0 == fields[i].0
    ensures forall i :: 0 <= i < |fields| && fields[i].0 != key ==> r[i] == fields[i]
  {
    if |fields| == 0 then [(key, value)]
    else if fields[0].0 == key then [(key, value)] + fields[1..]
    else [fields[0]] + PutField(fields[1..], key, value)
  }

  /** ObjectNode.put(key, value) on an object value. */
  function Put(obj: Json, key: string, value: Json): (r: Json)
    requires obj.JObject?
    ensures r.JObject? && Get(r.fields, key) == Some(value)
    ensures forall k :: k != key ==> Get(r.fields, k) == Get(obj.fields, k)
  {
    JObject(PutField(obj.fields, key, value))
  }
}
