/**
 * A JSON value as Gson's tree model (JsonElement) holds it: objects are maps
 * from member name to value, arrays are sequences.
 */
module Json {
  datatype Json =
    | JNull
    | JBool(b: bool)
    | JNum(n: int)
    | JStr(str: string)
    | JArr(items: seq<Json>)
    | JObj(members: map<string, Json>)

  /** A JSON object (`JsonObject`). */
  type Object = map<string, Json>

  /** The empty object `{}`. */
  const EmptyObject: Object := map[]

  function Strings(items: seq<string>): (r: seq<Json>)
    ensures |r| == |items| && forall i :: 0 <= i < |items| ==> r[i] == JStr(items[i])
  {
    if items == [] then [] else [JStr(items[0])] + Strings(items[1..])
  }

  function StringMap(m: map<string, string>): (r: Object)
    ensures r.Keys == m.Keys && forall k :: k in m ==> r[k] == JStr(m[k])
  {
    map k | k in m :: JStr(m[k])
  }
}
