/** JSON values as Python sees them after `json.loads`, with Python's truth value
    and string conversion. */
module JsonValues {
  datatype Json =
    | JNull
    | JBool(b: bool)
    | JInt(i: int)
    | JFloat(r: real)
    | JNonFinite                       // NaN and the infinities
    | JStr(s: string)
    | JArr(items: seq<Json>)
    | JObj(fields: map<string, Json>)

  type Object = map<string, Json>

  predicate Falsy(j: Json) {
    || j.JNull?
    || j == JBool(false) || j == JInt(0) || j == JFloat(0.0) || j == JStr("")
    || j == JArr([]) || j == JObj(map[])
  }

  /** `d.get(k)`. */
  function Field(o: Object, k: string): Json {
    if k in o then o[k] else JNull
  }

  /** `str(x or "")`; how a non-string prints is left to `show`. */
  function StrOr(j: Json, show: Json -> string): string {
    if Falsy(j) then "" else if j.JStr? then j.s else show(j)
  }
}
