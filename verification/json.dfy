/** The value `JSON.parse` produces, and property access on it. */
module Json {
  import opened Common

  /** A parsed JSON value. Numbers are kept as exact reals; objects as maps
      from key to value (a repeated key keeps its last value, as in
      `JSON.parse`). */
  datatype Json =
    | JNull
    | JBool(b: bool)
    | JNumber(n: real)
    | JString(s: string)
    | JArray(items: seq<Json>)
    | JObject(fields: map<string, Json>)

  /** `j[key]`: present only when `j` is an object that has `key`. */
  function Field(j: Json, key: string): (r: Option<Json>)
    ensures r.Some? <==> j.JObject? && key in j.fields
    ensures r.Some? ==> r.value == j.fields[key]
  {
    if j.JObject? && key in j.fields then Some(j.fields[key]) else None
  }

  /** `Number.isInteger` on a finite number. */
  predicate IsInteger(x: real) {
    x.Floor as real == x
  }
}
