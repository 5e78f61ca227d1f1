/** JSON values as `JSON.parse` produces them and `JSON.stringify` consumes
    them. The text form is left to the `Codec` oracles of the modules that
    serialize; only the value shapes are modelled here. */
module Json {
  import opened Wrappers

  datatype Json =
    | JNull
    | JBool(b: bool)
    | JNum(n: real)
    | JStr(s: string)
    | JArr(items: seq<Json>)
    | JObj(fields: map<string, Json>)

  /** `Number.isInteger` on a number value. */
  predicate IsIntegral(n: real) {
    n == n.Floor as real
  }

  /** The integer a JSON number denotes, when it has no fractional part. */
  function AsInt(j: Json): (r: Option<int>)
    ensures r.Some? <==> j.JNum? && IsIntegral(j.n)
    ensures r.Some? ==> r.value as real == j.n
  {
    if j.JNum? && IsIntegral(j.n) then Some(j.n.Floor) else None
  }

  /** A member of an object value; None for a missing key or a non-object. */
  function Member(j: Json, key: string): (r: Option<Json>)
    ensures r.Some? <==> j.JObj? && key in j.fields
  {
    if j.JObj? && key in j.fields then Some(j.fields[key]) else None
  }

  /** The JSON value of a list of strings. */
  function StringArray(items: seq<string>): (r: Json)
    ensures r.JArr? && |r.items| == |items|
    ensures forall i :: 0 <= i < |items| ==> r.items[i] == JStr(items[i])
  {
    JArr(seq(|items|, i requires 0 <= i < |items| => JStr(items[i])))
  }

  /** A text codec for JSON values: `JSON.stringify` and `JSON.parse`
      (None when the text is not JSON, where the program catches an exception). */
  datatype JsonText = JsonText(stringify: Json -> string, parse: string -> Option<Json>)

  /** Parsing what was stringified gives the value back, and JSON text is never empty. */
  ghost predicate RoundTrips(t: JsonText) {
    forall j :: t.parse(t.stringify(j)) == Some(j) && t.stringify(j) != []
  }
}
