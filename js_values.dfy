/**
 * JavaScript values as they reach the core: JSON read from a database column,
 * and the `unknown` answers posted by the client, which may also be `undefined`
 * or a `Date`.
 */
module JsValues {
  import opened Text

  /** A point in time, as milliseconds since the epoch. */
  datatype Date = Date(millis: int)

  /** JSON values. Numbers are integers in this model. */
  datatype Json =
    | JNull
    | JBool(b: bool)
    | JNum(n: int)
    | JStr(s: string)
    | JArr(elems: seq<Json>)
    | JObj(fields: map<string, Json>)

  /** An arbitrary JavaScript value of the kinds the core tells apart. */
  datatype Unknown = Undefined | DateObj(date: Date) | Value(json: Json)

  /** JavaScript falsiness: `null`, `false`, `0` and `""` (and `undefined`, which JSON cannot hold). */
  predicate Falsy(j: Json) {
    match j
    case JNull => true
    case JBool(b) => !b
    case JNum(n) => n == 0
    case JStr(s) => s == ""
    case _ => false
  }

  /** `typeof j === 'object'`: null, arrays and plain objects. */
  predicate TypeofObject(j: Json) {
    j.JNull? || j.JArr? || j.JObj?
  }

  /** `String(j)`: arrays are joined with commas, nested `null` printing as the empty string. */
  function JsString(j: Json): string
    decreases j
  {
    match j
    case JNull => "null"
    case JBool(b) => if b then "true" else "false"
    case JNum(n) => IntToDecimal(n)
    case JStr(s) => s
    case JArr(a) => JoinElements(a)
    case JObj(_) => "[object Object]"
  }

  function JoinElements(a: seq<Json>): string
    decreases a
  {
    if a == [] then ""
    else
      var head := if a[0].JNull? then "" else JsString(a[0]);
      if |a| == 1 then head else head + "," + JoinElements(a[1..])
  }
}
