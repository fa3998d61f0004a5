/**
 * The JSON values the handlers pass around: request bodies, store rows (Python dicts
 * decoded from PostgREST responses) and cached payloads.
 */
module Values {
  import opened Wrappers
  import opened Text

  datatype Json =
    | JNull
    | JBool(b: bool)
    | JInt(i: int)
    | JStr(s: string)
    | JList(items: seq<Json>)
    | JObj(fields: map<string, Json>)

  /** A row of a store table, or any other string-keyed dict. */
  type Row = map<string, Json>

  /** Python truthiness of a JSON value (`None`, `False`, `0`, `""`, `[]`, `{}` are falsy). */
  predicate JTruthy(j: Json) {
    match j
    case JNull => false
    case JBool(b) => b
    case JInt(i) => i != 0
    case JStr(s) => s != []
    case JList(xs) => xs != []
    case JObj(f) => f != map[]
  }

  /** `row.get(key)`: the value under `key`, or `None`. */
  function Get(r: Row, key: string): (v: Json)
    ensures key in r ==> v == r[key]
    ensures key !in r ==> v == JNull
  {
    if key in r then r[key] else JNull
  }

  /** An optional string as stored in a nullable column. */
  function OfOpt(o: Option<string>): (j: Json)
    ensures j == JNull <==> o.None?
    ensures o.Some? ==> j == JStr(o.value)
  {
    match o
    case None => JNull
    case Some(s) => JStr(s)
  }

  /** A list of strings as a JSON list. */
  function Strs(ss: seq<string>): (js: seq<Json>)
    ensures |js| == |ss|
    ensures forall i :: 0 <= i < |ss| ==> js[i] == JStr(ss[i])
  {
    if ss == [] then [] else [JStr(ss[0])] + Strs(ss[1..])
  }

  /** Rows as JSON objects, the shape a handler returns them in. */
  function Objs(rows: seq<Row>): (js: seq<Json>)
    ensures |js| == |rows|
    ensures forall i :: 0 <= i < |rows| ==> js[i] == JObj(rows[i])
  {
    if rows == [] then [] else [JObj(rows[0])] + Objs(rows[1..])
  }

  /** `str(n)` for any integer. */
  function IntText(n: int): (r: string)
    ensures r != []
  {
    if n < 0 then "-" + Decimal(-n) else Decimal(n)
  }

  /**
   * `str(v)` for the scalar JSON values (`None`, booleans, integers, strings), as Python
   * renders them after decoding.
   */
  function ScalarText(v: Json): string
    requires Scalar(v)
  {
    match v
    case JNull => "None"
    case JBool(b) => if b then "True" else "False"
    case JInt(i) => IntText(i)
    case JStr(s) => s
  }

  predicate Scalar(v: Json) {
    v.JNull? || v.JBool? || v.JInt? || v.JStr?
  }

  /**
   * `str(v)` for any decoded JSON value; the `repr` of a list or dict is supplied by the
   * caller as `repr`.
   */
  function PyStr(v: Json, repr: Json -> string): (r: string)
    ensures v.JStr? ==> r == v.s
    ensures Scalar(v) ==> r == ScalarText(v)
  {
    if Scalar(v) then ScalarText(v) else repr(v)
  }
}
