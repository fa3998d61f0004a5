/**
 * Pydantic field validation as the request schemas use it: each field of a JSON body is read
 * by key, checked against its type and `Field(...)` constraints, and replaced by its default
 * when absent. A failed check is the 422 FastAPI answers for an invalid body.
 */
module Fields {
  import opened Wrappers
  import opened Http
  import opened Values
  import opened Uuid

  /** The `min_length` / `max_length` constraints of a string field. */
  datatype Len = Len(min: nat, max: Option<nat>)

  /** `s` satisfies the length constraints (lengths count code points). */
  predicate Fits(s: string, l: Len) {
    l.min <= |s| && (l.max.Some? ==> |s| <= l.max.value)
  }

  /** The missing value and JSON `null`. */
  predicate Absent(body: Row, key: string) {
    Get(body, key) == JNull
  }

  /** A required `str` field: a string within the length constraints. */
  function ReqStr(body: Row, key: string, l: Len): (r: Outcome<string>)
    ensures r.Ok? <==> Get(body, key).JStr? && Fits(Get(body, key).s, l)
    ensures r.Ok? ==> Get(body, key) == JStr(r.value)
    ensures r.Fail? ==> r.status == Unprocessable
  {
    var v := Get(body, key);
    if v.JStr? && Fits(v.s, l) then Ok(v.s) else Fail(Unprocessable)
  }

  /** An `Optional[str]` field defaulting to `None`: `null`, missing, or a string within the constraints. */
  function OptStr(body: Row, key: string, l: Len): (r: Outcome<Option<string>>)
    ensures r.Ok? <==> Absent(body, key) || (Get(body, key).JStr? && Fits(Get(body, key).s, l))
    ensures r.Ok? ==> OfOpt(r.value) == Get(body, key)
    ensures r.Fail? ==> r.status == Unprocessable
  {
    var v := Get(body, key);
    if v == JNull then Ok(None)
    else if v.JStr? && Fits(v.s, l) then Ok(Some(v.s))
    else Fail(Unprocessable)
  }

  /**
   * An `Optional[UUID]` field defaulting to `None`: `null`, missing, or a string in one of the
   * UUID spellings, read as its canonical text.
   */
  function OptUuid(body: Row, key: string): (r: Outcome<Option<string>>)
    ensures r.Ok? <==> Absent(body, key) || (Get(body, key).JStr? && IsUuidText(Get(body, key).s))
    ensures r.Ok? && Absent(body, key) ==> r.value.None?
    ensures r.Ok? && !Absent(body, key) ==> r.value == Some(Canonical(Get(body, key).s))
    ensures r.Fail? ==> r.status == Unprocessable
  {
    var v := Get(body, key);
    if v == JNull then Ok(None)
    else if v.JStr? && IsUuidText(v.s) then Ok(Some(Canonical(v.s)))
    else Fail(Unprocessable)
  }

  /** An `Optional[str]` field with a string default: the default when missing, `None` when null. */
  function OptStrOr(body: Row, key: string, default: string): (r: Outcome<Option<string>>)
    ensures r.Ok? <==> key !in body || body[key] == JNull || body[key].JStr?
    ensures r.Ok? && key !in body ==> r.value == Some(default)
    ensures r.Ok? && key in body ==> OfOpt(r.value) == body[key]
    ensures r.Fail? ==> r.status == Unprocessable
  {
    if key !in body then Ok(Some(default))
    else if body[key] == JNull then Ok(None)
    else if body[key].JStr? then Ok(Some(body[key].s))
    else Fail(Unprocessable)
  }

  /** A nullable integer column value. */
  function OfInt(o: Option<int>): (j: Json)
    ensures j == JNull <==> o.None?
    ensures o.Some? ==> j == JInt(o.value)
  {
    if o.Some? then JInt(o.value) else JNull
  }

  /** An `Optional[int]` field defaulting to `None`. */
  function OptInt(body: Row, key: string): (r: Outcome<Option<int>>)
    ensures r.Ok? <==> Absent(body, key) || Get(body, key).JInt?
    ensures r.Ok? ==> OfInt(r.value) == Get(body, key)
    ensures r.Fail? ==> r.status == Unprocessable
  {
    var v := Get(body, key);
    if v == JNull then Ok(None) else if v.JInt? then Ok(Some(v.i)) else Fail(Unprocessable)
  }

  /** An `int` field with a default: missing gives the default; `null` is rejected. */
  function IntOr(body: Row, key: string, default: int): (r: Outcome<int>)
    ensures r.Ok? <==> key !in body || body[key].JInt?
    ensures r.Ok? && key !in body ==> r.value == default
    ensures r.Ok? && key in body ==> body[key] == JInt(r.value)
    ensures r.Fail? ==> r.status == Unprocessable
  {
    if key !in body then Ok(default) else if body[key].JInt? then Ok(body[key].i) else Fail(Unprocessable)
  }

  /** A `bool` field with a default: missing gives the default; `null` is rejected. */
  function BoolOr(body: Row, key: string, default: bool): (r: Outcome<bool>)
    ensures r.Ok? <==> key !in body || body[key].JBool?
    ensures r.Ok? && key !in body ==> r.value == default
    ensures r.Ok? && key in body ==> body[key] == JBool(r.value)
    ensures r.Fail? ==> r.status == Unprocessable
  {
    if key !in body then Ok(default) else if body[key].JBool? then Ok(body[key].b) else Fail(Unprocessable)
  }

  /** A nullable boolean column value. */
  function OfBool(o: Option<bool>): (j: Json)
    ensures j == JNull <==> o.None?
    ensures o.Some? ==> j == JBool(o.value)
  {
    if o.Some? then JBool(o.value) else JNull
  }

  /** An `Optional[bool]` field defaulting to `None`. */
  function OptBool(body: Row, key: string): (r: Outcome<Option<bool>>)
    ensures r.Ok? <==> Absent(body, key) || Get(body, key).JBool?
    ensures r.Ok? ==> OfBool(r.value) == Get(body, key)
    ensures r.Fail? ==> r.status == Unprocessable
  {
    var v := Get(body, key);
    if v == JNull then Ok(None) else if v.JBool? then Ok(Some(v.b)) else Fail(Unprocessable)
  }

  /** Every item is a string. */
  predicate AllStr(items: seq<Json>) {
    forall i :: 0 <= i < |items| ==> items[i].JStr?
  }

  /** The strings of a list of JSON strings. */
  function Texts(items: seq<Json>): (r: seq<string>)
    requires AllStr(items)
    ensures Strs(r) == items
  {
    if items == [] then [] else [items[0].s] + Texts(items[1..])
  }

  /** Reading back a list of strings gives the strings. */
  lemma {:induction false} TextsOfStrs(ts: seq<string>)
    ensures AllStr(Strs(ts)) && Texts(Strs(ts)) == ts
  {
    if ts != [] {
      TextsOfStrs(ts[1..]);
      assert Strs(ts)[1..] == Strs(ts[1..]);
    }
  }

  /** A nullable list-of-strings column value. */
  function OfStrs(o: Option<seq<string>>): (j: Json)
    ensures j == JNull <==> o.None?
    ensures o.Some? ==> j == JList(Strs(o.value))
  {
    if o.Some? then JList(Strs(o.value)) else JNull
  }

  /**
   * An `Optional[List[str]]` field: missing gives `default`, `null` gives `None`, and a list
   * must hold only strings.
   */
  function OptStrs(body: Row, key: string, default: Option<seq<string>>): (r: Outcome<Option<seq<string>>>)
    ensures r.Ok? <==> key !in body || body[key] == JNull || (body[key].JList? && AllStr(body[key].items))
    ensures r.Ok? && key !in body ==> r.value == default
    ensures r.Ok? && key in body ==> OfStrs(r.value) == body[key]
    ensures r.Fail? ==> r.status == Unprocessable
  {
    if key !in body then Ok(default)
    else if body[key] == JNull then Ok(None)
    else if body[key].JList? && AllStr(body[key].items) then Ok(Some(Texts(body[key].items)))
    else Fail(Unprocessable)
  }

  /** A nullable dict column value. */
  function OfObj(o: Option<map<string, Json>>): (j: Json)
    ensures j == JNull <==> o.None?
    ensures o.Some? ==> j == JObj(o.value)
  {
    if o.Some? then JObj(o.value) else JNull
  }

  /** An `Optional[Dict[str, Any]]` field defaulting to `None`. */
  function OptObj(body: Row, key: string): (r: Outcome<Option<map<string, Json>>>)
    ensures r.Ok? <==> Absent(body, key) || Get(body, key).JObj?
    ensures r.Ok? ==> OfObj(r.value) == Get(body, key)
    ensures r.Fail? ==> r.status == Unprocessable
  {
    var v := Get(body, key);
    if v == JNull then Ok(None) else if v.JObj? then Ok(Some(v.fields)) else Fail(Unprocessable)
  }

  /**
   * A response model's defaults: every field the row lacks takes its default, every field it
   * has keeps its value.
   */
  function Fill(row: Row, defaults: Row): (r: Row)
    ensures r.Keys == row.Keys + defaults.Keys
    ensures forall k :: k in row ==> r[k] == row[k]
    ensures forall k :: k in defaults && k !in row ==> r[k] == defaults[k]
  {
    defaults + row
  }
}
