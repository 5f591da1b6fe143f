/** The JavaScript values the handlers read out of a parsed request body, and the
    two JavaScript rules they rely on: property access and truthiness. */
module JsValues {

  import opened Options

  /** A value produced by `JSON.parse`. JSON numbers are doubles; only whether
      they are zero matters to the handlers, so they are kept as reals. */
  datatype Json =
    | JNull
    | JBool(b: bool)
    | JNum(n: real)
    | JStr(s: string)
    | JArray(items: seq<Json>)
    | JObject(members: map<string, Json>)

  /** `data[key]` for the keys the handlers read (none of them is `length` or an
      array index): an object yields its own member, any other non-null value has
      no such property and yields `undefined` (None). Reading a property of `null`
      throws a TypeError, so callers rule that case out first. */
  function Property(data: Json, key: string): (v: Option<Json>)
    requires !data.JNull?
    ensures v.Some? <==> data.JObject? && key in data.members
    ensures v.Some? ==> v.value == data.members[key]
  {
    match data
    case JObject(members) => if key in members then Some(members[key]) else None
    case _ => None
  }

  /** JavaScript truthiness of a value that may be `undefined` (None). The falsy
      values are `undefined`, `null`, `false`, zero and the empty string. */
  predicate Truthy(v: Option<Json>)
    ensures Truthy(v) ==> v.Some? && !v.value.JNull?
    ensures v.Some? && (v.value.JArray? || v.value.JObject?) ==> Truthy(v)
  {
    match v
    case None => false
    case Some(JNull) => false
    case Some(JBool(b)) => b
    case Some(JNum(n)) => n != 0.0
    case Some(JStr(s)) => s != ""
    case Some(_) => true
  }

  /** `!!data[key]`: the member is there and is not falsy. */
  predicate Present(data: Json, key: string)
    requires !data.JNull?
    ensures Present(data, key) ==> data.JObject? && key in data.members
  {
    Truthy(Property(data, key))
  }

  /** The value of `data[key]`, with `undefined` written as JSON null (how an
      absent member reaches a table column). */
  function Member(data: Json, key: string): (v: Json)
    requires !data.JNull?
    ensures Present(data, key) ==> Property(data, key) == Some(v)
  {
    match Property(data, key)
    case Some(v) => v
    case None => JNull
  }

}
