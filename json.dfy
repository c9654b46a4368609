/**
 * JSON values as `JSON.parse` produces them and `NextResponse.json` / axios carry them,
 * plus the HTTP reply the scan route sends to the page.
 */
module Json {
  import opened Common

  datatype JsonValue =
    | JNull
    | JBool(b: bool)
    | JNumber(n: real)
    | JString(s: string)
    | JArray(items: seq<JsonValue>)
    | JObject(members: map<string, JsonValue>)

  /** An HTTP reply: a status code and a JSON body. */
  datatype Reply = Reply(status: int, body: JsonValue)

  /**
   * `value[key]` read as text: the string stored under `key` when `value` is an object
   * holding a string there, and None (JavaScript's `undefined`, or a non-string) otherwise.
   */
  function StringMember(value: JsonValue, key: string): (r: Option<string>)
    ensures r.Some? <==> value.JObject? && key in value.members && value.members[key].JString?
    ensures r.Some? ==> value.members[key] == JString(r.value)
  {
    if value.JObject? && key in value.members && value.members[key].JString?
    then Some(value.members[key].s)
    else None
  }
}
