/** The JSON values the object stream hands to the filter stage. */
module JsonValue {
  import opened Wrappers

  /** A parsed JSON value. Numbers keep their source text, since the filter
      never does arithmetic on them. Objects are keyed maps: the filter only
      reads members by name. */
  datatype Json =
    | JNull
    | JBool(b: bool)
    | JNumber(text: string)
    | JString(s: string)
    | JArray(items: seq<Json>)
    | JObject(members: map<string, Json>)

  /** Reading `data.key` on one record, as JavaScript does it for the two
      keys the stage reads, `reporting_plans` and `in_network_files`: on
      `null` the read throws (`Err`), on an object it yields the member or
      `undefined` (`None`), and on any other value it yields `undefined`.
      (Keys such as `length` or `toString` would behave differently on
      strings, arrays and objects; the stage never reads them.) */
  function Member(data: Json, key: string): (r: Result<Option<Json>, ()>)
    ensures r.Err? <==> data.JNull?
    ensures r.Ok? && r.value.Some? <==> data.JObject? && key in data.members
    ensures r.Ok? && r.value.Some? ==> r.value.value == data.members[key]
  {
    match data
    case JNull => Err(())
    case JObject(m) => if key in m then Ok(Some(m[key])) else Ok(None)
    case _ => Ok(None)
  }
}
