/** The loose schema `ArrayOfObjects`: an optional array of string-keyed,
    string-valued records. */
module Shape {
  import opened Wrappers
  import opened JsonValue

  /** A record whose every value is a string, as `zod.record(zod.string(), zod.string())` yields. */
  type StringMap = map<string, string>

  /** `j` passes `zod.record(zod.string(), zod.string())`: an object (not an
      array, not null) all of whose member values are strings. */
  predicate IsStringRecord(j: Json) {
    j.JObject? && forall k :: k in j.members ==> j.members[k].JString?
  }

  /** The string record carried by a value that passes the record check. */
  function ToStringMap(j: Json): (m: StringMap)
    requires IsStringRecord(j)
    ensures m.Keys == j.members.Keys
    ensures forall k :: k in m ==> j.members[k] == JString(m[k])
  {
    map k | k in j.members :: j.members[k].s
  }

  /** `v` (absent, or present with some value) passes the whole schema. */
  predicate WellShaped(v: Option<Json>) {
    v.None? || (v.value.JArray? && forall i :: 0 <= i < |v.value.items| ==> IsStringRecord(v.value.items[i]))
  }

  /** Checks and converts the elements of an array, in order, failing on the
      first element that is not a string record. */
  function ParseRecords(items: seq<Json>): (r: Option<seq<StringMap>>)
    ensures r.Some? <==> forall i :: 0 <= i < |items| ==> IsStringRecord(items[i])
    ensures r.Some? ==> |r.value| == |items|
    ensures r.Some? ==> forall i :: 0 <= i < |items| ==> IsStringRecord(items[i]) && r.value[i] == ToStringMap(items[i])
  {
    if |items| == 0 then Some([])
    else if !IsStringRecord(items[0]) then None
    else
      match ParseRecords(items[1..])
      case None => None
      case Some(rest) => Some([ToStringMap(items[0])] + rest)
  }

  /** `ArrayOfObjects.parse(v) ?? []`: an absent field reads as the empty
      list; a present field must be an array of string records, otherwise the
      parse throws (`None` here). */
  function ParseArrayOfObjects(v: Option<Json>): (r: Option<seq<StringMap>>)
    ensures r.Some? <==> WellShaped(v)
    ensures v.None? ==> r == Some([])
    ensures r.Some? && v.Some? ==>
      |r.value| == |v.value.items| &&
      forall i :: 0 <= i < |r.value| ==> r.value[i] == ToStringMap(v.value.items[i])
  {
    match v
    case None => Some([])
    case Some(JArray(items)) => ParseRecords(items)
    case Some(_) => None
  }
}
