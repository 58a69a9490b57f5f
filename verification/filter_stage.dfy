/** The object-mode filter stage of `processJSONStream`: one
    `reporting_structure` element in, zero or more `location` strings out,
    possibly followed by an error that ends the stream. */
module FilterStage {
  import opened Wrappers
  import opened JsonValue
  import opened Shape
  import opened Text

  /** Plan names qualify when they contain this token, spaces included. */
  const PlanToken: string := " PPO "

  const PlansKey: string := "reporting_plans"
  const FilesKey: string := "in_network_files"
  const PlanNameKey: string := "plan_name"
  const LocationKey: string := "location"

  /** The text `new URL(file.location)` receives when the file has no
      `location`: JavaScript turns `undefined` into this string. It has no
      scheme, so the URL parser always rejects it. */
  const UndefinedText: string := "undefined"

  /** The template literal `_${RegionCode.NY}_`, with `RegionCode.NY = 254`
      written out in decimal. */
  const RegionToken: string := "_254_"

  /** Why a record fails the stage. */
  datatype Error =
    | NullRecord                   // reading a member of `null` throws a TypeError
    | SchemaError(field: string)   // `ArrayOfObjects.parse` rejected the named member
    | InvalidUrl(input: string)    // `new URL(input)` threw

  /** The WHATWG URL parser, reduced to what the stage uses: the pathname of
      the parsed URL, or `None` when the constructor throws. */
  type UrlParser = string -> Option<string>

  /** What one call of the stage produces: the strings it pushed, in order,
      and the error it ended with, if any. */
  datatype Emission = Emission(pushed: seq<string>, error: Option<Error>)

  /** `plan_name?.includes(" PPO ")`: a plan without a name never qualifies,
      nor does one whose name is too short to hold the token. */
  function PlanQualifies(plan: StringMap): (b: bool)
    ensures PlanNameKey !in plan ==> !b
    ensures b ==> |plan[PlanNameKey]| >= |PlanToken|
  {
    PlanNameKey in plan && Contains(plan[PlanNameKey], PlanToken)
  }

  /** `reportingPlans.some(...)`: tries the plans in order and stops at the
      first that qualifies; true exactly when some plan qualifies. */
  function AnyPlanQualifies(plans: seq<StringMap>): (b: bool)
    ensures b <==> exists i :: 0 <= i < |plans| && PlanQualifies(plans[i])
  {
    if |plans| == 0 then false
    else if PlanQualifies(plans[0]) then true
    else
      var b := AnyPlanQualifies(plans[1..]);
      assert forall i :: 1 <= i < |plans| ==> plans[i] == plans[1..][i - 1];
      b
  }

  /** The text handed to `new URL` for this file. */
  function LocationText(file: StringMap): string {
    if LocationKey in file then file[LocationKey] else UndefinedText
  }

  /** `new URL(file.location)` succeeds. */
  predicate Parses(file: StringMap, parse: UrlParser) {
    LocationKey in file && parse(file[LocationKey]).Some?
  }

  /** The file's location parses and its pathname carries the region token;
      a file with no location, or one whose pathname is shorter than the
      token, is never selected. */
  function Selected(file: StringMap, parse: UrlParser): (b: bool)
    ensures LocationKey !in file ==> !b
    ensures b ==> Parses(file, parse) && |parse(file[LocationKey]).value| >= |RegionToken|
  {
    Parses(file, parse) && Contains(parse(file[LocationKey]).value, RegionToken)
  }

  /** Reference definition: the original `location` strings of the selected
      files, in file order. */
  function Kept(files: seq<StringMap>, parse: UrlParser): seq<string> {
    if |files| == 0 then []
    else (if Selected(files[0], parse) then [files[0][LocationKey]] else []) + Kept(files[1..], parse)
  }

  /** Reference definition: the index of the first file whose location does
      not parse, or the number of files when all parse. */
  function FirstUnparsable(files: seq<StringMap>, parse: UrlParser): (k: nat)
    ensures k <= |files|
    ensures forall i :: 0 <= i < k ==> Parses(files[i], parse)
    ensures k < |files| ==> !Parses(files[k], parse)
  {
    if |files| == 0 || !Parses(files[0], parse) then 0
    else 1 + FirstUnparsable(files[1..], parse)
  }

  /** The `for (const file of inNetworkFiles)` loop: each file's location is
      parsed in order and pushed when its pathname carries the region token;
      the first location that fails to parse ends the loop with an error,
      after the earlier matches have been pushed. */
  function WalkFiles(files: seq<StringMap>, parse: UrlParser): (r: Emission)
    ensures var k := FirstUnparsable(files, parse);
      && r.pushed == Kept(files[..k], parse)
      && r.error == (if k < |files| then Some(InvalidUrl(LocationText(files[k]))) else None)
  {
    if |files| == 0 then Emission([], None)
    else if !Parses(files[0], parse) then Emission([], Some(InvalidUrl(LocationText(files[0]))))
    else
      var rest := WalkFiles(files[1..], parse);
      assert files[1..][..FirstUnparsable(files[1..], parse)] == files[1..1 + FirstUnparsable(files[1..], parse)];
      Emission((if Selected(files[0], parse) then [files[0][LocationKey]] else []) + rest.pushed, rest.error)
  }

  /** Both members can be read and both pass the shape check. */
  predicate Admitted(data: Json) {
    && !data.JNull?
    && WellShaped(Member(data, PlansKey).value)
    && WellShaped(Member(data, FilesKey).value)
  }

  /** `reportingPlans` of an admitted record. */
  function PlansOf(data: Json): seq<StringMap>
    requires Admitted(data)
  {
    ParseArrayOfObjects(Member(data, PlansKey).value).value
  }

  /** `inNetworkFiles` of an admitted record. */
  function FilesOf(data: Json): seq<StringMap>
    requires Admitted(data)
  {
    ParseArrayOfObjects(Member(data, FilesKey).value).value
  }

  /** The record's plans pass the shape check and one of them qualifies. */
  predicate Qualifies(data: Json) {
    Admitted(data) && AnyPlanQualifies(PlansOf(data))
  }

  /** One call of the stage's `transform` on one record. */
  function FilterRecord(data: Json, parse: UrlParser): (r: Emission)
    // reading a member of null throws before anything else
    ensures r.error == Some(NullRecord) <==> data.JNull?
    // the plans are shape-checked first, then the files, whatever the plans say
    ensures !data.JNull? ==>
      (r.error == Some(SchemaError(PlansKey)) <==> !WellShaped(Member(data, PlansKey).value))
    ensures !data.JNull? && WellShaped(Member(data, PlansKey).value) ==>
      (r.error == Some(SchemaError(FilesKey)) <==> !WellShaped(Member(data, FilesKey).value))
    // nothing is pushed, and no location is parsed, unless a plan qualifies
    ensures !Qualifies(data) ==> r.pushed == [] && (r.error.None? || !r.error.value.InvalidUrl?)
    ensures Admitted(data) && !Qualifies(data) ==> r.error.None?
    // a qualifying record emits the selected locations up to the first unparsable one
    ensures Qualifies(data) ==> var files := FilesOf(data); var k := FirstUnparsable(files, parse);
      && r.pushed == Kept(files[..k], parse)
      && r.error == (if k < |files| then Some(InvalidUrl(LocationText(files[k]))) else None)
  {
    match Member(data, PlansKey)
    case Err(_) => Emission([], Some(NullRecord))
    case Ok(plansField) =>
      match ParseArrayOfObjects(plansField)
      case None => Emission([], Some(SchemaError(PlansKey)))
      case Some(plans) =>
        match ParseArrayOfObjects(Member(data, FilesKey).value)
        case None => Emission([], Some(SchemaError(FilesKey)))
        case Some(files) =>
          if AnyPlanQualifies(plans) then WalkFiles(files, parse) else Emission([], None)
  }

  /** Selection is exact: a string is emitted by the walk over fully parsable
      files exactly when it is the original location of a selected file. */
  lemma {:induction false} KeptMembership(files: seq<StringMap>, parse: UrlParser, x: string)
    ensures x in Kept(files, parse) <==>
      exists i :: 0 <= i < |files| && Selected(files[i], parse) && files[i][LocationKey] == x
  {
    if |files| > 0 {
      KeptMembership(files[1..], parse, x);
      if x in Kept(files[1..], parse) {
        var i :| 0 <= i < |files[1..]| && Selected(files[1..][i], parse) && files[1..][i][LocationKey] == x;
        assert files[i + 1] == files[1..][i];
      }
      if exists i :: 0 <= i < |files| && Selected(files[i], parse) && files[i][LocationKey] == x {
        var i :| 0 <= i < |files| && Selected(files[i], parse) && files[i][LocationKey] == x;
        if i > 0 {
          assert files[1..][i - 1] == files[i];
        }
      }
    }
  }

  /** Selection respects file order: the files of a concatenation emit the
      first part's locations, then the second's. */
  lemma {:induction false} KeptAppend(a: seq<StringMap>, b: seq<StringMap>, parse: UrlParser)
    ensures Kept(a + b, parse) == Kept(a, parse) + Kept(b, parse)
  {
    if |a| == 0 {
      assert a + b == b;
    } else {
      assert (a + b)[1..] == a[1..] + b;
      KeptAppend(a[1..], b, parse);
    }
  }

  /** A record without `reporting_plans` emits nothing and does not fail,
      provided its `in_network_files` (if any) has the right shape. */
  lemma AbsentPlansEmitNothing(data: Json, parse: UrlParser)
    requires data.JObject? && PlansKey !in data.members
    requires WellShaped(Member(data, FilesKey).value)
    ensures FilterRecord(data, parse) == Emission([], None)
  {
  }

  /** When every location parses, the walk emits exactly the original
      locations of the files whose pathname carries `_254_`, in file order,
      and does not fail. */
  lemma AllParseEmitsSelected(files: seq<StringMap>, parse: UrlParser)
    requires forall i :: 0 <= i < |files| ==> Parses(files[i], parse)
    ensures WalkFiles(files, parse) == Emission(Kept(files, parse), None)
  {
    assert files[..|files|] == files;
  }

  /** When file `k` is the first whose location fails to parse, the walk
      ends with that error after the matches among files `0..k-1` were
      pushed; no later file contributes. */
  lemma UnparsableStopsWalk(files: seq<StringMap>, parse: UrlParser, k: nat)
    requires k < |files| && !Parses(files[k], parse)
    requires forall i :: 0 <= i < k ==> Parses(files[i], parse)
    ensures WalkFiles(files, parse) == Emission(Kept(files[..k], parse), Some(InvalidUrl(LocationText(files[k]))))
  {
    var j := FirstUnparsable(files, parse);
    // file j fails to parse when j is in range, so j is not below k;
    // file k fails to parse, so j is not above k
    assert j < |files| ==> !Parses(files[j], parse);
    assert !Parses(files[k], parse);
    assert j == k;
  }
}
