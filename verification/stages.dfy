/** How `processFile` assembles the stream pipeline. */
module Stages {
  import opened Text

  /** The stages a pipeline can hold. */
  datatype Stage =
    | Source              // the file or HTTP response body
    | ProgressCounter     // `displayProgress`
    | Gunzip              // `createGunzip()`
    | JsonParse(path: string)
    | RecordFilter        // the filter `Transform`
    | Stringify(open: string, sep: string, close: string)
    | Sink                // the output file

  /** An entry of the array literal before `.filter(Boolean)`: either the
      `false` that `zipped && createGunzip()` yields, or a stage. */
  datatype Entry = Falsy | Present(stage: Stage)

  /** The path `JSONStream.parse` selects: each element of `reporting_structure`. */
  const RecordPath: string := "reporting_structure.*"

  /** `JSONStream.stringify("[\n", ",", "]\n")`. */
  const Serializer: Stage := Stringify("[\n", ",", "]\n")

  /** The extension that marks a compressed input. */
  const GzipSuffix: string := ".gz"

  /** `.filter(Boolean)`: keeps the stages, in order, and drops every `false`. */
  function KeepTruthy(entries: seq<Entry>): (r: seq<Stage>)
    ensures |r| <= |entries|
    ensures forall s :: s in r <==> Present(s) in entries
  {
    if |entries| == 0 then []
    else (if entries[0].Present? then [entries[0].stage] else []) + KeepTruthy(entries[1..])
  }

  /** `.filter(Boolean)` distributes over concatenation, so it keeps the
      stages in their order and with their multiplicity. */
  lemma {:induction false} KeepTruthyAppend(a: seq<Entry>, b: seq<Entry>)
    ensures KeepTruthy(a + b) == KeepTruthy(a) + KeepTruthy(b)
  {
    if |a| == 0 {
      assert a + b == b;
    } else {
      assert (a + b)[1..] == a[1..] + b;
      KeepTruthyAppend(a[1..], b);
    }
  }

  /** A lone `false` is dropped and a lone stage is kept. */
  lemma KeepTruthySingle(s: Stage)
    ensures KeepTruthy([Falsy]) == []
    ensures KeepTruthy([Present(s)]) == [s]
  {
  }

  /** The array literal of `processJSONStream`, before filtering. */
  function StageEntries(zipped: bool): (r: seq<Entry>)
    ensures |r| == 3
    ensures Falsy in r <==> !zipped
    ensures Present(Gunzip) in r <==> zipped
    ensures r[1..] == [Present(JsonParse(RecordPath)), Present(RecordFilter)]
  {
    [if zipped then Present(Gunzip) else Falsy, Present(JsonParse(RecordPath)), Present(RecordFilter)]
  }

  /** `processJSONStream(zipped)`: the decompressor is included exactly when
      the input is zipped, and otherwise left out altogether rather than
      replaced by a pass-through. */
  function ProcessJsonStream(zipped: bool): (r: seq<Stage>)
    ensures Gunzip in r <==> zipped
    ensures zipped ==> r == [Gunzip, JsonParse(RecordPath), RecordFilter]
    ensures !zipped ==> r == [JsonParse(RecordPath), RecordFilter]
  {
    var e := StageEntries(zipped);
    assert KeepTruthy(e[2..]) == [RecordFilter] by {
      assert e[2..][1..] == [];
    }
    assert KeepTruthy(e[1..]) == [JsonParse(RecordPath), RecordFilter] by {
      assert e[1..][1..] == e[2..];
    }
    KeepTruthy(e)
  }

  /** The stage list `processFile` hands to `pipelineAsync` for `input`. */
  function PipelineStages(input: string): (r: seq<Stage>)
    ensures Gunzip in r <==> EndsWith(input, GzipSuffix)
    ensures |r| == if EndsWith(input, GzipSuffix) then 7 else 6
    ensures r[0] == Source && r[1] == ProgressCounter
    ensures EndsWith(input, GzipSuffix) ==> r[2] == Gunzip
    ensures r[|r| - 4] == JsonParse(RecordPath) && r[|r| - 3] == RecordFilter
    ensures r[|r| - 2] == Serializer && r[|r| - 1] == Sink
  {
    [Source, ProgressCounter] + ProcessJsonStream(EndsWith(input, GzipSuffix)) + [Serializer, Sink]
  }
}
