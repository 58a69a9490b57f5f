/** The data path of `processFile`, from parsed records to output text:
    the filter stage run over the records, then the array serializer. */
module Pipeline {
  import opened Wrappers
  import opened JsonValue
  import Text
  import opened FilterStage
  import opened RecordStream
  import opened Serializer

  /** How a run ends: with the complete output document, or with the first
      error and the text the serializer had produced by then. */
  datatype Outcome = Completed(output: string) | Failed(error: Error, output: string)

  /** The filter stage with a fixed URL parser, as the stream runtime calls it. */
  function FilterStep(parse: UrlParser): Stage {
    (data: Json) => FilterRecord(data, parse)
  }

  /** One run over the records of a document with the given per-record
      stage (`FilterStep` in the program). */
  function RunPipeline(records: seq<Json>, step: Stage, enc: Encoder): (r: Outcome)
    ensures r.Completed? <==> forall i :: 0 <= i < |records| ==> step(records[i]).error.None?
    ensures r.Completed? ==> r.output == Document(Pushes(records, step), enc)
    ensures r.Failed? ==> var k := FirstFailing(records, step);
      && k < |records|
      && Some(r.error) == step(records[k]).error
      && r.output == Written(Pushes(records[..k], step) + step(records[k]).pushed, enc)
  {
    var emitted := RunRecords(records, step);
    var k := FirstFailing(records, step);
    if emitted.error.None? then
      assert k == |records|;
      assert records[..k] == records;
      assert emitted.pushed == Pushes(records[..k], step) + [];
      assert emitted.pushed == Pushes(records, step);
      Completed(Document(emitted.pushed, enc))
    else
      Failed(emitted.error.value, Written(emitted.pushed, enc))
  }

  /** The output of a failed run is never a closed array, provided the
      encoder renders each value as a quoted string. */
  lemma FailedOutputIsUnclosed(records: seq<Json>, step: Stage, enc: Encoder)
    requires forall s :: |enc(s)| > 0 && enc(s)[|enc(s)| - 1] == '"'
    ensures RunPipeline(records, step, enc).Failed? ==>
      !Text.EndsWith(RunPipeline(records, step, enc).output, Close)
  {
  }

  /** With the program's filter stage, a run completes exactly when no
      record fails the stage, and then the document holds the records'
      emissions in record order. */
  lemma ProcessCompletesIffNoRecordFails(records: seq<Json>, parse: UrlParser, enc: Encoder)
    ensures RunPipeline(records, FilterStep(parse), enc).Completed? <==>
      forall i :: 0 <= i < |records| ==> FilterRecord(records[i], parse).error.None?
    ensures RunPipeline(records, FilterStep(parse), enc).Completed? ==>
      RunPipeline(records, FilterStep(parse), enc).output == Document(Pushes(records, FilterStep(parse)), enc)
  {
    var step := FilterStep(parse);
    assert forall i :: 0 <= i < |records| ==> step(records[i]) == FilterRecord(records[i], parse);
  }
}
