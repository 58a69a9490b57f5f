# Filter stage of the reporting-structure extractor

This project models the core of a small streaming extractor for insurance
price-transparency index files. The program reads a large JSON document that
may be gzip-compressed. It walks the elements of its `reporting_structure`
array, one record at a time. For every record with a plan whose name contains
`" PPO "`, it emits the `location` URL of each in-network file whose URL path
carries the New York region token `_254_`. The emitted strings are written out
as a JSON array.

The model covers:

- the per-record filter `Transform`: the loose `ArrayOfObjects` shape check, the
  `" PPO "` plan predicate, and the ordered walk over the in-network files,
  including the error that stops it part-way (`FilterStage`);
- the filter lifted over the whole record sequence, where the first error ends
  the stream (`RecordStream`);
- how the stage list is composed, with the gunzip stage present only for `.gz`
  inputs (`Stages`);
- the progress pass-through and its byte counter (`Progress`);
- the `"[\n"`, `","`, `"]\n"` framing of the output array (`Serializer`);
- the data path from records to output text (`Pipeline`).

Modules: `Wrappers` (Option/Result), `Text` (substring, suffix and join), `JsonValue` (the JSON value handed to the stage and
JavaScript member reads), `Shape`, `FilterStage`, `RecordStream`, `Stages`,
`Progress`, `Serializer` and `Pipeline`.

Modelling decisions:

- The WHATWG URL constructor is a parameter `parse: string -> Option<string>`.
  It returns the pathname, or `None` where `new URL` would throw. Nothing about
  it is assumed.
- A file without `location` makes the code call `new URL(undefined)`. That
  parses the text `"undefined"`, which has no scheme, so the constructor always
  throws. The model turns it directly into `InvalidUrl("undefined")`.
- Reading a member of a `null` record throws a TypeError inside the `try`, so
  the record fails (`NullRecord`). Reading a member of any other non-object
  yields `undefined`, which the model treats as an absent member.
- `.optional()` accepts only `undefined`. A member present with the value
  `null` therefore fails the shape check.
- Strings pushed before a record's error count as emitted. Whether the stream
  runtime still delivers them to the file after the error destroys the pipeline
  is outside the model.
- `JSON.stringify` of one value is an abstract parameter `enc`.
- The per-record stage is a parameter of `RecordStream` and `Pipeline`.
  `Pipeline.FilterStep` instantiates it with `FilterRecord`.
- The separator is `","` with no newline after it (index.ts:126).
- The logging object (plan names joined by `|`, first plan's id) is built and
  then discarded, so it has no effect (index.ts:64-69).
- The region code is fixed to `254` (index.ts:35-37), so the region token is
  the constant `_254_`.

## Model

| member | source | states |
|---|---|---|
| JsonValue.Member | index.ts:54-57 | reading `data.reporting_plans` throws exactly on a null record; it yields a value exactly when the record is an object holding that key |
| Shape.ParseRecords | index.ts:42-43 | an array passes `zod.array(zod.record(string, string))` exactly when every element is an object with only string values; the result keeps every element, in order |
| Shape.ParseArrayOfObjects | index.ts:42-44 | the optional schema with `?? []`: an absent member reads as the empty list; a present member passes exactly when it is an array of string records |
| FilterStage.PlanQualifies | index.ts:60 | `plan_name?.includes(" PPO ")`: a plan without `plan_name` never qualifies, and a qualifying name is at least as long as the token |
| FilterStage.AnyPlanQualifies | index.ts:60 | `.some` tried in plan order is true exactly when some plan qualifies |
| FilterStage.Selected | index.ts:70-71 | a file is selected only when its location is present and parses, and the parsed pathname is long enough to hold `_254_` |
| FilterStage.FirstUnparsable | index.ts:62-70 | the index of the first file whose location fails `new URL`: every earlier file parses and that one does not |
| FilterStage.WalkFiles | index.ts:62-73 | the file loop pushes the original locations of the selected files before the first unparsable one, in order, then stops with `InvalidUrl` naming that location; no error if all parse |
| FilterStage.FilterRecord | index.ts:52-84 | a null record fails first; then a bad plans shape, then a bad files shape, fails whatever the plans say; without a qualifying `" PPO "` plan nothing is pushed and no location is parsed; a qualifying record yields the file walk's result |
| FilterStage.KeptMembership | index.ts:71-72 | a string is emitted exactly when it is the untouched `location` of a file whose parsed pathname contains `_254_` (both directions) |
| FilterStage.KeptAppend | index.ts:62-73 | emission follows file order: the files of a concatenation emit the first part's locations, then the second's |
| FilterStage.AbsentPlansEmitNothing | index.ts:54-61 | a record with no `reporting_plans` and well-shaped (or absent) files emits nothing and does not fail |
| FilterStage.AllParseEmitsSelected | index.ts:62-73 | when every location parses, the file walk emits exactly the selected locations, in file order, and does not fail |
| FilterStage.UnparsableStopsWalk | index.ts:62-82 | if file k is the first that fails to parse, the matches among files 0..k-1 are emitted, no later file contributes, and the walk fails with that location |
| RecordStream.FirstFailing | index.ts:77-82 | the index of the first record that fails: every earlier record succeeds and that one fails |
| RecordStream.RunRecords | index.ts:122-128 | the stream's output is the emissions of the successful records in order, plus what the failing record pushed before its error; that error ends the stream |
| RecordStream.PushesAppend | index.ts:122-128 | emissions of concatenated record sequences concatenate |
| RecordStream.RunRecordsAppend | index.ts:122-128 | a failure in an earlier part hides every later record; otherwise the later part's output follows the earlier part's |
| RecordStream.Run | index.ts:122-128 | driving the stage record by record succeeds exactly when no record fails, and then outputs every record's pushes in order; it always agrees with `RunRecords` |
| Stages.KeepTruthy | index.ts:86 | `.filter(Boolean)` keeps a stage exactly when it is in the list, drops every `false`, and never lengthens the list |
| Stages.KeepTruthyAppend | index.ts:86 | filtering distributes over concatenation, so stages keep their order and multiplicity |
| Stages.KeepTruthySingle | index.ts:86 | a lone `false` is dropped and a lone stage is kept |
| Stages.StageEntries | index.ts:47-85 | the array literal has three entries: `false` exactly when not zipped, gunzip exactly when zipped, then the parser and the filter |
| Stages.ProcessJsonStream | index.ts:46-49 | the gunzip stage is present exactly when `zipped` holds; otherwise the list is just the JSON parser and the filter |
| Stages.PipelineStages | index.ts:122-128 | source, progress, then gunzip only for inputs ending in `.gz`, then parser, filter, serializer and sink |
| Progress.TotalLengthAppend | index.ts:92-96 | the byte total of a concatenated chunk sequence is the sum of the parts' totals |
| Progress.PassThrough | index.ts:92-96 | every chunk is re-emitted unchanged; after each chunk the counter equals the bytes seen so far and never decreases |
| Serializer.Written | index.ts:126 | before the input ends, nothing is written until the first value; after it, the text starts with `"[\n"` and ends with the last value's encoding |
| Serializer.Document | index.ts:126 | the finished output always starts with `"[\n"` and ends with `"]\n"` |
| Serializer.DocumentFraming | index.ts:126 | the output is `"[\n"`, the encodings joined by `","`, then `"]\n"`; no values give `"[\n]\n"` |
| Serializer.WrittenIsPrefix | index.ts:126 | the text written after the first k values is a prefix of all later text and of the final document |
| Serializer.WrittenIsUnclosed | index.ts:126 | when every encoding ends with a quote, text written before the input ends never ends with the closing `"]\n"` |
| Pipeline.RunPipeline | index.ts:122-128 | a run completes exactly when no record fails, and then holds the framed emissions of all records; otherwise it reports the first record's error and the text written up to it |
| Pipeline.FailedOutputIsUnclosed | index.ts:122-128 | a failed run never leaves a closed array behind |
| Pipeline.ProcessCompletesIffNoRecordFails | index.ts:122-128 | with the program's filter, a run completes exactly when `FilterRecord` fails on no record, and then the output frames every record's pushes in record order |

## Left out

- Gzip decompression (`createGunzip`) is a library stage. Only its presence in the stage list is modelled.
- JSON tokenising (`JSONStream.parse("reporting_structure.*")`) is a library stage. The model starts from the sequence of records it yields.
- The output encoding (`JSON.stringify` inside `JSONStream.stringify`) is an abstract parameter. Only the delimiters and their placement are modelled.
- The URL parser (`new URL`, `URL.canParse`) is an uninterpreted parameter.
- The network fetch, the content-length header and `parseInt` (index.ts:109-116) are I/O.
- `fs.stat`, the file streams and the default-source fallback (index.ts:118-119, 136-141) are I/O.
- Wall-clock timing (index.ts:107, 130-133) is a clock read.
- Stream mechanics are left out: `pipelineAsync`, backpressure, buffering and cancellation. They are concurrency in the stream runtime.
- Progress-bar rendering (`SingleBar` start and stop, index.ts:89-90, 98) is UI. Only the counter arithmetic is kept.
- The logging `item` object (index.ts:64-69) is built and never used, so it has no observable effect.
- Serializer.WrittenIsUnclosed: it assumes every encoding ends with a quote. That holds for `JSON.stringify` of a string, but the encoder is abstract here.
- The `NullRecord` path follows the transform's text, but it likely never occurs in the running program. `JSONStream.parse` does not queue `null` elements, and object-mode streams cannot carry `null`. JSONStream's code is not part of this model, so this rests on the library.
- JavaScript numbers are doubles, so the progress counter is exact only up to 2^53 bytes. The model's counter is an unbounded integer.
- JavaScript strings are UTF-16, and Dafny `char` cannot hold lone surrogates. The ASCII tokens tested with `includes` and `endsWith` behave the same either way.
