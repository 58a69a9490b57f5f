/** The filter stage lifted over the whole `reporting_structure.*` sequence:
    records are handed to it in document order and the first failing record
    ends the stream. */
module RecordStream {
  import opened Wrappers
  import opened JsonValue
  import opened FilterStage

  /** One `transform` call: what the stage emits for one record. The
      pipeline instantiates it with `FilterRecord` and a URL parser. */
  type Stage = Json -> Emission

  /** Reference definition: the index of the first record the stage fails
      on, or the number of records when none fails. */
  function FirstFailing(records: seq<Json>, step: Stage): (k: nat)
    ensures k <= |records|
    ensures forall i :: 0 <= i < k ==> step(records[i]).error.None?
    ensures k < |records| ==> step(records[k]).error.Some?
  {
    if |records| == 0 || step(records[0]).error.Some? then 0
    else 1 + FirstFailing(records[1..], step)
  }

  /** Reference definition: the pushes of the given records, one record
      after another. */
  function Pushes(records: seq<Json>, step: Stage): seq<string> {
    if |records| == 0 then []
    else step(records[0]).pushed + Pushes(records[1..], step)
  }

  /** The stage applied to each record in turn until one fails. Everything
      the failing record pushed before its error is still part of the
      output; nothing after it is. */
  function RunRecords(records: seq<Json>, step: Stage): (r: Emission)
    ensures var k := FirstFailing(records, step);
      r.error == (if k < |records| then step(records[k]).error else None)
    ensures var k := FirstFailing(records, step);
      r.pushed == Pushes(records[..k], step) + (if k < |records| then step(records[k]).pushed else [])
  {
    if |records| == 0 then Emission([], None)
    else
      var first := step(records[0]);
      if first.error.Some? then first
      else
        var rest := RunRecords(records[1..], step);
        assert records[1..][..FirstFailing(records[1..], step)] == records[1..1 + FirstFailing(records[1..], step)];
        Emission(first.pushed + rest.pushed, rest.error)
  }

  /** Pushes over concatenated record sequences concatenate. */
  lemma {:induction false} PushesAppend(a: seq<Json>, b: seq<Json>, step: Stage)
    ensures Pushes(a + b, step) == Pushes(a, step) + Pushes(b, step)
  {
    if |a| == 0 {
      assert a + b == b;
    } else {
      assert (a + b)[1..] == a[1..] + b;
      PushesAppend(a[1..], b, step);
    }
  }

  /** Running over `a + b`: if `a` ends in an error, `b` is never looked at;
      otherwise the output of `a` is followed by the output of `b`. */
  lemma {:induction false} RunRecordsAppend(a: seq<Json>, b: seq<Json>, step: Stage)
    ensures RunRecords(a, step).error.Some? ==> RunRecords(a + b, step) == RunRecords(a, step)
    ensures RunRecords(a, step).error.None? ==>
      RunRecords(a + b, step) ==
        Emission(RunRecords(a, step).pushed + RunRecords(b, step).pushed, RunRecords(b, step).error)
  {
    if |a| == 0 {
      assert a + b == b;
    } else {
      var ab := a + b;
      assert ab[1..] == a[1..] + b;
      assert ab[0] == a[0];
      var first := step(a[0]);
      if first.error.None? {
        RunRecordsAppend(a[1..], b, step);
        assert RunRecords(ab, step) == Emission(first.pushed + RunRecords(a[1..] + b, step).pushed, RunRecords(a[1..] + b, step).error);
        assert RunRecords(a, step) == Emission(first.pushed + RunRecords(a[1..], step).pushed, RunRecords(a[1..], step).error);
      } else {
        assert RunRecords(ab, step) == first;
      }
    }
  }

  /** The run of the stage as the stream runtime drives it: one `transform`
      call per record, in order, stopping at the first error. */
  method Run(records: seq<Json>, step: Stage) returns (pushed: seq<string>, error: Option<Error>)
    ensures error.None? <==> forall i :: 0 <= i < |records| ==> step(records[i]).error.None?
    ensures error.Some? ==> error == step(records[FirstFailing(records, step)]).error
    ensures error.None? ==> pushed == Pushes(records, step)
    ensures Emission(pushed, error) == RunRecords(records, step)
  {
    pushed, error := [], None;
    var i := 0;
    while i < |records| && error.None?
      invariant 0 <= i <= |records|
      invariant error.None? ==> i <= FirstFailing(records, step) && pushed == Pushes(records[..i], step)
      invariant error.Some? ==> 0 < i && i - 1 == FirstFailing(records, step)
      invariant error.Some? ==> Emission(pushed, error) == RunRecords(records, step)
    {
      var out := step(records[i]);
      PushesAppend(records[..i], [records[i]], step);
      assert records[..i + 1] == records[..i] + [records[i]];
      pushed := pushed + out.pushed;
      error := out.error;
      i := i + 1;
    }
    if error.None? {
      assert records[..i] == records;
    }
  }
}
