/** The output framing of `JSONStream.stringify("[\n", ",", "]\n")`: the
    opening text goes out with the first value, each later value is preceded
    by the separator, and the closing text goes out at the end of the input
    (preceded by the opening text when there was no value at all). */
module Serializer {
  import opened Text

  const Open: string := "[\n"
  const Sep: string := ","
  const Close: string := "]\n"

  /** `JSON.stringify` applied to one emitted value; its details are not
      part of this model. */
  type Encoder = string -> string

  /** The encodings of the values, in order. */
  function Encoded(values: seq<string>, enc: Encoder): (r: seq<string>)
    ensures |r| == |values|
    ensures forall i :: 0 <= i < |values| ==> r[i] == enc(values[i])
  {
    if |values| == 0 then [] else [enc(values[0])] + Encoded(values[1..], enc)
  }

  /** The text written while values are still arriving: nothing before the
      first value, then the opening text and the separated encodings. */
  function Written(values: seq<string>, enc: Encoder): (r: string)
    ensures |values| == 0 ==> r == ""
    ensures |values| > 0 ==> Open <= r && EndsWith(r, enc(values[|values| - 1]))
  {
    if |values| == 0 then ""
    else
      var parts := Encoded(values, enc);
      JoinEndsWithLast(Sep, parts);
      Open + Join(Sep, parts)
  }

  /** The complete document written once the input has ended. */
  function Document(values: seq<string>, enc: Encoder): (r: string)
    ensures Open <= r && EndsWith(r, Close)
    ensures |r| >= |Open| + |Close|
  {
    if |values| == 0 then Open + Close else Written(values, enc) + Close
  }

  /** Framing: whatever the values, the document is the opening text, the
      encodings joined by the separator, and the closing text; an empty
      input gives `[\n]\n`. */
  lemma DocumentFraming(values: seq<string>, enc: Encoder)
    ensures Document(values, enc) == Open + Join(Sep, Encoded(values, enc)) + Close
    ensures values == [] ==> Document(values, enc) == "[\n]\n"
  {
  }

  /** Encoding commutes with taking a prefix of the values. */
  lemma EncodedPrefix(values: seq<string>, enc: Encoder, k: nat)
    requires k <= |values|
    ensures Encoded(values[..k], enc) == Encoded(values, enc)[..k]
  {
  }

  /** The serializer writes incrementally: the text written after the first
      `k` values is a prefix of the text written after any later value, and
      of the final document. */
  lemma {:induction false} WrittenIsPrefix(values: seq<string>, enc: Encoder, k: nat)
    requires k <= |values|
    ensures Written(values[..k], enc) <= Written(values, enc)
    ensures Written(values[..k], enc) <= Document(values, enc)
  {
    if k > 0 {
      EncodedPrefix(values, enc, k);
      JoinPrefix(Sep, Encoded(values, enc), k);
    }
  }

  /** When every encoding ends with a quote (as `JSON.stringify` of a string
      does), text written before the end of the input never ends with the
      closing delimiter: an interrupted run does not look like a complete
      array. */
  lemma WrittenIsUnclosed(values: seq<string>, enc: Encoder)
    requires forall s :: |enc(s)| > 0 && enc(s)[|enc(s)| - 1] == '"'
    ensures !EndsWith(Written(values, enc), Close)
  {
  }
}
