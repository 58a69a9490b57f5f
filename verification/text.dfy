/** String helpers: substring search, suffix test and joining. */
module Text {

  /** `t` occurs in `s` starting at index `i`. */
  predicate OccursAt(s: string, t: string, i: nat) {
    i + |t| <= |s| && s[i..i + |t|] == t
  }

  /** JavaScript's `s.includes(t)`: `t` occurs somewhere in `s`. */
  predicate Contains(s: string, t: string) {
    exists i: nat | i <= |s| :: OccursAt(s, t, i)
  }

  /** JavaScript's `s.endsWith(t)`. */
  predicate EndsWith(s: string, t: string) {
    |t| <= |s| && s[|s| - |t|..] == t
  }

  /** JavaScript's `parts.join(sep)`. */
  function Join(sep: string, parts: seq<string>): (r: string)
    ensures |parts| == 0 ==> r == ""
    ensures |parts| == 1 ==> r == parts[0]
  {
    if |parts| == 0 then ""
    else if |parts| == 1 then parts[0]
    else Join(sep, parts[..|parts| - 1]) + sep + parts[|parts| - 1]
  }

  /** Joining one more part extends the previous join: the joined text can be
      produced incrementally, one part at a time. */
  lemma {:induction false} JoinSnoc(sep: string, parts: seq<string>, p: string)
    requires |parts| > 0
    ensures Join(sep, parts + [p]) == Join(sep, parts) + sep + p
  {
    assert (parts + [p])[..|parts|] == parts;
  }

  /** A join of at least one part ends with the last part. */
  lemma JoinEndsWithLast(sep: string, parts: seq<string>)
    requires |parts| > 0
    ensures EndsWith(Join(sep, parts), parts[|parts| - 1])
  {
  }

  /** The join of a prefix of the parts is a prefix of the join of all parts. */
  lemma {:induction false} JoinPrefix(sep: string, parts: seq<string>, k: nat)
    requires k <= |parts|
    ensures Join(sep, parts[..k]) <= Join(sep, parts)
    decreases |parts| - k
  {
    if k < |parts| {
      JoinPrefix(sep, parts, k + 1);
      if k == 0 {
      } else {
        assert parts[..k + 1] == parts[..k] + [parts[k]];
        JoinSnoc(sep, parts[..k], parts[k]);
      }
    } else {
      assert parts[..k] == parts;
    }
  }
}
