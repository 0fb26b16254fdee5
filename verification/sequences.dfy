/** Order-preserving selection on sequences: the relation every filter of the
    grade model (category groups, resubmission candidates) satisfies with
    respect to the sequence it was taken from. */
module Sequences {

  /** True iff `a` can be obtained from `b` by deleting elements, keeping the
      relative order of the rest. */
  ghost predicate IsSubsequence<T>(a: seq<T>, b: seq<T>)
    decreases |b|
  {
    if |a| == 0 then true
    else if |b| == 0 then false
    else (a[0] == b[0] && IsSubsequence(a[1..], b[1..])) || IsSubsequence(a, b[1..])
  }

  /** A subsequence is never longer than the sequence it came from. */
  lemma {:induction false} SubsequenceLength<T>(a: seq<T>, b: seq<T>)
    requires IsSubsequence(a, b)
    ensures |a| <= |b|
    decreases |b|
  {
    if |a| == 0 {
    } else if a[0] == b[0] && IsSubsequence(a[1..], b[1..]) {
      SubsequenceLength(a[1..], b[1..]);
    } else {
      SubsequenceLength(a, b[1..]);
    }
  }
}
