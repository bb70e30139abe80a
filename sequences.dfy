/**
 * Subsequences: a sequence picked out of another at increasing positions,
 * which is what `filter` returns.
 */
module Sequences {
  /**
   * `sub` is `s` with some elements left out and the rest in their order:
   * `idx` gives, strictly increasing, the position in `s` of each element of `sub`.
   */
  ghost predicate SubsequenceAt<T>(sub: seq<T>, s: seq<T>, idx: seq<nat>) {
    && |idx| == |sub|
    && (forall k :: 0 <= k < |idx| ==> idx[k] < |s| && sub[k] == s[idx[k]])
    && (forall k, l :: 0 <= k < l < |idx| ==> idx[k] < idx[l])
  }

  /** Each position moved one place on. */
  function Shifted(idx: seq<nat>): (r: seq<nat>)
    ensures |r| == |idx| && forall k :: 0 <= k < |idx| ==> r[k] == idx[k] + 1
  {
    seq(|idx|, k requires 0 <= k < |idx| => idx[k] + 1)
  }

  /** Positions in the tail of `s` are positions in `s`, one place on. */
  lemma SubsequenceShift<T>(sub: seq<T>, s: seq<T>, idx: seq<nat>)
    requires s != [] && SubsequenceAt(sub, s[1..], idx)
    ensures SubsequenceAt(sub, s, Shifted(idx))
  {
  }

  /** The head of `s` may be picked out before a subsequence of its tail. */
  lemma SubsequenceCons<T>(sub: seq<T>, s: seq<T>, idx: seq<nat>)
    requires s != [] && SubsequenceAt(sub, s[1..], idx)
    ensures SubsequenceAt([s[0]] + sub, s, [0] + Shifted(idx))
  {
    SubsequenceShift(sub, s, idx);
  }

  /** A subsequence of all but the last element is one of the whole. */
  lemma SubsequenceExtend<T>(sub: seq<T>, s: seq<T>, idx: seq<nat>)
    requires s != [] && SubsequenceAt(sub, s[..|s| - 1], idx)
    ensures SubsequenceAt(sub, s, idx)
  {
  }

  /** The last element may be picked out after a subsequence of the ones before it. */
  lemma SubsequenceSnoc<T>(sub: seq<T>, s: seq<T>, idx: seq<nat>)
    requires s != [] && SubsequenceAt(sub, s[..|s| - 1], idx)
    ensures SubsequenceAt(sub + [s[|s| - 1]], s, idx + [|s| - 1])
  {
  }
}
