/** Facts about sequences that the path, line and session proofs share. */
module Seqs {

  /** A sequence is its prefix, the element at `i` and its suffix. */
  lemma Around<T>(s: seq<T>, i: nat)
    requires i < |s|
    ensures s == s[..i] + [s[i]] + s[i + 1..]
  {
  }

  /** Concatenation regroups freely; stated once so that the loop proofs
      over long action logs need not rediscover it in a large context. */
  lemma Regroup<T>(a: seq<T>, b: seq<T>, c: seq<T>)
    ensures (a + b) + c == a + (b + c)
  {
  }
}
