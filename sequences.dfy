/** Facts about sequences in general that the string proofs use. */
module Sequences {

  /** A sequence is its three slices at `i` and `j`, in order. */
  lemma Split3<X>(s: seq<X>, i: nat, j: nat)
    requires i <= j <= |s|
    ensures s == s[..i] + s[i..j] + s[j..]
  {
  }

  /** Concatenation regroups freely. */
  lemma Regroup<X>(w1: seq<X>, a: seq<X>, r: seq<X>, b: seq<X>, w2: seq<X>)
    ensures w1 + (a + r + b) + w2 == (w1 + a) + r + (b + w2)
  {
  }
}
