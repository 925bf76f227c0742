/** Facts about concatenation, stated once so that proofs can name the one they need. */
module Sequences {

  lemma Assoc<T>(a: seq<T>, b: seq<T>, c: seq<T>)
    ensures a + (b + c) == (a + b) + c
  {}

  lemma NothingBehind<T>(a: seq<T>)
    ensures a + [] == a
  {}

  lemma NothingBefore<T>(a: seq<T>)
    ensures [] + a == a
  {}

  lemma TakeDrop<T>(a: seq<T>, b: seq<T>)
    ensures (a + b)[..|a|] == a && (a + b)[|a|..] == b
  {}

  lemma SplitAt<T>(s: seq<T>, n: nat)
    requires n <= |s|
    ensures s == s[..n] + s[n..]
  {}
}
