/** Small facts about slicing and appending that the loop and induction
    proofs step through. */
module Seqs {
  /** Taking one more element appends it. */
  lemma TakeSnoc<T>(s: seq<T>, i: nat)
    requires i < |s|
    ensures s[..i + 1] == s[..i] + [s[i]]
    ensures s[..i + 1][..i] == s[..i]
  {
  }

  /** Taking everything gives the sequence back. */
  lemma TakeAll<T>(s: seq<T>)
    ensures s[..|s|] == s
  {
  }

  /** A non-empty suffix splits off its last element. */
  lemma SnocSplit<T>(a: seq<T>, b: seq<T>)
    requires |b| > 0
    ensures a + b == (a + b[..|b| - 1]) + [b[|b| - 1]]
    ensures |a + b| - 1 == |a + b[..|b| - 1]|
  {
    assert b == b[..|b| - 1] + [b[|b| - 1]];
  }

  /** Dropping the last element of a sequence that ends in x. */
  lemma DropSnoc<T>(a: seq<T>, x: T)
    ensures (a + [x])[..|a|] == a
    ensures (a + [x])[|a|] == x
  {
  }
}
