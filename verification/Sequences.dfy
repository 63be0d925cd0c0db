/** Rearrangements of sequences, stated once so that proofs can use them without unfolding. */
module Sequences {

  lemma Assoc<T>(a: seq<T>, b: seq<T>, c: seq<T>)
    ensures a + b + c == a + (b + c)
  {
  }

  lemma EmptyUnit<T>(a: seq<T>)
    ensures a + [] == a && [] + a == a
  {
  }

  /** Moving the boundary between what has been looked at and what has not by one. */
  lemma NextOf<T>(s: seq<T>, j: nat)
    requires j < |s|
    ensures s[..j + 1] == s[..j] + [s[j]]
    ensures s[j..] == [s[j]] + s[j + 1..]
  {
  }

  /** Dropping or passing over the first element after a prefix. */
  lemma AfterPrefix<T>(prefix: seq<T>, x: T, rest: seq<T>)
    ensures var all := prefix + ([x] + rest);
            && |prefix| < |all| && all[|prefix|] == x
            && all[..|prefix|] + all[|prefix| + 1..] == prefix + rest
            && prefix + [x] + rest == all
  {
  }

  lemma Cancel<T>(a: seq<T>, b: seq<T>, c: seq<T>)
    requires a + b == a + c
    ensures b == c
  {
    assert b == (a + b)[|a|..] && c == (a + c)[|a|..];
  }
}
