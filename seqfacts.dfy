/** Generic facts about sequences. They model nothing of their own; graph
    proofs call them so that each step is stated once. */
module SeqFacts {

  /** Concatenation is associative (stated once so proofs need not rediscover it). */
  lemma AppendAssoc<T>(a: seq<T>, b: seq<T>, c: seq<T>)
    ensures a + b + c == a + (b + c)
  {
  }

  /** Two lists of which one is empty can be appended in either order. */
  lemma SwapEmpty<T>(x: seq<T>, p: seq<T>, q: seq<T>)
    requires p == [] || q == []
    ensures x + p + q == x + q + p
  {
    if p == [] {
      assert x + p == x;
    } else {
      assert x + q == x;
    }
  }

  /** A non-empty list is its front followed by its last element. */
  lemma SplitLast<T>(s: seq<T>)
    requires s != []
    ensures s == s[..|s| - 1] + [s[|s| - 1]]
  {
  }
}
