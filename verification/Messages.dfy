/** What the message queues have in common. */
module Messages {
  /** A payload word. */
  type Word = int

  /** `copy` and `msg` agree on the words that both have. */
  predicate Agree(copy: seq<Word>, msg: seq<Word>) {
    forall k :: 0 <= k < |copy| && k < |msg| ==> copy[k] == msg[k]
  }

  /** `copy` has the `words` words that were asked for: those of `msg` as far as they go. */
  predicate Carries(copy: seq<Word>, words: nat, msg: seq<Word>) {
    |copy| == words && Agree(copy, msg)
  }

  /** Whoever asks for enough words gets the whole message; whoever asks for fewer
      gets that many of its first words. */
  lemma CarriesWhole(copy: seq<Word>, words: nat, msg: seq<Word>)
    requires Carries(copy, words, msg)
    ensures words >= |msg| ==> copy[..|msg|] == msg
    ensures words <= |msg| ==> copy == msg[..words]
  {
  }

  /** `part` is what is left of `whole` when some of its elements are crossed out. */
  predicate IsSubsequence<T(==)>(part: seq<T>, whole: seq<T>)
    decreases |whole|
  {
    if part == [] then true
    else if whole == [] then false
    else
      var p, w := |part| - 1, |whole| - 1;
      IsSubsequence(part, whole[..w]) || (part[p] == whole[w] && IsSubsequence(part[..p], whole[..w]))
  }

  lemma SubsequenceGrows<T>(part: seq<T>, whole: seq<T>, x: T)
    requires IsSubsequence(part, whole)
    ensures IsSubsequence(part, whole + [x]) && IsSubsequence(part + [x], whole + [x])
  {
    assert (whole + [x])[..|whole|] == whole && (part + [x])[..|part|] == part;
  }
}
