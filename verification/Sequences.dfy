/** Splitting and joining sequences, shared by the codecs and the texts. */
module Sequences {

  /** What a suffix starts with stands at its position, and the rest after it. */
  lemma SuffixSplits<T>(s: seq<T>, i: nat, head: seq<T>, rest: seq<T>)
    requires i <= |s| && s[i..] == head + rest
    ensures i + |head| <= |s| && s[i..i + |head|] == head && s[i + |head|..] == rest
  {
    assert |s| - i == |head| + |rest|;
    assert s[i..i + |head|] == s[i..][..|head|];
    assert s[i + |head|..] == s[i..][|head|..];
  }

  lemma JoinAssoc<T>(a: seq<T>, b: seq<T>, c: seq<T>)
    ensures a + b + c == a + (b + c)
  {
  }
}
