/** Bytes, and the two facts about concatenation that every encoding proof uses. */
module Sequences {
  type byte = b: int | 0 <= b < 256

  lemma Regroup<T>(a: seq<T>, b: seq<T>, c: seq<T>)
    ensures (a + b) + c == a + (b + c)
  {
  }

  /** Two concatenations that agree, with first parts of one length, agree part by part. */
  lemma SameLengthSplit<T>(a: seq<T>, r1: seq<T>, b: seq<T>, r2: seq<T>)
    requires a + r1 == b + r2 && |a| == |b|
    ensures a == b && r1 == r2
  {
    var x := a + r1;
    assert a == x[..|a|] && b == x[..|a|] && r1 == x[|a|..] && r2 == x[|a|..];
  }
}
