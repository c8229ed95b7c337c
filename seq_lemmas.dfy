/** Facts about sequences in general, stated over an arbitrary element type
    so that they are proved once, away from any grouping context. */
module SeqLemmas {

  lemma SnocSplit<T>(s: seq<T>)
    requires s != []
    ensures s == s[..|s| - 1] + [s[|s| - 1]]
  {
  }

  lemma AppendAssociative<T>(a: seq<T>, b: seq<T>, c: seq<T>)
    ensures (a + b) + c == a + (b + c)
  {
  }

  lemma AppendEmpty<T>(a: seq<T>)
    ensures a + [] == a
  {
  }

  lemma MultisetSize<T>(s: seq<T>)
    ensures |multiset(s)| == |s|
  {
  }

  /** The middle part of a three-part concatenation is the slice between the
      ends of the other two. */
  lemma SliceMiddle<T>(a: seq<T>, b: seq<T>, c: seq<T>)
    ensures |a| + |b| <= |a + b + c|
    ensures (a + b + c)[|a| .. |a| + |b|] == b
  {
  }

  lemma SliceIndex<T>(s: seq<T>, i: nat, j: nat, b: seq<T>, p: nat)
    requires i <= p < j <= |s| && s[i..j] == b
    ensures p - i < |b| && s[p] == b[p - i]
  {
  }

  lemma SplitAround<T>(s: seq<T>, i: nat)
    requires i < |s|
    ensures s == s[..i] + [s[i]] + s[i + 1..]
    ensures s[..i + 1] == s[..i] + [s[i]]
  {
  }
}
