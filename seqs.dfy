/** Reshaping sequences, stated once for any element type so that a proof
    about a sequence of byte strings never compares byte strings element by
    element. */
module Seqs {
  lemma PrefixOfPrefix<T>(s: seq<T>, i: nat)
    requires i < |s|
    ensures s[..i + 1][..i] == s[..i]
  {
  }

  lemma WholePrefix<T>(s: seq<T>)
    ensures s[..|s|] == s
  {
  }

  lemma AppendEmpty<T>(a: seq<T>)
    ensures a + [] == a && [] + a == a
  {
  }

  lemma SplitFirst<T>(s: seq<T>)
    requires |s| > 0
    ensures s == [s[0]] + s[1..]
  {
  }

  lemma SplitLast<T>(s: seq<T>)
    requires |s| > 0
    ensures s == s[..|s| - 1] + [s[|s| - 1]]
  {
  }

  lemma SplitAt<T>(s: seq<T>, i: nat)
    requires i < |s|
    ensures s == s[..i] + [s[i]] + s[i + 1..]
  {
  }

  /** Dropping the last element of `a + b`, for a non-empty `b`, drops it from `b`. */
  lemma AppendDropLast<T>(a: seq<T>, b: seq<T>)
    requires |b| > 0
    ensures (a + b)[..|a + b| - 1] == a + b[..|b| - 1]
    ensures (a + b)[|a + b| - 1] == b[|b| - 1]
  {
  }

  /** Appending at the end keeps the head and extends the tail. */
  lemma TailAppend<T>(a: seq<T>, x: T)
    requires |a| > 0
    ensures (a + [x])[0] == a[0] && (a + [x])[1..] == a[1..] + [x]
  {
  }

  lemma AppendAssoc<T>(x: seq<T>, y: seq<T>, z: seq<T>)
    ensures x + (y + z) == x + y + z
  {
  }

  lemma WholeSlice<T>(s: seq<T>)
    ensures s[0..|s|] == s
  {
  }

  /** Where `x + y` sits in `input` from `p` on, `x` sits at `p` and `y` right after it. */
  lemma SliceAppend<T>(input: seq<T>, p: nat, x: seq<T>, y: seq<T>)
    requires p + |x + y| <= |input| && input[p..p + |x + y|] == x + y
    ensures input[p..p + |x|] == x
    ensures input[p + |x|..p + |x| + |y|] == y
  {
    assert input[p..p + |x|] == input[p..p + |x + y|][..|x|];
    assert input[p + |x|..p + |x| + |y|] == input[p..p + |x + y|][|x|..];
  }

  lemma DropFirst<T>(x: T, s: seq<T>)
    ensures ([x] + s)[0] == x && ([x] + s)[1..] == s
  {
  }

  lemma TakeNone<T>(s: seq<T>)
    ensures s[..0] == []
  {
  }

  /** The three pieces of `a + b + c` are where they were put. */
  lemma Pieces<T>(a: seq<T>, b: seq<T>, c: seq<T>)
    ensures (a + b + c)[..|a|] == a
    ensures (a + b + c)[|a|..|a| + |b|] == b
    ensures (a + b + c)[|a| + |b|..] == c
  {
  }
}
