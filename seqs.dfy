/** Facts about sequences that the string and path models lean on. */
module Seqs {
  /** A tail of a tail of `s` is a tail of `s`. */
  lemma TailOfDrop<T>(s: seq<T>, i: nat, n: nat)
    requires i <= |s| && n <= |s| - i
    ensures s[|s| - n..] == s[i..][|s| - i - n..]
  {
  }

  /** Dropping a front of `x + sep + y` that ends inside `x`, or the whole of `x + sep`. */
  lemma DropFront<T>(x: seq<T>, sep: seq<T>, y: seq<T>, k: nat)
    requires k <= |x|
    ensures (x + sep + y)[k..] == x[k..] + sep + y
    ensures (x + sep + y)[|x| + |sep|..] == y
  {
  }

  /** The two halves of a concatenation read back. */
  lemma PartsOf<T>(a: seq<T>, b: seq<T>)
    ensures (a + b)[..|a|] == a && (a + b)[|a|..] == b
  {
  }

  /** Dropping the last element of `p + t`, for a non-empty `t`, drops it from `t`. */
  lemma DropLast<T>(p: seq<T>, t: seq<T>)
    requires t != []
    ensures (p + t)[..|p + t| - 1] == p + t[..|t| - 1]
    ensures (p + t)[|p + t| - 1] == t[|t| - 1]
  {
  }

  /** A prefix of `a + b` that reaches into `b`. */
  lemma PrefixThrough<T>(a: seq<T>, b: seq<T>, k: nat)
    requires k <= |b|
    ensures (a + b)[..|a| + k] == a + b[..k]
  {
  }

  /** A prefix of `s` split at `j`. */
  lemma PrefixJoin<T>(s: seq<T>, j: nat, k: nat)
    requires j <= k <= |s|
    ensures s[..k] == s[..j] + s[j..k]
  {
  }

  lemma ConcatAssoc<T>(a: seq<T>, b: seq<T>, c: seq<T>)
    ensures a + b + c == a + (b + c)
  {
  }

  lemma SplitAt<T>(s: seq<T>, i: nat)
    requires i <= |s|
    ensures s == s[..i] + s[i..]
  {
  }

  /** A non-empty sequence is its front followed by its last element. */
  lemma LastSplit<T>(s: seq<T>)
    requires s != []
    ensures s == s[..|s| - 1] + [s[|s| - 1]]
  {
  }

  /** What a tail of `s` ends with, `s` ends with too. */
  lemma EndsWithDrop<T>(s: seq<T>, k: nat, r: seq<T>)
    requires k <= |s| && |r| <= |s| - k && s[k..][|s| - k - |r|..] == r
    ensures |r| <= |s| && s[|s| - |r|..] == r
  {
    TailOfDrop(s, k, |r|);
  }

  /** The prefix one longer than `s[..i]` is `s[..i]` and then `s[i]`. */
  lemma PrefixStep<T>(s: seq<T>, i: nat)
    requires i < |s|
    ensures s[..i + 1][..i] == s[..i] && s[..i + 1][i] == s[i] && |s[..i + 1]| == i + 1
  {
  }

  /** `f` applied to each element of `xs`, in order. */
  function Map<A, B>(f: A -> B, xs: seq<A>): (r: seq<B>)
    ensures |r| == |xs|
  {
    if xs == [] then [] else Map(f, xs[..|xs| - 1]) + [f(xs[|xs| - 1])]
  }

  /** The k-th image is the image of the k-th element. */
  lemma {:induction false} MapAt<A, B>(f: A -> B, xs: seq<A>, k: nat)
    requires k < |xs|
    ensures Map(f, xs)[k] == f(xs[k])
    decreases |xs|
  {
    var n := |xs| - 1;
    if k < n {
      MapAt(f, xs[..n], k);
    }
  }

  /** The images of two joined sequences are the images of the first, then of the second. */
  lemma {:induction false} MapAppend<A, B>(f: A -> B, a: seq<A>, b: seq<A>)
    ensures Map(f, a + b) == Map(f, a) + Map(f, b)
    decreases |b|
  {
    if b == [] {
      assert a + b == a;
    } else {
      var n := |b| - 1;
      assert (a + b)[..|a + b| - 1] == a + b[..n];
      MapAppend(f, a, b[..n]);
    }
  }

  /** Where the parts of `a + [x] + t` sit. */
  lemma Around<T>(a: seq<T>, x: T, t: seq<T>)
    ensures var s := a + [x] + t;
      && |s| == |a| + 1 + |t|
      && s[..|a|] == a
      && (forall k :: 0 <= k < |a| ==> s[k] == a[k])
      && s[|a|] == x
      && (forall k :: |a| < k < |s| ==> s[k] == t[k - |a| - 1])
  {
    var s := a + [x] + t;
    assert s[..|a|] == a;
  }

  /** A slice inside the first of two joined sequences is that slice of the first; past it is the second. */
  lemma SliceOfFront<T>(s: seq<T>, t: seq<T>, a: nat, b: nat)
    requires a <= b <= |s|
    ensures (s + t)[a..b] == s[a..b] && (s + t)[|s|..] == t
  {
  }
}
