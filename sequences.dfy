/** Order-preserving relations between sequences. */
module Sequences {

  /** `p` is an initial segment of `s`. */
  predicate IsPrefix<T(==)>(p: seq<T>, s: seq<T>) {
    |p| <= |s| && s[..|p|] == p
  }

  /** `a` can be obtained from `b` by deleting elements, keeping the order.
      Matched greedily from the back, which is where appends happen. */
  predicate Subseq<T(==)>(a: seq<T>, b: seq<T>)
    decreases |b|
  {
    if a == [] then true
    else if b == [] then false
    else if a[|a| - 1] == b[|b| - 1] then Subseq(a[..|a| - 1], b[..|b| - 1])
    else Subseq(a, b[..|b| - 1])
  }

  lemma {:induction false} SubseqLength<T>(a: seq<T>, b: seq<T>)
    requires Subseq(a, b)
    ensures |a| <= |b|
    decreases |b|
  {
    if a != [] {
      if a[|a| - 1] == b[|b| - 1] {
        SubseqLength(a[..|a| - 1], b[..|b| - 1]);
      } else {
        SubseqLength(a, b[..|b| - 1]);
      }
    }
  }

  /** Every element of a subsequence occurs in the larger sequence. */
  lemma {:induction false} SubseqMembers<T>(a: seq<T>, b: seq<T>, i: nat)
    requires Subseq(a, b) && i < |a|
    ensures a[i] in b
    decreases |b|
  {
    var n, m := |a|, |b|;
    if a[n - 1] == b[m - 1] {
      if i < n - 1 {
        SubseqMembers(a[..n - 1], b[..m - 1], i);
        assert a[i] == a[..n - 1][i];
        assert b[..m - 1] <= b;
      }
    } else {
      SubseqMembers(a, b[..m - 1], i);
      assert b[..m - 1] <= b;
    }
  }

  /** Dropping the last element of the smaller sequence keeps the relation. */
  lemma {:induction false} SubseqDropLast<T>(a: seq<T>, b: seq<T>)
    requires Subseq(a, b) && a != []
    ensures Subseq(a[..|a| - 1], b)
    decreases |b|, 0
  {
    var n, m := |a|, |b|;
    if a[n - 1] == b[m - 1] {
      // a[..n-1] is a subsequence of b[..m-1], hence of b
      SubseqExtendRight(a[..n - 1], b[..m - 1], b[m - 1]);
      assert b[..m - 1] + [b[m - 1]] == b;
    } else {
      SubseqDropLast(a, b[..m - 1]);
      SubseqExtendRight(a[..n - 1], b[..m - 1], b[m - 1]);
      assert b[..m - 1] + [b[m - 1]] == b;
    }
  }

  /** Appending to the larger sequence keeps the relation. */
  lemma {:induction false} SubseqExtendRight<T>(a: seq<T>, b: seq<T>, x: T)
    requires Subseq(a, b)
    ensures Subseq(a, b + [x])
    decreases |b|, 1
  {
    var b' := b + [x];
    assert b'[..|b'| - 1] == b;
    if a != [] && a[|a| - 1] == x {
      SubseqDropLast(a, b);
    }
  }

  /** Appending the same element to both keeps the relation. */
  lemma SubseqExtendBoth<T>(a: seq<T>, b: seq<T>, x: T)
    requires Subseq(a, b)
    ensures Subseq(a + [x], b + [x])
  {
    assert (a + [x])[..|a|] == a;
    assert (b + [x])[..|b|] == b;
  }
}
