/** Order-preserving selection out of a sequence: what `Array.prototype.filter`
    and `Array.prototype.slice(0, k)` compute. */
module Seqs {

  /** `a` is `b` with some elements left out and the rest kept in order. */
  ghost predicate IsSubsequence<T>(a: seq<T>, b: seq<T>)
    decreases |b|
  {
    if a == [] then true
    else if b == [] then false
    else (a[0] == b[0] && IsSubsequence(a[1..], b[1..])) || IsSubsequence(a, b[1..])
  }

  /** `s.filter(p)`: the elements of `s` that satisfy `p`, in their order.
      The result is a subsequence of `s` holding every occurrence of every
      element that `p` keeps and nothing else. */
  function Filter<T(!new)>(p: T -> bool, s: seq<T>): (r: seq<T>)
    ensures IsSubsequence(r, s)
    ensures forall x :: multiset(r)[x] == if p(x) then multiset(s)[x] else 0
  {
    if s == [] then []
    else
      var rest := Filter(p, s[1..]);
      assert s == [s[0]] + s[1..];
      if p(s[0]) then
        assert ([s[0]] + rest)[1..] == rest;
        [s[0]] + rest
      else rest
  }

  /** Everything `Filter` keeps satisfies the predicate. */
  lemma FilterAll<T(!new)>(p: T -> bool, s: seq<T>, x: T)
    requires x in Filter(p, s)
    ensures p(x) && x in s
  {
    assert multiset(Filter(p, s))[x] > 0;
  }

  /** An element of `s` is kept exactly when it satisfies the predicate. */
  lemma FilterKeeps<T(!new)>(p: T -> bool, s: seq<T>, x: T)
    requires x in s
    ensures x in Filter(p, s) <==> p(x)
  {
    assert multiset(s)[x] > 0;
    if p(x) {
      assert multiset(Filter(p, s))[x] > 0;
    } else if x in Filter(p, s) {
      FilterAll(p, s, x);
    }
  }

  /** Every sequence is a subsequence of itself. */
  lemma SubsequenceOfSelf<T>(s: seq<T>)
    ensures IsSubsequence(s, s)
  {
    PrefixIsSubsequence(s, |s|);
    assert s[..|s|] == s;
  }

  /** A prefix is a subsequence. */
  lemma {:induction false} PrefixIsSubsequence<T>(s: seq<T>, k: nat)
    requires k <= |s|
    ensures IsSubsequence(s[..k], s)
    decreases |s|
  {
    if k > 0 {
      PrefixIsSubsequence(s[1..], k - 1);
      assert s[..k][1..] == s[1..][..k - 1];
    }
  }
}
