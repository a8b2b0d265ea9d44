/** `Array.prototype.filter` (section 23.1.3.8 of ECMA-262) for a callback
    without side effects, and what it guarantees: it keeps exactly the
    elements the callback accepts, each as often as it occurs, in their
    original order. */
module Seqs {

  /** The elements of `s` for which `keep` holds, in the order of `s`. */
  function Filter<T>(keep: T -> bool, s: seq<T>): (r: seq<T>)
    ensures |r| <= |s|
    ensures forall x :: x in r ==> x in s && keep(x)
  {
    if s == [] then []
    else if keep(s[0]) then [s[0]] + Filter(keep, s[1..])
    else Filter(keep, s[1..])
  }

  /** `r` can be obtained from `s` by deleting elements, without reordering. */
  predicate IsSubsequence<T(==)>(r: seq<T>, s: seq<T>)
    decreases |s|
  {
    if r == [] then true
    else if s == [] then false
    else (r[0] == s[0] && IsSubsequence(r[1..], s[1..])) || IsSubsequence(r, s[1..])
  }

  /** Every element of `s` that `keep` accepts survives the filter. */
  lemma {:induction false} FilterComplete<T>(keep: T -> bool, s: seq<T>)
    ensures forall x :: x in s && keep(x) ==> x in Filter(keep, s)
  {
    if s != [] {
      FilterComplete(keep, s[1..]);
      assert forall x :: x in s ==> x == s[0] || x in s[1..];
    }
  }

  /** The filter keeps the relative order of the elements it keeps. */
  lemma {:induction false} FilterIsSubsequence<T>(keep: T -> bool, s: seq<T>)
    ensures IsSubsequence(Filter(keep, s), s)
  {
    if s != [] {
      FilterIsSubsequence(keep, s[1..]);
      var r := Filter(keep, s);
      if keep(s[0]) {
        assert r[0] == s[0] && r[1..] == Filter(keep, s[1..]);
      }
    }
  }

  /** Each accepted element occurs as often in the result as in `s`; each
      rejected one does not occur at all. */
  lemma {:induction false} FilterCount<T>(keep: T -> bool, s: seq<T>, x: T)
    ensures multiset(Filter(keep, s))[x] == if keep(x) then multiset(s)[x] else 0
  {
    if s != [] {
      FilterCount(keep, s[1..], x);
      assert s == [s[0]] + s[1..];
      assert multiset(s) == multiset([s[0]]) + multiset(s[1..]);
      if keep(s[0]) {
        assert multiset(Filter(keep, s)) == multiset([s[0]]) + multiset(Filter(keep, s[1..]));
      }
    }
  }

  /** A filter that accepts every element changes nothing. */
  lemma {:induction false} FilterKeepsAll<T>(keep: T -> bool, s: seq<T>)
    requires forall i :: 0 <= i < |s| ==> keep(s[i])
    ensures Filter(keep, s) == s
  {
    if s != [] {
      assert keep(s[0]);
      FilterKeepsAll(keep, s[1..]);
      assert [s[0]] + s[1..] == s;
    }
  }

  /** The result is empty exactly when no element is accepted. */
  lemma {:induction false} FilterEmptyIff<T>(keep: T -> bool, s: seq<T>)
    ensures Filter(keep, s) == [] <==> forall x :: x in s ==> !keep(x)
  {
    FilterComplete(keep, s);
    if s != [] && !keep(s[0]) {
      FilterEmptyIff(keep, s[1..]);
      assert forall x :: x in s ==> x == s[0] || x in s[1..];
    }
  }

  /** Filtering a second time with the same callback changes nothing. */
  lemma {:induction false} FilterIdempotent<T>(keep: T -> bool, s: seq<T>)
    ensures Filter(keep, Filter(keep, s)) == Filter(keep, s)
  {
    FilterKeepsAll(keep, Filter(keep, s));
  }

  /** Two callbacks that agree on the elements of `s` filter it alike. */
  lemma {:induction false} FilterCongruent<T>(f: T -> bool, g: T -> bool, s: seq<T>)
    requires forall x :: x in s ==> f(x) == g(x)
    ensures Filter(f, s) == Filter(g, s)
  {
    if s != [] {
      assert s[0] in s;
      assert forall x :: x in s[1..] ==> x in s;
      FilterCongruent(f, g, s[1..]);
    }
  }

  /** When `keep` rejects the element at index `k` and accepts every other
      one, the filter removes exactly that element. */
  lemma {:induction false} FilterDropsOne<T>(keep: T -> bool, s: seq<T>, k: nat)
    requires k < |s| && !keep(s[k])
    requires forall i :: 0 <= i < |s| && i != k ==> keep(s[i])
    ensures Filter(keep, s) == s[..k] + s[k + 1..]
  {
    if k == 0 {
      FilterKeepsAll(keep, s[1..]);
    } else {
      FilterDropsOne(keep, s[1..], k - 1);
      assert s[..k] + s[k + 1..] == [s[0]] + (s[1..][..k - 1] + s[1..][k..]);
    }
  }
}
