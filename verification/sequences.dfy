/**
 Order-preserving sequence filtering, the one list operation the watchlist
 is built from: `filter` on an array keeps the elements that satisfy a
 predicate, in their original order.
 */
module Sequences {

  /** `sub` can be obtained from `s` by deleting elements; the rest keep their order. */
  ghost predicate IsSubsequence<T>(sub: seq<T>, s: seq<T>)
    decreases |s|
  {
    if |sub| == 0 then true
    else if |s| == 0 then false
    else (sub[0] == s[0] && IsSubsequence(sub[1..], s[1..])) || IsSubsequence(sub, s[1..])
  }

  /** The elements of `s` satisfying `p`, in the order they appear in `s`. */
  function Filter<T>(p: T -> bool, s: seq<T>): seq<T>
    decreases |s|
  {
    if |s| == 0 then []
    else if p(s[0]) then [s[0]] + Filter(p, s[1..])
    else Filter(p, s[1..])
  }

  /**
   What `Filter` keeps: every kept element satisfies `p`, and an element is
   kept exactly when it is in `s` and satisfies `p`.
   */
  lemma {:induction false} FilterMembers<T(!new)>(p: T -> bool, s: seq<T>)
    ensures forall i :: 0 <= i < |Filter(p, s)| ==> p(Filter(p, s)[i])
    ensures forall x :: x in Filter(p, s) <==> x in s && p(x)
    decreases |s|
  {
    if |s| > 0 {
      FilterMembers(p, s[1..]);
      assert s == [s[0]] + s[1..];
    }
  }

  /**
   `Filter` keeps every copy of a satisfying element and no copy of any
   other: it drops exactly the elements failing `p`.
   */
  lemma {:induction false} FilterCounts<T(!new)>(p: T -> bool, s: seq<T>)
    ensures forall x :: multiset(Filter(p, s))[x] == if p(x) then multiset(s)[x] else 0
    decreases |s|
  {
    if |s| > 0 {
      FilterCounts(p, s[1..]);
      assert s == [s[0]] + s[1..];
    }
  }

  /** `Filter` never lengthens a sequence. */
  lemma {:induction false} FilterLength<T>(p: T -> bool, s: seq<T>)
    ensures |Filter(p, s)| <= |s|
    decreases |s|
  {
    if |s| > 0 {
      FilterLength(p, s[1..]);
    }
  }

  /** `Filter` keeps the relative order of what it keeps. */
  lemma {:induction false} FilterIsSubsequence<T>(p: T -> bool, s: seq<T>)
    ensures IsSubsequence(Filter(p, s), s)
    decreases |s|
  {
    if |s| > 0 {
      FilterIsSubsequence(p, s[1..]);
      if p(s[0]) {
        assert ([s[0]] + Filter(p, s[1..]))[1..] == Filter(p, s[1..]);
      }
    }
  }

  /** A subsequence of a subsequence of `s` is a subsequence of `s`. */
  lemma {:induction false} SubsequenceTransitive<T>(a: seq<T>, b: seq<T>, c: seq<T>)
    requires IsSubsequence(a, b) && IsSubsequence(b, c)
    ensures IsSubsequence(a, c)
    decreases |c|
  {
    if |a| == 0 {
    } else if |c| == 0 {
    } else if |b| > 0 && b[0] == c[0] && IsSubsequence(b[1..], c[1..]) {
      if a[0] == b[0] && IsSubsequence(a[1..], b[1..]) {
        SubsequenceTransitive(a[1..], b[1..], c[1..]);
      } else {
        SubsequenceTransitive(a, b[1..], c[1..]);
      }
    } else {
      SubsequenceTransitive(a, b, c[1..]);
    }
  }

  /** Filtering with a predicate every element satisfies gives the sequence back. */
  lemma {:induction false} FilterKeepsAll<T>(p: T -> bool, s: seq<T>)
    ensures (forall i :: 0 <= i < |s| ==> p(s[i])) ==> Filter(p, s) == s
    decreases |s|
  {
    if |s| > 0 && forall i :: 0 <= i < |s| ==> p(s[i]) {
      assert forall i :: 0 <= i < |s[1..]| ==> s[1..][i] == s[i + 1];
      FilterKeepsAll(p, s[1..]);
      assert s == [s[0]] + s[1..];
    }
  }

  /** Filtering with a predicate no element satisfies gives the empty sequence. */
  lemma {:induction false} FilterDropsAll<T>(p: T -> bool, s: seq<T>)
    requires forall i :: 0 <= i < |s| ==> !p(s[i])
    ensures Filter(p, s) == []
    decreases |s|
  {
    if |s| > 0 {
      FilterDropsAll(p, s[1..]);
    }
  }

  /**
   Filtering by `p` and by its negation `q` splits `s` in two: nothing lands
   in both, nothing is lost, and the lengths add up.
   */
  lemma FilterPartition<T(!new)>(p: T -> bool, q: T -> bool, s: seq<T>)
    requires forall x :: q(x) == !p(x)
    ensures multiset(Filter(p, s)) + multiset(Filter(q, s)) == multiset(s)
    ensures |Filter(p, s)| + |Filter(q, s)| == |s|
    ensures forall x :: !(x in Filter(p, s) && x in Filter(q, s))
  {
    var a, b := Filter(p, s), Filter(q, s);
    FilterCounts(p, s);
    FilterCounts(q, s);
    FilterMembers(p, s);
    FilterMembers(q, s);
    assert multiset(a) + multiset(b) == multiset(s);
    assert |multiset(a) + multiset(b)| == |multiset(s)|;
  }

  /** Filtering twice is filtering once by the conjunction, so the two filters commute. */
  lemma {:induction false} FilterFilter<T>(p: T -> bool, q: T -> bool, s: seq<T>)
    ensures Filter(p, Filter(q, s)) == Filter(x => p(x) && q(x), s)
    ensures Filter(p, Filter(q, s)) == Filter(q, Filter(p, s))
    decreases |s|
  {
    if |s| > 0 {
      FilterFilter(p, q, s[1..]);
    }
  }

  /** Filtering distributes over concatenation. */
  lemma {:induction false} FilterConcat<T>(p: T -> bool, a: seq<T>, b: seq<T>)
    ensures Filter(p, a + b) == Filter(p, a) + Filter(p, b)
    decreases |a|
  {
    if |a| > 0 {
      FilterConcat(p, a[1..], b);
      assert (a + b)[1..] == a[1..] + b;
      assert (a + b)[0] == a[0];
    } else {
      assert a + b == b;
    }
  }
}
