/** Order-preserving filtering, reversal and per-element counting facts over sequences of rows:
    the row-level building blocks every view of the dashboard is made of. */
module Sequences {

  /** `a` can be obtained from `b` by deleting elements, keeping the rest in order. */
  predicate IsSubseq<T(==)>(a: seq<T>, b: seq<T>)
    decreases |b|
  {
    |a| == 0 ||
    (|b| > 0 && ((a[0] == b[0] && IsSubseq(a[1..], b[1..])) || IsSubseq(a, b[1..])))
  }

  /** `r` is exactly the rows of `s` that satisfy `p`: an order-preserving
      subsequence that keeps every satisfying row as often as it occurs and no
      other row. */
  ghost predicate FilteredBy<T(!new)>(r: seq<T>, s: seq<T>, p: T -> bool)
  {
    && IsSubseq(r, s)
    && forall x :: multiset(r)[x] == (if p(x) then multiset(s)[x] else 0)
  }

  /** Boolean-mask row selection (`df[mask]` / `df.loc[mask]`). */
  function Filter<T(==,!new)>(s: seq<T>, p: T -> bool): (r: seq<T>)
    ensures FilteredBy(r, s, p)
  {
    if |s| == 0 then []
    else
      var rest := Filter(s[1..], p);
      assert s == [s[0]] + s[1..];
      if p(s[0]) then
        var r := [s[0]] + rest;
        assert r[1..] == rest;
        r
      else
        assert |rest| > 0 ==> rest[0] in multiset(rest);
        rest
  }

  lemma {:induction false} SubseqRefl<T>(a: seq<T>)
    ensures IsSubseq(a, a)
  {
    if |a| > 0 {
      SubseqRefl(a[1..]);
    }
  }

  lemma {:induction false} SubseqTrans<T>(a: seq<T>, b: seq<T>, c: seq<T>)
    requires IsSubseq(a, b) && IsSubseq(b, c)
    ensures IsSubseq(a, c)
    decreases |c|
  {
    if |a| == 0 {
    } else if |b| > 0 && |c| > 0 && b[0] == c[0] && IsSubseq(b[1..], c[1..]) {
      if a[0] == b[0] && IsSubseq(a[1..], b[1..]) {
        SubseqTrans(a[1..], b[1..], c[1..]);
      } else {
        SubseqTrans(a, b[1..], c[1..]);
      }
    } else {
      SubseqTrans(a, b, c[1..]);
    }
  }

  /** The members of a filtered table are the members of the input that satisfy the predicate. */
  lemma FilteredMembers<T(!new)>(r: seq<T>, s: seq<T>, p: T -> bool)
    requires FilteredBy(r, s, p)
    ensures forall x :: x in r <==> x in s && p(x)
  {
    forall x
      ensures x in r <==> x in s && p(x)
    {
      assert x in r <==> x in multiset(r);
      assert x in s <==> x in multiset(s);
    }
  }

  /** Filtering a filtered table is filtering by the conjunction. */
  lemma FilteredByCompose<T(!new)>(s: seq<T>, m: seq<T>, r: seq<T>, p: T -> bool, q: T -> bool, pq: T -> bool)
    requires FilteredBy(m, s, p) && FilteredBy(r, m, q)
    requires forall x :: pq(x) == (p(x) && q(x))
    ensures FilteredBy(r, s, pq)
  {
    SubseqTrans(r, m, s);
  }

  /** Two predicates that agree on every row of `s` select the same rows. */
  lemma {:induction false} FilterAgree<T(!new)>(s: seq<T>, p: T -> bool, q: T -> bool)
    requires forall i :: 0 <= i < |s| ==> p(s[i]) == q(s[i])
    ensures Filter(s, p) == Filter(s, q)
  {
    if |s| > 0 {
      FilterAgree(s[1..], p, q);
    }
  }

  /** A filtered result with no element to keep is empty. */
  lemma FilteredNone<T(!new)>(r: seq<T>, s: seq<T>, p: T -> bool)
    requires FilteredBy(r, s, p)
    requires forall x :: !p(x)
    ensures r == []
  {
    assert multiset(r) == multiset{};
    assert |r| == |multiset(r)|;
  }

  /** A sequence of pairwise different elements holds each value at most once. */
  lemma {:induction false} CountsAtMostOne<T>(s: seq<T>)
    requires forall i, j :: 0 <= i < j < |s| ==> s[i] != s[j]
    ensures forall x :: multiset(s)[x] <= 1
  {
    if |s| > 0 {
      var t := s[1..];
      assert s == [s[0]] + t;
      CountsAtMostOne(t);
      assert s[0] !in t;
    }
  }

  /** A sequence that holds each value at most once has pairwise different elements. */
  lemma {:induction false} DistinctFromCounts<T>(s: seq<T>)
    requires forall x :: multiset(s)[x] <= 1
    ensures forall i, j :: 0 <= i < j < |s| ==> s[i] != s[j]
  {
    if |s| > 0 {
      var t := s[1..];
      assert s == [s[0]] + t;
      assert forall x :: multiset(t)[x] <= multiset(s)[x];
      DistinctFromCounts(t);
      assert multiset(t)[s[0]] == 0;
      assert forall j :: 1 <= j < |s| ==> s[j] == t[j - 1] && t[j - 1] in multiset(t);
    }
  }

  /** Row order reversed (`df.iloc[::-1]`). */
  function Reverse<T>(s: seq<T>): (r: seq<T>)
    ensures |r| == |s|
    ensures forall i :: 0 <= i < |s| ==> r[i] == s[|s| - 1 - i]
  {
    if |s| == 0 then [] else Reverse(s[1..]) + [s[0]]
  }

  lemma ReverseReverse<T>(s: seq<T>)
    ensures Reverse(Reverse(s)) == s
  {
  }

  lemma {:induction false} ReverseMultiset<T>(s: seq<T>)
    ensures multiset(Reverse(s)) == multiset(s)
  {
    if |s| > 0 {
      ReverseMultiset(s[1..]);
      assert s == [s[0]] + s[1..];
      assert Reverse(s) == Reverse(s[1..]) + [s[0]];
    }
  }

}
