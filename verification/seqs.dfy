/**
 Order-preserving filtering and real-valued sums over sequences: the two
 list operations (`Array.prototype.filter` and a `reduce` that adds) that
 both pages of the application are built from.
 */
module Seqs {

  /** The elements of `s` that satisfy `p`, in their original order. */
  function Filter<T>(p: T -> bool, s: seq<T>): (r: seq<T>)
    ensures |r| <= |s|
    ensures forall i :: 0 <= i < |r| ==> p(r[i])
    decreases |s|
  {
    if |s| == 0 then []
    else
      var last := s[|s| - 1];
      Filter(p, s[..|s| - 1]) + (if p(last) then [last] else [])
  }

  /** Unfolds `Filter` on a sequence written as a prefix and a last element. */
  lemma FilterSnoc<T>(p: T -> bool, s: seq<T>, x: T)
    ensures Filter(p, s + [x]) == Filter(p, s) + (if p(x) then [x] else [])
  {
    assert (s + [x])[..|s + [x]| - 1] == s;
  }

  /** Filtering distributes over concatenation, so relative order is kept. */
  lemma {:induction false} FilterAppend<T>(p: T -> bool, a: seq<T>, b: seq<T>)
    ensures Filter(p, a + b) == Filter(p, a) + Filter(p, b)
    decreases |b|
  {
    if |b| == 0 {
      assert a + b == a;
    } else {
      var b', last := b[..|b| - 1], b[|b| - 1];
      assert b == b' + [last];
      assert a + b == (a + b') + [last];
      FilterAppend(p, a, b');
      FilterSnoc(p, a + b', last);
      FilterSnoc(p, b', last);
    }
  }

  /** An element is kept exactly as often as it occurs, or dropped entirely. */
  lemma {:induction false} FilterMultiplicity<T>(p: T -> bool, s: seq<T>, x: T)
    ensures multiset(Filter(p, s))[x] == if p(x) then multiset(s)[x] else 0
    ensures x in Filter(p, s) <==> x in s && p(x)
    decreases |s|
  {
    if |s| > 0 {
      var init, last := s[..|s| - 1], s[|s| - 1];
      assert s == init + [last];
      FilterMultiplicity(p, init, x);
    }
  }

  /** A filter that every element passes is the identity. */
  lemma {:induction false} FilterKeepsAll<T>(p: T -> bool, s: seq<T>)
    requires forall i :: 0 <= i < |s| ==> p(s[i])
    ensures Filter(p, s) == s
    decreases |s|
  {
    if |s| > 0 {
      FilterKeepsAll(p, s[..|s| - 1]);
      assert s == s[..|s| - 1] + [s[|s| - 1]];
    }
  }

  /** `f` summed over `s` from left to right, starting at 0. */
  function Sum<T>(f: T -> real, s: seq<T>): real
    decreases |s|
  {
    if |s| == 0 then 0.0 else Sum(f, s[..|s| - 1]) + f(s[|s| - 1])
  }

  /** A nonempty sequence is its front followed by its last element. */
  lemma SnocLast<T>(s: seq<T>)
    requires |s| > 0
    ensures s == s[..|s| - 1] + [s[|s| - 1]]
  {
  }

  lemma SumSnoc<T>(f: T -> real, s: seq<T>, x: T)
    ensures Sum(f, s + [x]) == Sum(f, s) + f(x)
  {
    assert (s + [x])[..|s + [x]| - 1] == s;
  }

  lemma {:induction false} SumAppend<T>(f: T -> real, a: seq<T>, b: seq<T>)
    ensures Sum(f, a + b) == Sum(f, a) + Sum(f, b)
    decreases |b|
  {
    if |b| == 0 {
      assert a + b == a;
    } else {
      var b', last := b[..|b| - 1], b[|b| - 1];
      assert b == b' + [last];
      assert a + b == (a + b') + [last];
      SumAppend(f, a, b');
      SumSnoc(f, a + b', last);
      SumSnoc(f, b', last);
    }
  }

  /** Splitting a sequence by a predicate and its complement splits its sum. */
  lemma {:induction false} SumSplitsByFilter<T>(f: T -> real, p: T -> bool, q: T -> bool, s: seq<T>)
    requires forall x :: q(x) == !p(x)
    ensures Sum(f, s) == Sum(f, Filter(p, s)) + Sum(f, Filter(q, s))
    decreases |s|
  {
    if |s| > 0 {
      var init, last := s[..|s| - 1], s[|s| - 1];
      assert s == init + [last];
      SumSplitsByFilter(f, p, q, init);
      FilterSnoc(p, init, last);
      FilterSnoc(q, init, last);
      if p(last) {
        SumSnoc(f, Filter(p, init), last);
        assert Filter(q, s) == Filter(q, init);
      } else {
        SumSnoc(f, Filter(q, init), last);
        assert Filter(p, s) == Filter(p, init);
      }
    }
  }

  /** A filter that no element passes leaves nothing. */
  lemma {:induction false} FilterNone<T>(p: T -> bool, s: seq<T>)
    requires forall i :: 0 <= i < |s| ==> !p(s[i])
    ensures Filter(p, s) == []
    decreases |s|
  {
    if |s| > 0 {
      FilterNone(p, s[..|s| - 1]);
    }
  }
}
