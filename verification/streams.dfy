/** Finite streams and the lazy filter `(x for x in s if keep(x))` that both
    samplers of csample are built on. A stream is a finite `seq`; the filter is
    defined one arriving record at a time: the output for `s + [x]` is the
    output for `s`, followed by `x` exactly when `x` is kept. */
module Streams {

  /** The records of `s` that `keep` accepts, in arrival order. */
  function Filter<T>(keep: T -> bool, s: seq<T>): (r: seq<T>)
    ensures |r| <= |s|
    ensures forall x :: x in r ==> x in s && keep(x)
  {
    if s == [] then []
    else
      var before := Filter(keep, s[..|s| - 1]);
      if keep(s[|s| - 1]) then before + [s[|s| - 1]] else before
  }

  /** `idx` lists, in strictly increasing order, positions of `b` that spell out `a`. */
  ghost predicate Embeds<T>(idx: seq<nat>, a: seq<T>, b: seq<T>)
  {
    && |idx| == |a|
    && (forall k :: 0 <= k < |idx| ==> idx[k] < |b| && a[k] == b[idx[k]])
    && (forall k, m :: 0 <= k < m < |idx| ==> idx[k] < idx[m])
  }

  /** `a` is obtained from `b` by deleting elements, without reordering any. */
  ghost predicate IsSubsequence<T>(a: seq<T>, b: seq<T>)
  {
    exists idx: seq<nat> :: Embeds(idx, a, b)
  }

  lemma SubsequenceExtend<T>(a: seq<T>, b: seq<T>, x: T)
    requires IsSubsequence(a, b)
    ensures IsSubsequence(a, b + [x])
    ensures IsSubsequence(a + [x], b + [x])
  {
    var idx: seq<nat> :| Embeds(idx, a, b);
    assert Embeds(idx, a, b + [x]);
    assert Embeds(idx + [|b|], a + [x], b + [x]);
  }

  /** Filtering keeps exactly the accepted records of the input. */
  lemma {:induction false} FilterMembership<T>(keep: T -> bool, s: seq<T>, x: T)
    ensures x in Filter(keep, s) <==> x in s && keep(x)
  {
    if s != [] {
      var init := s[..|s| - 1];
      FilterMembership(keep, init, x);
      assert s == init + [s[|s| - 1]];
    }
  }

  /** Filtering never invents or duplicates a record: every accepted value occurs
      in the output as often as in the input, every rejected one not at all. */
  lemma {:induction false} FilterMultiplicity<T>(keep: T -> bool, s: seq<T>, x: T)
    ensures multiset(Filter(keep, s))[x] == if keep(x) then multiset(s)[x] else 0
  {
    if s != [] {
      var init := s[..|s| - 1];
      FilterMultiplicity(keep, init, x);
      assert s == init + [s[|s| - 1]];
    }
  }

  /** Filtering never reorders: the output is a subsequence of the input. */
  lemma {:induction false} FilterIsSubsequence<T>(keep: T -> bool, s: seq<T>)
    ensures IsSubsequence(Filter(keep, s), s)
  {
    if s == [] {
      assert Embeds([], Filter(keep, s), s);
    } else {
      var init, last := s[..|s| - 1], s[|s| - 1];
      FilterIsSubsequence(keep, init);
      SubsequenceExtend(Filter(keep, init), init, last);
      assert s == init + [last];
    }
  }

  /** The decision for a record depends on that record alone: the output for a
      concatenation is the concatenation of the outputs. */
  lemma {:induction false} FilterConcat<T>(keep: T -> bool, a: seq<T>, b: seq<T>)
    ensures Filter(keep, a + b) == Filter(keep, a) + Filter(keep, b)
  {
    if b == [] {
      assert a + b == a;
    } else {
      var init := b[..|b| - 1];
      FilterConcat(keep, a, init);
      assert (a + b)[..|a + b| - 1] == a + init;
    }
  }

  /** Filtering by a stricter condition after a looser one is filtering by the
      stricter condition alone. */
  lemma {:induction false} FilterNested<T>(p: T -> bool, q: T -> bool, s: seq<T>)
    requires forall x :: x in s && p(x) ==> q(x)
    ensures Filter(p, Filter(q, s)) == Filter(p, s)
  {
    if s != [] {
      var init, last := s[..|s| - 1], s[|s| - 1];
      FilterNested(p, q, init);
      if q(last) {
        var mid := Filter(q, init);
        assert (mid + [last])[..|mid + [last]| - 1] == mid;
      }
    }
  }

  /** A filter accepting every record of `s` returns `s`. */
  lemma {:induction false} FilterAll<T>(keep: T -> bool, s: seq<T>)
    requires forall x :: x in s ==> keep(x)
    ensures Filter(keep, s) == s
  {
    if s != [] {
      FilterAll(keep, s[..|s| - 1]);
      assert s == s[..|s| - 1] + [s[|s| - 1]];
    }
  }

  /** A filter rejecting every record of `s` returns nothing. */
  lemma {:induction false} FilterNone<T>(keep: T -> bool, s: seq<T>)
    requires forall x :: x in s ==> !keep(x)
    ensures Filter(keep, s) == []
  {
    if s != [] {
      FilterNone(keep, s[..|s| - 1]);
    }
  }
}
