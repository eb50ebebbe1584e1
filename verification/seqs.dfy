/**
 Order-preserving selection on sequences: the `Array.prototype.filter`
 the task list uses for removal, clearing and the filtered view, and the
 subsequence relation that describes what such a selection keeps.
 */
module Seqs {

  /** `a` is obtained from `b` by deleting zero or more elements. */
  predicate IsSubseq<T(==)>(a: seq<T>, b: seq<T>)
    decreases |b|
  {
    a == [] || (b != [] && ((a[0] == b[0] && IsSubseq(a[1..], b[1..])) || IsSubseq(a, b[1..])))
  }

  /** The elements of `s` that satisfy `p`, in their original order. */
  function Filter<T(==)>(p: T -> bool, s: seq<T>): (r: seq<T>)
    ensures |r| <= |s|
    ensures All(p, r)
    ensures IsSubseq(r, s)
  {
    if s == [] then []
    else if p(s[0]) then [s[0]] + Filter(p, s[1..])
    else Filter(p, s[1..])
  }

  /** A filter keeps exactly the elements of `s` that pass. */
  lemma {:induction false} FilterMembers<T>(p: T -> bool, s: seq<T>)
    ensures forall i :: 0 <= i < |Filter(p, s)| ==> Filter(p, s)[i] in s
    ensures forall i :: 0 <= i < |s| && p(s[i]) ==> s[i] in Filter(p, s)
  {
    if s != [] {
      FilterMembers(p, s[1..]);
      var r := Filter(p, s[1..]);
      assert forall i :: 0 <= i < |r| ==> r[i] in s[1..];
      assert forall i :: 1 <= i < |s| ==> s[i] == s[1..][i - 1];
    }
  }

  /** Every element satisfies `p`. */
  predicate All<T>(p: T -> bool, s: seq<T>) {
    forall i :: 0 <= i < |s| ==> p(s[i])
  }

  /** A subsequence keeps every property all elements share. */
  lemma {:induction false} SubseqAll<T>(p: T -> bool, r: seq<T>, s: seq<T>)
    requires IsSubseq(r, s)
    requires All(p, s)
    ensures All(p, r)
    decreases |s|
  {
    if r != [] {
      if r[0] == s[0] && IsSubseq(r[1..], s[1..]) {
        SubseqAll(p, r[1..], s[1..]);
      } else {
        SubseqAll(p, r, s[1..]);
      }
    }
  }

  /** Selecting with two complementary predicates splits the sequence. */
  lemma {:induction false} FilterPartition<T>(p: T -> bool, q: T -> bool, s: seq<T>)
    requires forall i :: 0 <= i < |s| ==> q(s[i]) == !p(s[i])
    ensures |Filter(p, s)| + |Filter(q, s)| == |s|
  {
    if s != [] {
      FilterPartition(p, q, s[1..]);
    }
  }

  /** A filter keeps the whole sequence exactly when every element passes. */
  lemma {:induction false} FilterKeepsAll<T>(p: T -> bool, s: seq<T>)
    ensures Filter(p, s) == s <==> All(p, s)
  {
    if s != [] {
      FilterKeepsAll(p, s[1..]);
      if !p(s[0]) {
        assert |Filter(p, s)| < |s|;
      }
    }
  }

  /** Filtering twice with the same predicate is filtering once. */
  lemma FilterIdempotent<T>(p: T -> bool, s: seq<T>)
    ensures Filter(p, Filter(p, s)) == Filter(p, s)
  {
    FilterKeepsAll(p, Filter(p, s));
  }

  /** Two predicates that agree on the elements of `s` select the same elements. */
  lemma {:induction false} FilterExtensional<T>(p: T -> bool, q: T -> bool, s: seq<T>)
    requires forall i :: 0 <= i < |s| ==> p(s[i]) == q(s[i])
    ensures Filter(p, s) == Filter(q, s)
  {
    if s != [] {
      FilterExtensional(p, q, s[1..]);
    }
  }

  /** A subsequence all of whose elements pass `p` is no longer than the filter. */
  lemma {:induction false} SubseqFilterBound<T>(p: T -> bool, r: seq<T>, s: seq<T>)
    requires IsSubseq(r, s)
    requires All(p, r)
    ensures |r| <= |Filter(p, s)|
    decreases |s|
  {
    if r != [] {
      if r[0] == s[0] && IsSubseq(r[1..], s[1..]) {
        SubseqFilterBound(p, r[1..], s[1..]);
      } else {
        SubseqFilterBound(p, r, s[1..]);
      }
    }
  }

  /**
   The filter is the only subsequence of `s` whose elements all pass `p`
   and that is as long as the number of passing elements: it drops exactly
   the failing elements and keeps every other one in order.
   */
  lemma {:induction false} FilterUnique<T>(p: T -> bool, r: seq<T>, s: seq<T>)
    requires IsSubseq(r, s)
    requires All(p, r)
    requires |r| == |Filter(p, s)|
    ensures r == Filter(p, s)
    decreases |s|
  {
    if s == [] {
    } else if r == [] {
      assert Filter(p, s) == [];
    } else if p(s[0]) {
      if r[0] == s[0] && IsSubseq(r[1..], s[1..]) {
        FilterUnique(p, r[1..], s[1..]);
        assert r == [r[0]] + r[1..];
      } else {
        SubseqFilterBound(p, r, s[1..]);
        assert false;
      }
    } else {
      FilterUnique(p, r, s[1..]);
    }
  }

  /** Filtering distributes over concatenation. */
  lemma {:induction false} FilterConcat<T>(p: T -> bool, a: seq<T>, b: seq<T>)
    ensures Filter(p, a + b) == Filter(p, a) + Filter(p, b)
  {
    if a == [] {
      assert a + b == b;
    } else {
      assert (a + b)[1..] == a[1..] + b;
      FilterConcat(p, a[1..], b);
    }
  }

  /** A prefix is a subsequence. */
  lemma {:induction false} PrefixIsSubseq<T>(a: seq<T>, b: seq<T>)
    ensures IsSubseq(a, a + b)
  {
    if a != [] {
      assert (a + b)[1..] == a[1..] + b;
      PrefixIsSubseq(a[1..], b);
    }
  }
}
