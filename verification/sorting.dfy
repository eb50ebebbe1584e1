/**
 A stable sort parameterised by a comparator in the style of
 `Array.prototype.sort`: the comparator returns a negative number when its
 first argument goes first, a positive one when it goes second, and zero
 when the two are tied. Since ECMAScript 2019 the sort is required to be
 stable, so tied elements keep their original relative order.
 */
module Sorting {
  import opened Seqs

  /**
   The comparator is consistent in the sense of the ECMAScript sort
   (section 23.1.3.30 of ECMA-262): swapping the arguments flips the sign,
   and "goes no later than" is transitive.
   */
  ghost predicate Consistent<T(!new)>(cmp: (T, T) -> int) {
    && (forall a, b :: cmp(a, b) < 0 <==> cmp(b, a) > 0)
    && (forall a, b, c :: cmp(a, b) <= 0 && cmp(b, c) <= 0 ==> cmp(a, c) <= 0)
  }

  /** No element is placed after one that should come after it. */
  predicate Sorted<T>(cmp: (T, T) -> int, s: seq<T>) {
    forall i, j :: 0 <= i < j < |s| ==> cmp(s[i], s[j]) <= 0
  }

  /** Places `x` in front of the first element it is not after. */
  function Insert<T>(cmp: (T, T) -> int, x: T, s: seq<T>): (r: seq<T>)
    ensures multiset(r) == multiset(s) + multiset{x}
  {
    if s == [] || cmp(x, s[0]) <= 0 then [x] + s
    else
      assert s == [s[0]] + s[1..];
      [s[0]] + Insert(cmp, x, s[1..])
  }

  /** Stable insertion sort: earlier elements are inserted in front of tied later ones. */
  function SortBy<T>(cmp: (T, T) -> int, s: seq<T>): (r: seq<T>)
    ensures multiset(r) == multiset(s)
    ensures |r| == |s|
  {
    if s == [] then []
    else
      assert s == [s[0]] + s[1..];
      Insert(cmp, s[0], SortBy(cmp, s[1..]))
  }

  /** `z` goes no later than any element of `s`. */
  predicate NoLaterThanAll<T>(cmp: (T, T) -> int, z: T, s: seq<T>) {
    forall i :: 0 <= i < |s| ==> cmp(z, s[i]) <= 0
  }

  lemma {:induction false} InsertNoLaterThanAll<T>(cmp: (T, T) -> int, z: T, x: T, s: seq<T>)
    requires cmp(z, x) <= 0 && NoLaterThanAll(cmp, z, s)
    ensures NoLaterThanAll(cmp, z, Insert(cmp, x, s))
  {
    if s != [] && cmp(x, s[0]) > 0 {
      InsertNoLaterThanAll(cmp, z, x, s[1..]);
    }
  }

  /** A sequence with a first element is sorted when its rest is and the first goes no later than the rest. */
  lemma ConsSorted<T>(cmp: (T, T) -> int, x: T, s: seq<T>)
    requires NoLaterThanAll(cmp, x, s) && Sorted(cmp, s)
    ensures Sorted(cmp, [x] + s)
  {
    var r := [x] + s;
    forall i, j | 0 <= i < j < |r| ensures cmp(r[i], r[j]) <= 0 {
      if i == 0 {
        assert r[j] == s[j - 1];
      } else {
        assert r[i] == s[i - 1] && r[j] == s[j - 1];
      }
    }
  }

  lemma {:induction false} InsertSorted<T(!new)>(cmp: (T, T) -> int, x: T, s: seq<T>)
    requires Consistent(cmp)
    requires Sorted(cmp, s)
    ensures Sorted(cmp, Insert(cmp, x, s))
  {
    if s == [] {
      ConsSorted(cmp, x, s);
    } else if cmp(x, s[0]) <= 0 {
      forall j | 0 <= j < |s| ensures cmp(x, s[j]) <= 0 {
        if j > 0 {
          assert cmp(s[0], s[j]) <= 0;
        }
      }
      ConsSorted(cmp, x, s);
    } else {
      var rest := s[1..];
      assert Sorted(cmp, rest);
      InsertSorted(cmp, x, rest);
      assert cmp(s[0], x) < 0;
      assert NoLaterThanAll(cmp, s[0], rest) by {
        forall j | 0 <= j < |rest| ensures cmp(s[0], rest[j]) <= 0 {
          assert rest[j] == s[j + 1];
        }
      }
      InsertNoLaterThanAll(cmp, s[0], x, rest);
      ConsSorted(cmp, s[0], Insert(cmp, x, rest));
    }
  }

  /** With a consistent comparator the result is in comparator order. */
  lemma {:induction false} SortBySorted<T(!new)>(cmp: (T, T) -> int, s: seq<T>)
    requires Consistent(cmp)
    ensures Sorted(cmp, SortBy(cmp, s))
  {
    if s != [] {
      SortBySorted(cmp, s[1..]);
      InsertSorted(cmp, s[0], SortBy(cmp, s[1..]));
    }
  }

  /** `p` picks out elements that are all tied with one another. */
  ghost predicate TiedClass<T(!new)>(cmp: (T, T) -> int, p: T -> bool) {
    forall a, b :: p(a) && p(b) ==> cmp(a, b) == 0
  }

  lemma {:induction false} InsertTied<T(!new)>(cmp: (T, T) -> int, p: T -> bool, x: T, s: seq<T>)
    requires TiedClass(cmp, p)
    ensures Filter(p, Insert(cmp, x, s)) == (if p(x) then [x] else []) + Filter(p, s)
  {
    if s == [] || cmp(x, s[0]) <= 0 {
      assert ([x] + s)[1..] == s;
    } else {
      InsertTied(cmp, p, x, s[1..]);
      assert ([s[0]] + Insert(cmp, x, s[1..]))[1..] == Insert(cmp, x, s[1..]);
      if p(x) {
        assert !p(s[0]);
      }
    }
  }

  /** Stability: elements tied with one another keep their original relative order. */
  lemma {:induction false} SortByStable<T(!new)>(cmp: (T, T) -> int, p: T -> bool, s: seq<T>)
    requires TiedClass(cmp, p)
    ensures Filter(p, SortBy(cmp, s)) == Filter(p, s)
  {
    if s != [] {
      SortByStable(cmp, p, s[1..]);
      InsertTied(cmp, p, s[0], SortBy(cmp, s[1..]));
    }
  }

  /** When every pair of elements is tied, the sort leaves the sequence as it is. */
  lemma {:induction false} SortByAllTied<T>(cmp: (T, T) -> int, s: seq<T>)
    requires forall i, j :: 0 <= i < |s| && 0 <= j < |s| ==> cmp(s[i], s[j]) == 0
    ensures SortBy(cmp, s) == s
  {
    if s != [] {
      SortByAllTied(cmp, s[1..]);
      if |s| > 1 {
        assert cmp(s[0], s[1]) == 0;
      }
    }
  }
}
