/**
 * Stable sorting by a caller-given order, as Python's `list.sort` and
 * SQLite's `ORDER BY` are used by the monitor. `le(a, b)` means "a may come
 * before b"; a descending sort passes the reversed comparison.
 */
module Sorting {
  import opened Text

  /** `le` is total and transitive, so it ranks every pair of elements. */
  ghost predicate TotalPreorder<T(!new)>(le: (T, T) -> bool) {
    (forall a, b :: le(a, b) || le(b, a))
    && (forall a, b, c :: le(a, b) && le(b, c) ==> le(a, c))
  }

  predicate SortedBy<T>(xs: seq<T>, le: (T, T) -> bool) {
    forall i, j :: 0 <= i < j < |xs| ==> le(xs[i], xs[j])
  }

  /** Puts `x` before the first element it may precede. */
  function Insert<T>(x: T, xs: seq<T>, le: (T, T) -> bool): (r: seq<T>)
    ensures multiset(r) == multiset(xs) + multiset{x}
    ensures |r| == |xs| + 1
  {
    if xs == [] || le(x, xs[0]) then [x] + xs
    else
      assert xs == [xs[0]] + xs[1..];
      [xs[0]] + Insert(x, xs[1..], le)
  }

  /** Insertion sort: each element goes in front of the first later element it may precede, so ties keep their order. */
  function SortBy<T>(xs: seq<T>, le: (T, T) -> bool): (r: seq<T>)
    ensures multiset(r) == multiset(xs)
    ensures |r| == |xs|
  {
    if xs == [] then []
    else
      assert xs == [xs[0]] + xs[1..];
      Insert(xs[0], SortBy(xs[1..], le), le)
  }

  lemma {:induction false} InsertSorted<T(!new)>(x: T, xs: seq<T>, le: (T, T) -> bool)
    requires TotalPreorder(le) && SortedBy(xs, le)
    ensures SortedBy(Insert(x, xs, le), le)
  {
    if xs != [] && !le(x, xs[0]) {
      InsertSorted(x, xs[1..], le);
      var r := Insert(x, xs, le);
      var t := Insert(x, xs[1..], le);
      assert r == [xs[0]] + t;
      forall j | 1 <= j < |r| ensures le(r[0], r[j]) {
        assert r[j] in multiset(t);
        assert r[j] in multiset(xs[1..]) + multiset{x};
        if r[j] == x {
        } else {
          assert r[j] in xs[1..];
          var k :| 0 <= k < |xs[1..]| && xs[1..][k] == r[j];
          assert xs[k + 1] == r[j];
        }
      }
    }
  }

  /** `SortBy` orders its input and keeps every element with its multiplicity. */
  lemma {:induction false} SortBySorted<T(!new)>(xs: seq<T>, le: (T, T) -> bool)
    requires TotalPreorder(le)
    ensures SortedBy(SortBy(xs, le), le)
  {
    if xs != [] {
      SortBySorted(xs[1..], le);
      InsertSorted(xs[0], SortBy(xs[1..], le), le);
    }
  }

  /** The ascending sequence of a finite set of strings, Python's `sorted(s)`. */
  function SortedSet(s: set<string>): (r: seq<string>)
    ensures |r| == |s|
    decreases |s|
  {
    if s == {} then []
    else
      var x := Least(s);
      [x] + SortedSet(s - {x})
  }

  /** The code-point-lexicographic minimum of a non-empty set of strings. */
  function Least(s: set<string>): (m: string)
    requires s != {}
    ensures m in s && forall y :: y in s && y != m ==> StrLess(m, y)
  {
    LeastExists(s);
    StrLessAsymmetricAll();
    var m :| m in s && forall y :: y in s && y != m ==> StrLess(m, y);
    m
  }

  lemma StrLessAsymmetricAll()
    ensures forall a, b :: StrLess(a, b) ==> !StrLess(b, a)
  {
    forall a, b | StrLess(a, b) ensures !StrLess(b, a) {
      StrLessAsymmetric(a, b);
    }
  }

  lemma {:induction false} LeastExists(s: set<string>)
    requires s != {}
    ensures exists m :: m in s && forall y :: y in s && y != m ==> StrLess(m, y)
    decreases |s|
  {
    var x :| x in s;
    var t := s - {x};
    if t == {} {
      assert s == {x};
    } else {
      LeastExists(t);
      var m :| m in t && forall y :: y in t && y != m ==> StrLess(m, y);
      StrLessTotal(x, m);
      if StrLess(x, m) {
        forall y | y in s && y != x ensures StrLess(x, y) {
          assert y in t;
          if y != m { StrLessTransitive(x, m, y); }
        }
      } else {
        forall y | y in s && y != m ensures StrLess(m, y) {
          if y != x { assert y in t; }
        }
      }
    }
  }

  /** `sorted(s)` lists every member of `s` once, in strictly ascending order. */
  lemma {:induction false} SortedSetSpec(s: set<string>)
    ensures forall x :: x in SortedSet(s) <==> x in s
    ensures forall i, j :: 0 <= i < j < |SortedSet(s)| ==> StrLess(SortedSet(s)[i], SortedSet(s)[j])
    decreases |s|
  {
    if s != {} {
      var x := Least(s);
      var rest := SortedSet(s - {x});
      SortedSetSpec(s - {x});
      var r := SortedSet(s);
      assert r == [x] + rest;
      forall i, j | 0 <= i < j < |r| ensures StrLess(r[i], r[j]) {
        assert r[j] == rest[j - 1] && rest[j - 1] in rest;
        if i > 0 {
          assert r[i] == rest[i - 1];
        }
      }
    }
  }
}
