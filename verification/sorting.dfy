/** The sort the components rely on: `[...xs].sort(cmp)`, which since
    ECMAScript 2019 is stable. It is modelled as insertion sort driven by a
    "goes before" relation `less`; an element is placed after every earlier
    element it does not go before, so ties keep their input order. */
module Sorting {

  /** Inserts x into s in front of the first element it goes before. */
  function Insert<T>(x: T, s: seq<T>, less: (T, T) -> bool): (r: seq<T>)
    ensures |r| == |s| + 1
    ensures multiset(r) == multiset(s) + multiset{x}
  {
    if |s| == 0 then [x]
    else if less(x, s[0]) then [x] + s
    else
      assert s == [s[0]] + s[1..];
      [s[0]] + Insert(x, s[1..], less)
  }

  /** Sorts s by inserting its elements one after the other. */
  function Sort<T>(s: seq<T>, less: (T, T) -> bool): (r: seq<T>)
    ensures multiset(r) == multiset(s)
    ensures |r| == |s|
  {
    if |s| == 0 then []
    else
      assert s == s[..|s| - 1] + [s[|s| - 1]];
      Insert(s[|s| - 1], Sort(s[..|s| - 1], less), less)
  }

  /** No element goes before one that precedes it. */
  ghost predicate Sorted<T>(s: seq<T>, less: (T, T) -> bool) {
    forall i, j | 0 <= i < j < |s| :: !less(s[j], s[i])
  }

  /** `less` is a strict order: irreflexive and transitive. */
  ghost predicate StrictOrder<T(!new)>(less: (T, T) -> bool) {
    && (forall a :: !less(a, a))
    && (forall a, b, c :: less(a, b) && less(b, c) ==> less(a, c))
  }

  lemma {:induction false} InsertSorted<T(!new)>(x: T, s: seq<T>, less: (T, T) -> bool)
    requires StrictOrder(less) && Sorted(s, less)
    ensures Sorted(Insert(x, s, less), less)
    decreases |s|
  {
    if |s| > 0 && !less(x, s[0]) {
      InsertSorted(x, s[1..], less);
      var r := Insert(x, s, less);
      var t := Insert(x, s[1..], less);
      assert r == [s[0]] + t;
      assert multiset(t) == multiset(s[1..]) + multiset{x};
      forall j | 0 < j < |r| ensures !less(r[j], r[0]) {
        assert r[j] in multiset(t);
        if r[j] != x {
          assert r[j] in multiset(s[1..]);
          var k :| 0 <= k < |s[1..]| && s[1..][k] == r[j];
          assert s[k + 1] == r[j];
        }
      }
    } else if |s| > 0 {
      var r := Insert(x, s, less);
      forall i, j | 0 <= i < j < |r| ensures !less(r[j], r[i]) {
        if i == 0 {
          var y, h := s[j - 1], s[0];
          assert less(y, x) ==> less(y, h);
        }
      }
    }
  }

  /** With a strict order, the result is sorted. */
  lemma {:induction false} SortSorted<T(!new)>(s: seq<T>, less: (T, T) -> bool)
    requires StrictOrder(less)
    ensures Sorted(Sort(s, less), less)
    decreases |s|
  {
    if |s| > 0 {
      SortSorted(s[..|s| - 1], less);
      InsertSorted(s[|s| - 1], Sort(s[..|s| - 1], less), less);
    }
  }

  /** An element that goes before none of s is placed at the end. */
  lemma {:induction false} InsertLast<T>(x: T, s: seq<T>, less: (T, T) -> bool)
    requires forall i | 0 <= i < |s| :: !less(x, s[i])
    ensures Insert(x, s, less) == s + [x]
    decreases |s|
  {
    if |s| > 0 {
      InsertLast(x, s[1..], less);
      assert [s[0]] + (s[1..] + [x]) == s + [x];
    }
  }

  /** Sorting input that is already sorted returns it unchanged: the order
      of ties is kept. */
  lemma {:induction false} SortKeepsSorted<T>(s: seq<T>, less: (T, T) -> bool)
    requires Sorted(s, less)
    ensures Sort(s, less) == s
    decreases |s|
  {
    if |s| > 0 {
      var p, x := s[..|s| - 1], s[|s| - 1];
      forall i, j | 0 <= i < j < |p| ensures !less(p[j], p[i]) {
        assert p[i] == s[i] && p[j] == s[j];
      }
      SortKeepsSorted(p, less);
      forall i | 0 <= i < |p| ensures !less(x, p[i]) {
        assert p[i] == s[i];
      }
      InsertLast(x, p, less);
      assert Sort(s, less) == Insert(x, Sort(p, less), less);
      assert p + [x] == s;
    }
  }

  /** A relation under which nothing goes before anything leaves every
      sequence as it is. */
  lemma SortWithoutOrder<T>(s: seq<T>, less: (T, T) -> bool)
    requires forall a, b :: !less(a, b)
    ensures Sort(s, less) == s
  {
    SortKeepsSorted(s, less);
  }
}
