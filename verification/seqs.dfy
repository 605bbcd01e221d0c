/** Order-preserving filtering, counting and summing over sequences: the
    shapes of `Array.prototype.filter`, `.filter(...).length` and
    `.reduce((sum, x) => sum + f(x), 0)`. */
module Seqs {
  import opened Wrappers

  /** `s.filter(p)` */
  function Filter<T>(s: seq<T>, p: T -> bool): (r: seq<T>)
    ensures |r| <= |s|
    ensures forall x | x in r :: x in s && p(x)
    ensures forall x | x in s && p(x) :: x in r
  {
    if |s| == 0 then []
    else (if p(s[0]) then [s[0]] else []) + Filter(s[1..], p)
  }

  /** a can be obtained from b by deleting elements. */
  predicate Subseq<T(==)>(a: seq<T>, b: seq<T>)
    decreases |b|
  {
    if |a| == 0 then true
    else if |b| == 0 then false
    else (a[0] == b[0] && Subseq(a[1..], b[1..])) || Subseq(a, b[1..])
  }

  /** Every sequence is a subsequence of itself. */
  lemma {:induction false} SubseqRefl<T>(s: seq<T>)
    ensures Subseq(s, s)
    decreases |s|
  {
    if |s| > 0 {
      SubseqRefl(s[1..]);
    }
  }

  lemma {:induction false} FilterIsSubseq<T>(s: seq<T>, p: T -> bool)
    ensures Subseq(Filter(s, p), s)
    decreases |s|
  {
    if |s| > 0 {
      FilterIsSubseq(s[1..], p);
      var r := Filter(s, p);
      if p(s[0]) {
        assert r[0] == s[0] && r[1..] == Filter(s[1..], p);
      } else {
        assert r == Filter(s[1..], p);
      }
    }
  }

  /** r keeps, in order, exactly the elements of s that pass p, each as
      many times as s holds it. */
  ghost predicate KeepsExactly<T(!new)>(r: seq<T>, s: seq<T>, p: T -> bool) {
    && Subseq(r, s)
    && forall x :: multiset(r)[x] == if p(x) then multiset(s)[x] else 0
  }

  /** `s.filter(p)` drops the failing elements and nothing else. */
  lemma {:induction false} FilterKeepsExactly<T(!new)>(s: seq<T>, p: T -> bool)
    ensures KeepsExactly(Filter(s, p), s, p)
    decreases |s|
  {
    FilterIsSubseq(s, p);
    if |s| > 0 {
      FilterKeepsExactly(s[1..], p);
      var head := if p(s[0]) then [s[0]] else [];
      var r, rest := Filter(s, p), Filter(s[1..], p);
      assert s == [s[0]] + s[1..];
      assert multiset(s) == multiset([s[0]]) + multiset(s[1..]);
      assert r == head + rest;
      assert multiset(r) == multiset(head) + multiset(rest);
    }
  }

  /** A subsequence holds no element more often than the whole. */
  lemma {:induction false} SubseqMultiset<T>(a: seq<T>, b: seq<T>)
    requires Subseq(a, b)
    ensures multiset(a) <= multiset(b)
    decreases |b|
  {
    if |a| > 0 {
      assert b == [b[0]] + b[1..];
      assert multiset(b) == multiset([b[0]]) + multiset(b[1..]);
      if a[0] == b[0] && Subseq(a[1..], b[1..]) {
        SubseqMultiset(a[1..], b[1..]);
        assert a == [a[0]] + a[1..];
        assert multiset(a) == multiset([a[0]]) + multiset(a[1..]);
      } else {
        SubseqMultiset(a, b[1..]);
      }
    }
  }

  /** The filter is the only subsequence that keeps exactly the passing
      elements. */
  lemma {:induction false} KeepsExactlyIsFilter<T(!new)>(r: seq<T>, s: seq<T>, p: T -> bool)
    requires KeepsExactly(r, s, p)
    ensures r == Filter(s, p)
    decreases |s|
  {
    if |s| > 0 {
      var x := s[0];
      assert s == [x] + s[1..];
      assert multiset(s) == multiset([x]) + multiset(s[1..]);
      if p(x) {
        assert multiset(r)[x] == multiset(s)[x] > multiset(s[1..])[x];
        if Subseq(r, s[1..]) {
          SubseqMultiset(r, s[1..]);
          assert false;
        }
        assert |r| > 0;
        assert r[0] == x && Subseq(r[1..], s[1..]);
        assert r == [x] + r[1..];
        assert multiset(r) == multiset([x]) + multiset(r[1..]);
        KeepsExactlyIsFilter(r[1..], s[1..], p);
      } else {
        assert multiset(r)[x] == 0;
        if |r| > 0 {
          assert r[0] in multiset(r);
          assert r[0] != x;
        }
        assert Subseq(r, s[1..]);
        KeepsExactlyIsFilter(r, s[1..], p);
      }
    }
  }

  /** Keeping the elements that pass is the identity when all of them pass. */
  lemma {:induction false} FilterAllPass<T>(s: seq<T>, p: T -> bool)
    requires forall x | x in s :: p(x)
    ensures Filter(s, p) == s
    decreases |s|
  {
    if |s| > 0 {
      forall x | x in s[1..] ensures p(x) {
        assert x in s;
      }
      FilterAllPass(s[1..], p);
      assert p(s[0]);
      assert Filter(s, p) == [s[0]] + Filter(s[1..], p);
      assert [s[0]] + s[1..] == s;
    }
  }

  /** Filtering twice by the same predicate is filtering once. */
  lemma FilterIdempotent<T>(s: seq<T>, p: T -> bool)
    ensures Filter(Filter(s, p), p) == Filter(s, p)
  {
    FilterAllPass(Filter(s, p), p);
  }

  /** Nothing passes exactly when the filtered sequence is empty. */
  lemma FilterEmptyIff<T>(s: seq<T>, p: T -> bool)
    ensures Filter(s, p) == [] <==> forall x | x in s :: !p(x)
  {
    if Filter(s, p) != [] {
      assert Filter(s, p)[0] in Filter(s, p);
    }
  }

  /** Predicates that agree on every element filter alike. */
  lemma {:induction false} FilterAgrees<T>(s: seq<T>, p: T -> bool, q: T -> bool)
    requires forall x | x in s :: p(x) == q(x)
    ensures Filter(s, p) == Filter(s, q)
    decreases |s|
  {
    if |s| > 0 {
      assert forall x | x in s[1..] :: x in s;
      FilterAgrees(s[1..], p, q);
    }
  }

  /** Filtering a sequence with one more element at the end. */
  lemma {:induction false} FilterAppend<T>(s: seq<T>, x: T, p: T -> bool)
    ensures Filter(s + [x], p) == Filter(s, p) + (if p(x) then [x] else [])
    decreases |s|
  {
    if |s| > 0 {
      assert (s + [x])[1..] == s[1..] + [x];
      FilterAppend(s[1..], x, p);
    }
  }

  /** `s.filter(p).length` */
  function Count<T>(s: seq<T>, p: T -> bool): (n: nat)
    ensures n <= |s|
  {
    |Filter(s, p)|
  }

  /** `s.reduce((sum, x) => sum + f(x), 0)` over reals. */
  function SumReal<T>(s: seq<T>, f: T -> real): real {
    if |s| == 0 then 0.0 else SumReal(s[..|s| - 1], f) + f(s[|s| - 1])
  }

  /** A sum of terms that all lie in [lo, hi] lies in [n lo, n hi]. */
  lemma {:induction false} SumRealBounds<T>(s: seq<T>, f: T -> real, lo: real, hi: real)
    requires forall x | x in s :: lo <= f(x) <= hi
    ensures |s| as real * lo <= SumReal(s, f) <= |s| as real * hi
    decreases |s|
  {
    if |s| > 0 {
      var init, last := s[..|s| - 1], s[|s| - 1];
      forall x | x in init ensures lo <= f(x) <= hi {
        assert x in s;
      }
      SumRealBounds(init, f, lo, hi);
      assert last in s;
      var n, a, b := |init| as real, SumReal(init, f), f(last);
      assert |s| as real * lo == n * lo + lo && |s| as real * hi == n * hi + hi;
      assert SumReal(s, f) == a + b;
    }
  }

  /** A sum of terms that are all at least 0 is at least 0. */
  lemma {:induction false} SumRealNotNegative<T>(s: seq<T>, f: T -> real)
    requires forall x | x in s :: 0.0 <= f(x)
    ensures 0.0 <= SumReal(s, f)
    decreases |s|
  {
    if |s| > 0 {
      var init := s[..|s| - 1];
      forall x | x in init ensures 0.0 <= f(x) {
        assert x in s;
      }
      SumRealNotNegative(init, f);
      assert s[|s| - 1] in s;
    }
  }

  /** `s.reduce((sum, x) => sum + f(x), 0)` over integers, where a NaN term
      (None) makes the whole sum NaN. */
  function SumIntOrNaN<T>(s: seq<T>, f: T -> Option<int>): Option<int> {
    if |s| == 0 then Some(0)
    else
      match (SumIntOrNaN(s[..|s| - 1], f), f(s[|s| - 1]))
      case (Some(a), Some(b)) => Some(a + b)
      case _ => None
  }

  /** The sum is a number exactly when every term is. */
  lemma {:induction false} SumIntOrNaNDefined<T>(s: seq<T>, f: T -> Option<int>)
    ensures SumIntOrNaN(s, f).Some? <==> forall x | x in s :: f(x).Some?
    decreases |s|
  {
    if |s| > 0 {
      SumIntOrNaNDefined(s[..|s| - 1], f);
      assert forall x | x in s :: x in s[..|s| - 1] || x == s[|s| - 1];
      assert forall x | x in s[..|s| - 1] :: x in s;
    }
  }

  /** Appending one term adds it to the sum. */
  lemma SumIntOrNaNAppend<T>(s: seq<T>, x: T, f: T -> Option<int>)
    ensures SumIntOrNaN(s + [x], f) ==
      if SumIntOrNaN(s, f).Some? && f(x).Some? then Some(SumIntOrNaN(s, f).value + f(x).value) else None
  {
    assert (s + [x])[..|s|] == s;
  }

  /** `s.filter(p)` where evaluating p can throw (None): the first throw
      aborts the whole call. */
  function TryFilter<T>(s: seq<T>, p: T -> Option<bool>): Option<seq<T>> {
    if |s| == 0 then Some([])
    else
      match (p(s[0]), TryFilter(s[1..], p))
      case (Some(b), Some(rest)) => Some((if b then [s[0]] else []) + rest)
      case _ => None
  }

  /** The elements for which p answers true. */
  function Passes<T>(p: T -> Option<bool>): T -> bool {
    x => p(x) == Some(true)
  }

  /** The call succeeds exactly when p answers on every element, and then
      it keeps, in order, the elements p accepts. */
  lemma {:induction false} TryFilterAgrees<T>(s: seq<T>, p: T -> Option<bool>)
    ensures TryFilter(s, p).Some? <==> forall i | 0 <= i < |s| :: p(s[i]).Some?
    ensures TryFilter(s, p).Some? ==> TryFilter(s, p).value == Filter(s, Passes(p))
    decreases |s|
  {
    if |s| > 0 {
      TryFilterAgrees(s[1..], p);
      assert forall i | 1 <= i < |s| :: s[i] == s[1..][i - 1];
    }
  }

  /** `s.map(y => p(y) ? x : y)`: every element p selects becomes x. */
  function Replace<T>(s: seq<T>, p: T -> bool, x: T): (r: seq<T>)
    ensures |r| == |s|
    ensures forall i | 0 <= i < |s| :: r[i] == if p(s[i]) then x else s[i]
    decreases |s|
  {
    if |s| == 0 then [] else [if p(s[0]) then x else s[0]] + Replace(s[1..], p, x)
  }

  /** Replacing twice is replacing once. */
  lemma ReplaceIdempotent<T>(s: seq<T>, p: T -> bool, x: T)
    ensures Replace(Replace(s, p, x), p, x) == Replace(s, p, x)
  {
  }

  /** The complement of a predicate. */
  function Not<T>(p: T -> bool): T -> bool {
    y => !p(y)
  }

  /** When the replacement is itself selected, the elements p does not
      select keep their order and their number. */
  lemma {:induction false} ReplaceKeepsOthers<T>(s: seq<T>, p: T -> bool, x: T)
    requires p(x)
    ensures Filter(Replace(s, p, x), Not(p)) == Filter(s, Not(p))
    decreases |s|
  {
    if |s| > 0 {
      ReplaceKeepsOthers(s[1..], p, x);
      assert Replace(s, p, x)[1..] == Replace(s[1..], p, x);
    }
  }
}
