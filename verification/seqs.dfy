/** Sequence helpers with the semantics of the document store's single-document
    operations (`findOne`, `updateOne`, `deleteOne` act on the FIRST match) and
    of the aggregation arithmetic. */
module Seqs {
  import opened Wrappers

  /** Index of the first element satisfying `p`, if any. */
  function FirstIndex<T>(s: seq<T>, p: T -> bool): (r: Option<nat>)
    ensures r.None? <==> forall i :: 0 <= i < |s| ==> !p(s[i])
    ensures r.Some? ==> r.value < |s| && p(s[r.value])
    ensures r.Some? ==> forall j :: 0 <= j < r.value ==> !p(s[j])
    decreases |s|
  {
    if |s| == 0 then None
    else if p(s[0]) then Some(0)
    else
      match FirstIndex(s[1..], p)
      case None => None
      case Some(k) => Some(k + 1)
  }

  /** The first element satisfying `p` (`findOne`). */
  function FindFirst<T>(s: seq<T>, p: T -> bool): (r: Option<T>)
    ensures r.None? <==> forall i :: 0 <= i < |s| ==> !p(s[i])
    ensures r.Some? ==> exists i :: 0 <= i < |s| && s[i] == r.value && p(s[i])
    ensures r.Some? ==> p(r.value)
  {
    match FirstIndex(s, p)
    case None => None
    case Some(i) => Some(s[i])
  }

  /** `s` without its element at index `i`, the rest in order. */
  function RemoveAt<T>(s: seq<T>, i: nat): (r: seq<T>)
    requires i < |s|
    ensures |r| == |s| - 1
    ensures forall k :: 0 <= k < i ==> r[k] == s[k]
    ensures forall k :: i < k < |s| ==> r[k - 1] == s[k]
  {
    s[..i] + s[i + 1..]
  }

  /** Number of elements satisfying `p`. */
  function Count<T>(s: seq<T>, p: T -> bool): nat
    decreases |s|
  {
    if |s| == 0 then 0 else (if p(s[0]) then 1 else 0) + Count(s[1..], p)
  }

  /** The elements satisfying `p`, in their original order (`find(filter)` before sorting). */
  function Filter<T>(s: seq<T>, p: T -> bool): (r: seq<T>)
    ensures |r| <= |s|
    ensures forall i :: 0 <= i < |r| ==> p(r[i])
    ensures multiset(r) <= multiset(s)
    ensures forall x :: x in s && p(x) ==> x in r
    ensures |r| == Count(s, p)
    decreases |s|
  {
    if |s| == 0 then []
    else
      var rest := Filter(s[1..], p);
      assert s == [s[0]] + s[1..];
      if p(s[0]) then [s[0]] + rest else rest
  }

  lemma {:induction false} CountAppend<T>(s: seq<T>, x: T, p: T -> bool)
    ensures Count(s + [x], p) == Count(s, p) + (if p(x) then 1 else 0)
    decreases |s|
  {
    if |s| == 0 {
      assert s + [x] == [x];
    } else {
      assert (s + [x])[1..] == s[1..] + [x];
      CountAppend(s[1..], x, p);
    }
  }

  /** Replacing one element by one that `p` judges the same leaves the count alone. */
  lemma {:induction false} CountUpdate<T>(s: seq<T>, i: nat, y: T, p: T -> bool)
    requires i < |s|
    requires p(y) == p(s[i])
    ensures Count(s[i := y], p) == Count(s, p)
    decreases |s|
  {
    if i > 0 {
      assert s[i := y][1..] == s[1..][i - 1 := y];
      CountUpdate(s[1..], i - 1, y, p);
    }
  }

  function Sum(xs: seq<int>): int
    decreases |xs|
  {
    if |xs| == 0 then 0 else xs[0] + Sum(xs[1..])
  }

  function Min(xs: seq<int>): (m: int)
    requires |xs| > 0
    ensures forall i :: 0 <= i < |xs| ==> m <= xs[i]
    ensures exists i :: 0 <= i < |xs| && m == xs[i]
    decreases |xs|
  {
    if |xs| == 1 then xs[0]
    else
      var m := Min(xs[1..]);
      assert forall i :: 1 <= i < |xs| ==> xs[i] == xs[1..][i - 1];
      if xs[0] <= m then xs[0] else m
  }

  function Max(xs: seq<int>): (m: int)
    requires |xs| > 0
    ensures forall i :: 0 <= i < |xs| ==> xs[i] <= m
    ensures exists i :: 0 <= i < |xs| && m == xs[i]
    decreases |xs|
  {
    if |xs| == 1 then xs[0]
    else
      var m := Max(xs[1..]);
      assert forall i :: 1 <= i < |xs| ==> xs[i] == xs[1..][i - 1];
      if xs[0] >= m then xs[0] else m
  }

  /** A sum of `|xs|` terms each between `lo` and `hi` lies between `|xs|*lo` and `|xs|*hi`. */
  lemma {:induction false} SumBounds(xs: seq<int>, lo: int, hi: int)
    requires forall i :: 0 <= i < |xs| ==> lo <= xs[i] <= hi
    ensures |xs| * lo <= Sum(xs) <= |xs| * hi
    decreases |xs|
  {
    if |xs| > 0 {
      SumBounds(xs[1..], lo, hi);
      assert |xs| * lo == lo + (|xs| - 1) * lo;
      assert |xs| * hi == hi + (|xs| - 1) * hi;
    }
  }

  /** `n` copies of `a` added up: `n * a` written so that the solver treats it
      as a plain function symbol rather than a nonlinear product. */
  function Times(n: nat, a: real): real
    decreases n
  {
    if n == 0 then 0.0 else a + Times(n - 1, a)
  }

  lemma {:induction false} TimesIsProduct(n: nat, a: real)
    ensures Times(n, a) == (n as real) * a
    decreases n
  {
    if n > 0 {
      TimesIsProduct(n - 1, a);
      assert (n as real) * a == a + ((n - 1) as real) * a;
    }
  }

  /** The `$avg` accumulator: the arithmetic mean, null for no numbers. */
  function Mean(xs: seq<int>): (r: Option<real>)
    ensures r.None? <==> |xs| == 0
    ensures r.Some? ==> Times(|xs|, r.value) == Sum(xs) as real
    ensures r.Some? ==> Min(xs) as real <= r.value <= Max(xs) as real
  {
    if |xs| == 0 then None
    else
      MeanFacts(xs);
      Some(Sum(xs) as real / |xs| as real)
  }

  lemma MeanFacts(xs: seq<int>)
    requires |xs| > 0
    ensures Times(|xs|, Sum(xs) as real / |xs| as real) == Sum(xs) as real
    ensures Min(xs) as real <= Sum(xs) as real / |xs| as real <= Max(xs) as real
  {
    SumBounds(xs, Min(xs), Max(xs));
    QuotientFacts(Sum(xs), |xs|, Min(xs), Max(xs));
  }

  /** The quotient `s/n` undoes multiplication by `n` and, when `s` lies
      between `n*lo` and `n*hi`, lies between `lo` and `hi`. */
  lemma QuotientFacts(s: int, n: nat, lo: int, hi: int)
    requires n > 0
    ensures Times(n, s as real / n as real) == s as real
    ensures n * lo <= s <= n * hi ==> lo as real <= s as real / n as real <= hi as real
  {
    TimesIsProduct(n, s as real / n as real);
    QuotientBounds(s, n, lo, hi);
  }

  /** Dividing `n*lo <= s <= n*hi` by `n` leaves `s/n` between `lo` and `hi`. */
  lemma QuotientBounds(s: int, n: nat, lo: int, hi: int)
    requires n > 0
    ensures n * lo <= s <= n * hi ==> lo as real <= s as real / n as real <= hi as real
  {
    assert (n * lo) as real == (n as real) * (lo as real);
    assert (n * hi) as real == (n as real) * (hi as real);
  }

  /** Elements are pairwise different. */
  predicate Distinct<T(==)>(s: seq<T>) {
    forall i, j :: 0 <= i < j < |s| ==> s[i] != s[j]
  }

  /** Distinct elements that all occur in `ys` are no more than `ys` is long. */
  lemma {:induction false} DistinctWithin<T>(xs: seq<T>, ys: seq<T>)
    requires Distinct(xs)
    requires forall i :: 0 <= i < |xs| ==> xs[i] in ys
    ensures |xs| <= |ys|
    decreases |xs|
  {
    if |xs| > 0 {
      var j :| 0 <= j < |ys| && ys[j] == xs[0];
      var rest := RemoveAt(ys, j);
      forall i | 0 <= i < |xs| - 1
        ensures xs[1..][i] in rest
      {
        var m :| 0 <= m < |ys| && ys[m] == xs[i + 1];
        if m < j {
          assert rest[m] == xs[i + 1];
        } else {
          assert m != j;
          assert rest[m - 1] == xs[i + 1];
        }
      }
      DistinctWithin(xs[1..], rest);
    }
  }

  /** The distinct elements of `s` in order of first appearance (a `$group` key set). */
  function Dedup<T(==)>(s: seq<T>): (r: seq<T>)
    ensures Distinct(r)
    ensures forall i :: 0 <= i < |s| ==> s[i] in r
    ensures forall i :: 0 <= i < |r| ==> r[i] in s
    decreases |s|
  {
    if |s| == 0 then []
    else
      var rest := Dedup(s[..|s| - 1]);
      var last := s[|s| - 1];
      assert s == s[..|s| - 1] + [last];
      if last in rest then rest else rest + [last]
  }
}
