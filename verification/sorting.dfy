/** Descending sort as the document store's `.sort({field: -1})` and `$sort` stages
    perform it. The store fixes no order among equal keys; this model keeps equal
    keys in their input order, which is a model choice, and only non-increasing
    order plus "same elements" is claimed. */
module Sorting {
  import opened Seqs

  /** A sort key: a numeric field value, or a null/missing one, which ranks
      below every number. */
  datatype Key = Missing | Val(v: real)

  /** `a` may come before `b` in descending order. */
  predicate AtLeast(a: Key, b: Key) {
    match b
    case Missing => true
    case Val(y) => a.Val? && a.v >= y
  }

  lemma AtLeastTotal(a: Key, b: Key)
    ensures AtLeast(a, b) || AtLeast(b, a)
  {
  }

  predicate SortedDesc<T>(s: seq<T>, key: T -> Key) {
    forall i, j :: 0 <= i < j < |s| ==> AtLeast(key(s[i]), key(s[j]))
  }

  /** Inserts `x` into a descending sequence, after every element it does not outrank. */
  function Insert<T(==)>(x: T, s: seq<T>, key: T -> Key): (r: seq<T>)
    requires SortedDesc(s, key)
    ensures SortedDesc(r, key)
    ensures multiset(r) == multiset(s) + multiset{x}
    ensures Distinct(s) && x !in s ==> Distinct(r)
    decreases |s|
  {
    if |s| == 0 then [x]
    else if AtLeast(key(x), key(s[0])) then [x] + s
    else
      var rest := Insert(x, s[1..], key);
      assert s == [s[0]] + s[1..];
      HeadDominates(x, s, rest, key);
      HeadNotInRest(x, s, rest);
      [s[0]] + rest
  }

  /** The head of a descending sequence outranks everything inserted after it. */
  lemma HeadDominates<T>(x: T, s: seq<T>, rest: seq<T>, key: T -> Key)
    requires |s| > 0 && SortedDesc(s, key)
    requires !AtLeast(key(x), key(s[0]))
    requires multiset(rest) == multiset(s[1..]) + multiset{x}
    ensures forall k :: 0 <= k < |rest| ==> AtLeast(key(s[0]), key(rest[k]))
  {
    forall k | 0 <= k < |rest|
      ensures AtLeast(key(s[0]), key(rest[k]))
    {
      assert rest[k] in multiset(rest);
      if rest[k] != x {
        assert rest[k] in multiset(s[1..]);
        var m :| 0 <= m < |s[1..]| && s[1..][m] == rest[k];
        assert s[m + 1] == rest[k];
      } else {
        AtLeastTotal(key(x), key(s[0]));
      }
    }
  }

  lemma HeadNotInRest<T>(x: T, s: seq<T>, rest: seq<T>)
    requires |s| > 0
    requires multiset(rest) == multiset(s[1..]) + multiset{x}
    ensures Distinct(s) && x !in s ==> s[0] !in rest
  {
    assert s[0] in rest ==> s[0] in multiset(rest);
    assert s[0] !in s[1..] ==> s[0] !in multiset(s[1..]);
  }

  /** Stable insertion sort into non-increasing key order. */
  function SortDesc<T(==)>(s: seq<T>, key: T -> Key): (r: seq<T>)
    ensures SortedDesc(r, key)
    ensures multiset(r) == multiset(s)
    ensures |r| == |s|
    ensures Distinct(s) ==> Distinct(r)
    decreases |s|
  {
    if |s| == 0 then []
    else
      assert s == [s[0]] + s[1..];
      var rest := SortDesc(s[1..], key);
      assert s[0] in rest ==> s[0] in multiset(s[1..]) by {
        assert s[0] in rest ==> s[0] in multiset(rest);
      }
      Insert(s[0], rest, key)
  }

  /** Sorting keeps exactly the elements it was given. */
  lemma SortDescSameElements<T>(s: seq<T>, key: T -> Key, x: T)
    ensures x in SortDesc(s, key) <==> x in s
  {
    var r := SortDesc(s, key);
    assert x in r <==> x in multiset(r);
    assert x in s <==> x in multiset(s);
  }

  /** The first `n` elements of `s` (all of them when there are fewer): a `$limit` stage. */
  function Take<T>(s: seq<T>, n: nat): (r: seq<T>)
    ensures |r| <= n && |r| <= |s|
    ensures |r| == n || |r| == |s|
    ensures forall i :: 0 <= i < |r| ==> r[i] == s[i]
  {
    s[..if |s| < n then |s| else n]
  }

  /** Cutting a sorted arrangement of `s` after `n` elements keeps, for every
      element of `s`, either that element or `n` elements that rank at least
      as high. */
  lemma {:induction false} TakeSortedKeepsTop<T>(s: seq<T>, sorted: seq<T>, n: nat, key: T -> Key, x: T)
    requires SortedDesc(sorted, key) && multiset(sorted) == multiset(s)
    requires x in s
    ensures var top := Take(sorted, n);
      x in top || (|top| == n && forall i :: 0 <= i < |top| ==> AtLeast(key(top[i]), key(x)))
  {
    var top := Take(sorted, n);
    assert x in multiset(s);
    assert x in sorted;
    var m :| 0 <= m < |sorted| && sorted[m] == x;
    if m < |top| {
      assert top[m] == x;
    }
  }

  /** Every element of a sorted arrangement's prefix is an element of the input. */
  lemma TakeSortedMembers<T>(s: seq<T>, sorted: seq<T>, n: nat)
    requires multiset(sorted) == multiset(s)
    ensures forall i :: 0 <= i < |Take(sorted, n)| ==> Take(sorted, n)[i] in s
  {
    forall i | 0 <= i < |Take(sorted, n)|
      ensures Take(sorted, n)[i] in s
    {
      assert sorted[i] in multiset(s);
    }
  }
}
