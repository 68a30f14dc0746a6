/**
 * Shared helpers: the `product` extension of Utils.kt, the option type standing for
 * Kotlin's nullable results and thrown exceptions, sums and maxima over lists,
 * sorting, and Kotlin's truncating integer division.
 */
module Utils {

  /** A result that may be absent: Kotlin's `null`, or a computation that throws. */
  datatype Option<+T> = None | Some(value: T)

  /** Sum of a list, accumulated from the left as `sum()` and `sumOf` do. */
  function Sum(s: seq<int>): int
  {
    if s == [] then 0 else Sum(s[..|s| - 1]) + s[|s| - 1]
  }

  lemma {:induction false} SumConcat(a: seq<int>, b: seq<int>)
    ensures Sum(a + b) == Sum(a) + Sum(b)
  {
    if b == [] {
      assert a + b == a;
    } else {
      assert (a + b)[..|a + b| - 1] == a + b[..|b| - 1];
      SumConcat(a, b[..|b| - 1]);
    }
  }

  lemma SumNonNegative(s: seq<int>)
    requires forall i :: 0 <= i < |s| ==> s[i] >= 0
    ensures Sum(s) >= 0
  {
    if s != [] {
      SumNonNegative(s[..|s| - 1]);
    }
  }

  /**
   * `sumOf` over per-item results that may fail: the first failure (an exception in
   * the source) fails the whole sum.
   */
  function SumOptions(scores: seq<Option<int>>): (r: Option<int>)
    ensures r.Some? <==> forall i :: 0 <= i < |scores| ==> scores[i].Some?
  {
    if scores == [] then Some(0)
    else match (SumOptions(scores[..|scores| - 1]), scores[|scores| - 1])
      case (Some(a), Some(b)) => Some(a + b)
      case _ => None
  }

  /** `map` with a conversion that may throw: the results, when every element converts. */
  function MapAll<A, B>(convert: A -> Option<B>, xs: seq<A>): (r: Option<seq<B>>)
    ensures r.Some? <==> forall i :: 0 <= i < |xs| ==> convert(xs[i]).Some?
    ensures r.Some? ==> |r.value| == |xs|
    ensures r.Some? ==> forall i :: 0 <= i < |xs| ==> convert(xs[i]) == Some(r.value[i])
  {
    if xs == [] then Some([])
    else match (MapAll(convert, xs[..|xs| - 1]), convert(xs[|xs| - 1]))
      case (Some(ys), Some(y)) => Some(ys + [y])
      case _ => None
  }

  /** A total of items each lying in `lo..hi` lies between `n * lo` and `n * hi`. */
  lemma {:induction false} SumOptionsBounds(scores: seq<Option<int>>, lo: int, hi: int)
    requires forall i :: 0 <= i < |scores| ==> scores[i].Some? ==> lo <= scores[i].value <= hi
    requires SumOptions(scores).Some?
    ensures |scores| * lo <= SumOptions(scores).value <= |scores| * hi
  {
    if scores != [] {
      var n := |scores| - 1;
      SumOptionsBounds(scores[..n], lo, hi);
      assert (n + 1) * lo == n * lo + lo && (n + 1) * hi == n * hi + hi;
    }
  }

  /** Largest element of a non-empty list (Kotlin's `max`/`maxOf`, which throw on an empty list). */
  function Max(s: seq<int>): (r: int)
    requires |s| > 0
    ensures forall i :: 0 <= i < |s| ==> s[i] <= r
    ensures exists i :: 0 <= i < |s| && s[i] == r
  {
    if |s| == 1 then s[0]
    else
      var m := Max(s[..|s| - 1]);
      assert forall i :: 0 <= i < |s| - 1 ==> s[..|s| - 1][i] == s[i];
      if m >= s[|s| - 1] then m else s[|s| - 1]
  }

  /** An element no smaller than any other is the maximum. */
  lemma MaxAt(s: seq<int>, k: int)
    requires 0 <= k < |s| && forall j :: 0 <= j < |s| ==> s[j] <= s[k]
    ensures Max(s) == s[k]
  {
  }

  /** Kotlin's `max(a, b)`. */
  function Max2(a: int, b: int): (r: int)
    ensures r >= a && r >= b && (r == a || r == b)
  {
    if a >= b then a else b
  }

  /** Appending to a list raises its maximum to the new element at most. */
  lemma MaxAppend(s: seq<int>, x: int)
    requires |s| > 0
    ensures Max(s + [x]) == Max2(Max(s), x)
  {
    assert (s + [x])[..|s|] == s;
  }

  /** A non-empty list is its front followed by its last element. */
  lemma SplitLast<T>(s: seq<T>)
    requires |s| > 0
    ensures s == s[..|s| - 1] + [s[|s| - 1]]
  {
  }

  /** Multiplying by a non-negative factor keeps the order. */
  lemma MulMonotone(a: int, b: int, c: int)
    requires a <= b && c >= 0
    ensures a * c <= b * c
  {
  }

  /** Smallest element of a non-empty list (Kotlin's `min`, which throws on an empty list). */
  function Min(s: seq<int>): (r: int)
    requires |s| > 0
    ensures forall i :: 0 <= i < |s| ==> r <= s[i]
    ensures exists i :: 0 <= i < |s| && s[i] == r
  {
    if |s| == 1 then s[0]
    else
      var m := Min(s[..|s| - 1]);
      assert forall i :: 0 <= i < |s| - 1 ==> s[..|s| - 1][i] == s[i];
      if m <= s[|s| - 1] then m else s[|s| - 1]
  }

  /**
   * Utils.kt `product`: `reduce(Int::times)`, which throws on an empty list,
   * hence the precondition. Machine-width wrap-around is not modelled.
   */
  function Product(s: seq<int>): int
    requires |s| > 0
  {
    if |s| == 1 then s[0] else Product(s[..|s| - 1]) * s[|s| - 1]
  }

  lemma ProductPair(a: int, b: int)
    ensures Product([a, b]) == a * b
  {
    assert [a, b][..1] == [a];
  }

  lemma ProductTriple(a: int, b: int, c: int)
    ensures Product([a, b, c]) == a * b * c
  {
    assert [a, b, c][..2] == [a, b];
    ProductPair(a, b);
  }

  /** The product of a concatenation is the product of the two parts, so the left fold of
      `reduce` multiplies the same numbers in any grouping. */
  lemma {:induction false} ProductConcat(a: seq<int>, b: seq<int>)
    requires |a| > 0 && |b| > 0
    ensures Product(a + b) == Product(a) * Product(b)
    decreases |b|
  {
    var n := |a + b| - 1;
    if |b| == 1 {
      assert (a + b)[..n] == a;
    } else {
      var front := b[..|b| - 1];
      ProductConcat(a, front);
      assert (a + b)[..n] == a + front;
      var x, y, z := Product(a), Product(front), b[|b| - 1];
      assert (x * y) * z == x * (y * z);
    }
  }

  /** The product is zero exactly when some factor is zero. */
  lemma {:induction false} ProductZero(s: seq<int>)
    requires |s| > 0
    ensures Product(s) == 0 <==> 0 in s
  {
    if |s| > 1 {
      var front := s[..|s| - 1];
      ProductZero(front);
      assert s == front + [s[|s| - 1]];
      var x, z := Product(front), s[|s| - 1];
      assert x * z == 0 <==> x == 0 || z == 0;
    }
  }

  /** Kotlin's `reversed()`. */
  function Reverse<T>(s: seq<T>): (r: seq<T>)
    ensures |r| == |s|
    ensures forall i :: 0 <= i < |s| ==> r[i] == s[|s| - 1 - i]
  {
    if s == [] then [] else Reverse(s[1..]) + [s[0]]
  }

  /** Reversing twice gives the sequence back. */
  lemma ReverseReverse<T>(s: seq<T>)
    ensures Reverse(Reverse(s)) == s
  {
    assert Reverse(Reverse(s)) == s by {
      forall i | 0 <= i < |s| ensures Reverse(Reverse(s))[i] == s[i] { }
    }
  }

  /** Non-decreasing order. */
  ghost predicate Ascending(s: seq<int>)
  {
    forall i, j :: 0 <= i < j < |s| ==> s[i] <= s[j]
  }

  /** Non-increasing order. */
  ghost predicate Descending(s: seq<int>)
  {
    forall i, j :: 0 <= i < j < |s| ==> s[i] >= s[j]
  }

  function InsertAscending(x: int, s: seq<int>): (r: seq<int>)
    requires Ascending(s)
    ensures Ascending(r) && multiset(r) == multiset(s) + multiset{x}
  {
    if s == [] then [x]
    else if x <= s[0] then [x] + s
    else
      var t := InsertAscending(x, s[1..]);
      assert s == [s[0]] + s[1..];
      BoundedBelow(s[0], x, s[1..], t);
      [s[0]] + t
  }

  /** A permutation of `s + [x]`, with `s` and `x` at least `h`, is at least `h` too. */
  lemma BoundedBelow(h: int, x: int, s: seq<int>, t: seq<int>)
    requires h <= x && (forall k :: 0 <= k < |s| ==> h <= s[k])
    requires Ascending(t) && multiset(t) == multiset(s) + multiset{x}
    ensures Ascending([h] + t)
  {
    forall k | 0 <= k < |t| ensures h <= t[k] {
      assert t[k] in multiset(t);
      if t[k] != x {
        assert t[k] in multiset(s);
      }
    }
  }

  /** Kotlin's `sorted()` on a list of integers. */
  function SortAscending(s: seq<int>): (r: seq<int>)
    ensures Ascending(r) && multiset(r) == multiset(s)
  {
    if s == [] then []
    else
      assert s == [s[0]] + s[1..];
      InsertAscending(s[0], SortAscending(s[1..]))
  }

  function InsertDescending(x: int, s: seq<int>): (r: seq<int>)
    requires Descending(s)
    ensures Descending(r) && multiset(r) == multiset(s) + multiset{x}
  {
    if s == [] then [x]
    else if x >= s[0] then [x] + s
    else
      var t := InsertDescending(x, s[1..]);
      assert s == [s[0]] + s[1..];
      BoundedAbove(s[0], x, s[1..], t);
      [s[0]] + t
  }

  /** A permutation of `s + [x]`, with `s` and `x` at most `h`, is at most `h` too. */
  lemma BoundedAbove(h: int, x: int, s: seq<int>, t: seq<int>)
    requires h >= x && (forall k :: 0 <= k < |s| ==> h >= s[k])
    requires Descending(t) && multiset(t) == multiset(s) + multiset{x}
    ensures Descending([h] + t)
  {
    forall k | 0 <= k < |t| ensures h >= t[k] {
      assert t[k] in multiset(t);
      if t[k] != x {
        assert t[k] in multiset(s);
      }
    }
  }

  /** Kotlin's `sortedDescending()` on a list of integers. */
  function SortDescending(s: seq<int>): (r: seq<int>)
    ensures Descending(r) && multiset(r) == multiset(s)
  {
    if s == [] then []
    else
      assert s == [s[0]] + s[1..];
      InsertDescending(s[0], SortDescending(s[1..]))
  }

  /** The head of a list sorted in descending order is the list's maximum. */
  lemma DescendingHeadIsMax(s: seq<int>, sorted: seq<int>)
    requires |s| > 0 && Descending(sorted) && multiset(sorted) == multiset(s)
    ensures |sorted| > 0 && sorted[0] == Max(s)
  {
    assert |sorted| == |multiset(sorted)| == |multiset(s)| == |s|;
    var i :| 0 <= i < |s| && s[i] == Max(s);
    assert s[i] in multiset(sorted);
    var j :| 0 <= j < |sorted| && sorted[j] == s[i];
    assert sorted[0] in multiset(s);
    var k :| 0 <= k < |s| && s[k] == sorted[0];
    assert sorted[0] >= sorted[j];
  }

  function Abs(x: int): int
  {
    if x < 0 then -x else x
  }

  /**
   * Kotlin's `/` on Int and Long: the quotient is truncated toward zero
   * (Dafny's `/` on int is Euclidean).
   */
  function TDiv(a: int, b: int): (q: int)
    requires b != 0
    ensures Abs(a - b * q) < Abs(b)
    ensures a >= 0 ==> a - b * q >= 0
    ensures a < 0 ==> a - b * q <= 0
  {
    if a >= 0 then (if b > 0 then a / b else -(a / -b))
    else (if b > 0 then -((-a) / b) else (-a) / (-b))
  }

  /** Kotlin's `%` on Int and Long: the remainder takes the sign of the dividend. */
  function TRem(a: int, b: int): (r: int)
    requires b != 0
    ensures a == b * TDiv(a, b) + r
    ensures Abs(r) < Abs(b)
    ensures a >= 0 ==> r >= 0
    ensures a < 0 ==> r <= 0
  {
    a - b * TDiv(a, b)
  }

  /** On non-negative dividends and positive divisors Kotlin's `%` agrees with Dafny's. */
  lemma TRemNonNegative(a: int, b: int)
    requires a >= 0 && b > 0
    ensures TRem(a, b) == a % b && TDiv(a, b) == a / b
  {
  }
}
