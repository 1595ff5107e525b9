/**
 * Price points of one day and the orders in which a sort by price may
 * present them. A sort by price is not required to be stable, so every
 * permutation whose prices are nondecreasing is an admissible order.
 */
module PricePoints {

  /** Minutes since the epoch of a naive UTC timestamp. */
  type Minute = int

  /** One row of the price frame: its index timestamp and its price in EUR/MWh. */
  datatype PricePoint = PricePoint(dt: Minute, price: real)

  function Project<T, U>(s: seq<T>, f: T -> U): seq<U>
  {
    seq(|s|, i requires 0 <= i < |s| => f(s[i]))
  }

  function PriceOf(p: PricePoint): real { p.price }
  function StampOf(p: PricePoint): Minute { p.dt }

  /** The price column. */
  function Prices(s: seq<PricePoint>): (r: seq<real>)
    ensures |r| == |s| && forall i :: 0 <= i < |s| ==> r[i] == s[i].price
  {
    var r := Project(s, PriceOf);
    assert forall i :: 0 <= i < |s| ==> r[i] == PriceOf(s[i]);
    r
  }
  /** The index column. */
  function Stamps(s: seq<PricePoint>): (r: seq<Minute>)
    ensures |r| == |s| && forall i :: 0 <= i < |s| ==> r[i] == s[i].dt
  {
    var r := Project(s, StampOf);
    assert forall i :: 0 <= i < |s| ==> r[i] == StampOf(s[i]);
    r
  }

  /** Removing the element at j removes exactly one copy of it. */
  lemma RemoveAt<T>(t: seq<T>, j: int)
    requires 0 <= j < |t|
    ensures t == t[..j] + [t[j]] + t[j + 1..]
    ensures multiset(t[..j] + t[j + 1..]) == multiset(t) - multiset{t[j]}
  {
    assert t == t[..j] + [t[j]] + t[j + 1..];
    assert multiset(t) == multiset(t[..j]) + multiset{t[j]} + multiset(t[j + 1..]);
  }

  lemma DropFirst<T>(s: seq<T>)
    requires |s| > 0
    ensures multiset(s[1..]) == multiset(s) - multiset{s[0]}
  {
    assert s == [s[0]] + s[1..];
  }

  /** A multiset-membership gives a position. */
  lemma FindIn<T>(t: seq<T>, x: T) returns (j: int)
    requires x in multiset(t)
    ensures 0 <= j < |t| && t[j] == x
  {
    assert x in t;
    j :| 0 <= j < |t| && t[j] == x;
  }

  lemma ProjectAppend<T, U>(a: seq<T>, b: seq<T>, f: T -> U)
    ensures Project(a + b, f) == Project(a, f) + Project(b, f)
  {
  }

  /** Applying a function elementwise keeps two permutations of each other permutations. */
  lemma {:induction false} ProjectPermutation<T, U>(s: seq<T>, t: seq<T>, f: T -> U)
    requires multiset(s) == multiset(t)
    ensures multiset(Project(s, f)) == multiset(Project(t, f))
    decreases |s|
  {
    if s == [] {
      assert |multiset(t)| == 0;
    } else {
      var x := s[0];
      var j := FindIn(t, x);
      var rest := t[..j] + t[j + 1..];
      RemoveAt(t, j);
      DropFirst(s);
      ProjectPermutation(s[1..], rest, f);
      ProjectAppend(t[..j] + [x], t[j + 1..], f);
      ProjectAppend(t[..j], [x], f);
      ProjectAppend(t[..j], t[j + 1..], f);
      ProjectAppend([x], s[1..], f);
      assert s == [x] + s[1..];
    }
  }

  function Sum(xs: seq<real>): real
  {
    if xs == [] then 0.0 else xs[0] + Sum(xs[1..])
  }

  function Mean(xs: seq<real>): real
    requires |xs| > 0
  {
    Sum(xs) / |xs| as real
  }

  lemma {:induction false} SumAppend(a: seq<real>, b: seq<real>)
    ensures Sum(a + b) == Sum(a) + Sum(b)
    decreases |a|
  {
    if a == [] {
      assert a + b == b;
    } else {
      assert (a + b)[1..] == a[1..] + b;
      SumAppend(a[1..], b);
    }
  }

  /** The sum of a sequence does not depend on the order of its elements. */
  lemma {:induction false} SumPermutation(a: seq<real>, b: seq<real>)
    requires multiset(a) == multiset(b)
    ensures Sum(a) == Sum(b)
    decreases |a|
  {
    if a == [] {
      assert |multiset(b)| == 0;
    } else {
      var x := a[0];
      var j := FindIn(b, x);
      var rest := b[..j] + b[j + 1..];
      RemoveAt(b, j);
      DropFirst(a);
      assert b == b[..j] + ([x] + b[j + 1..]);
      SumPermutation(a[1..], rest);
      SumAppend(b[..j], [x] + b[j + 1..]);
      SumAppend(b[..j], b[j + 1..]);
    }
  }

  /** Each element lies in [lo, hi], so the sum lies in [n * lo, n * hi]. */
  lemma {:induction false} SumBounds(xs: seq<real>, lo: real, hi: real)
    requires forall i :: 0 <= i < |xs| ==> lo <= xs[i] <= hi
    ensures |xs| as real * lo <= Sum(xs) <= |xs| as real * hi
    decreases |xs|
  {
    if xs != [] {
      SumBounds(xs[1..], lo, hi);
    }
  }

  /** A nonempty ascending sequence has its mean between its first and last element. */
  lemma MeanBounds(xs: seq<real>)
    requires |xs| > 0 && Ascending(xs)
    ensures xs[0] <= Mean(xs) <= xs[|xs| - 1]
  {
    var n := |xs| as real;
    SumBounds(xs, xs[0], xs[|xs| - 1]);
    assert n * xs[0] <= Sum(xs) <= n * xs[|xs| - 1];
    assert Sum(xs) / n >= (n * xs[0]) / n;
    assert Sum(xs) / n <= (n * xs[|xs| - 1]) / n;
  }

  predicate Ascending(xs: seq<real>)
  {
    forall i, j :: 0 <= i < j < |xs| ==> xs[i] <= xs[j]
  }

  lemma AscendingHeadIsLeast(a: seq<real>, x: real)
    requires Ascending(a) && x in multiset(a)
    ensures a[0] <= x
  {
    var j := FindIn(a, x);
    assert j == 0 || a[0] <= a[j];
  }

  lemma AscendingTail(a: seq<real>)
    requires |a| > 0 && Ascending(a)
    ensures Ascending(a[1..])
  {
  }

  /** Two ascending arrangements of the same values are the same sequence. */
  lemma {:induction false} AscendingUnique(a: seq<real>, b: seq<real>)
    requires Ascending(a) && Ascending(b)
    requires multiset(a) == multiset(b)
    ensures a == b
    decreases |a|
  {
    if a == [] {
      assert |multiset(b)| == 0;
    } else {
      assert |b| > 0 by { assert |multiset(b)| == |a|; }
      assert a[0] == b[0] by {
        assert b[0] in multiset(a) by { assert b[0] in multiset(b); }
        assert a[0] in multiset(b) by { assert a[0] in multiset(a); }
        AscendingHeadIsLeast(a, b[0]);
        AscendingHeadIsLeast(b, a[0]);
      }
      assert a[1..] == b[1..] by {
        DropFirst(a);
        DropFirst(b);
        AscendingTail(a);
        AscendingTail(b);
        AscendingUnique(a[1..], b[1..]);
      }
      assert a == [a[0]] + a[1..];
      assert b == [b[0]] + b[1..];
    }
  }

  predicate PriceSorted(s: seq<PricePoint>)
  {
    forall i, j :: 0 <= i < j < |s| ==> s[i].price <= s[j].price
  }

  /** order is one result of sorting s by price: a permutation with nondecreasing prices. */
  predicate IsPriceOrder(order: seq<PricePoint>, s: seq<PricePoint>)
  {
    |order| == |s| && multiset(order) == multiset(s) && PriceSorted(order)
  }

  /** Insert p before the first point that is not cheaper than it. */
  function InsertByPrice(p: PricePoint, s: seq<PricePoint>): seq<PricePoint>
  {
    if s == [] then [p]
    else if p.price <= s[0].price then [p] + s
    else [s[0]] + InsertByPrice(p, s[1..])
  }

  /** A price-sorted sequence headed by a point no dearer than the rest of it. */
  lemma ConsSorted(x: PricePoint, rest: seq<PricePoint>)
    requires PriceSorted(rest)
    requires forall k :: 0 <= k < |rest| ==> x.price <= rest[k].price
    ensures PriceSorted([x] + rest)
  {
    var r := [x] + rest;
    forall i, j | 0 <= i < j < |r| ensures r[i].price <= r[j].price {
      assert r[j] == rest[j - 1];
      if i > 0 {
        assert r[i] == rest[i - 1];
      }
    }
  }

  /** Insertion keeps every price at or above a common lower bound. */
  lemma {:induction false} InsertKeepsLowerBound(p: PricePoint, s: seq<PricePoint>, lo: real)
    requires lo <= p.price
    requires forall k :: 0 <= k < |s| ==> lo <= s[k].price
    ensures forall k :: 0 <= k < |InsertByPrice(p, s)| ==> lo <= InsertByPrice(p, s)[k].price
    decreases |s|
  {
    if s != [] && p.price > s[0].price {
      InsertKeepsLowerBound(p, s[1..], lo);
    }
  }

  /** Insertion adds exactly p. */
  lemma {:induction false} InsertByPriceAdds(p: PricePoint, s: seq<PricePoint>)
    ensures multiset(InsertByPrice(p, s)) == multiset(s) + multiset{p}
    decreases |s|
  {
    if s != [] {
      assert s == [s[0]] + s[1..];
      if p.price > s[0].price {
        InsertByPriceAdds(p, s[1..]);
      }
    }
  }

  /** Insertion adds exactly p and keeps a price-sorted sequence price-sorted. */
  lemma {:induction false} InsertByPriceSorts(p: PricePoint, s: seq<PricePoint>)
    requires PriceSorted(s)
    ensures multiset(InsertByPrice(p, s)) == multiset(s) + multiset{p}
    ensures PriceSorted(InsertByPrice(p, s))
    decreases |s|
  {
    InsertByPriceAdds(p, s);
    if s == [] {
    } else if p.price <= s[0].price {
      ConsSorted(p, s);
    } else {
      InsertByPriceSorts(p, s[1..]);
      InsertKeepsLowerBound(p, s[1..], s[0].price);
      ConsSorted(s[0], InsertByPrice(p, s[1..]));
    }
  }

  /** An insertion sort by price, giving one admissible order. */
  function SortByPrice(s: seq<PricePoint>): (r: seq<PricePoint>)
    ensures IsPriceOrder(r, s)
  {
    if s == [] then []
    else
      var sorted := SortByPrice(s[1..]);
      InsertByPriceSorts(s[0], sorted);
      assert s == [s[0]] + s[1..];
      assert |InsertByPrice(s[0], sorted)| == |multiset(InsertByPrice(s[0], sorted))|;
      InsertByPrice(s[0], sorted)
  }

  /** Every admissible order lists the same prices: only equal-priced points may trade places. */
  lemma PriceOrdersAgree(o1: seq<PricePoint>, o2: seq<PricePoint>, s: seq<PricePoint>)
    requires IsPriceOrder(o1, s) && IsPriceOrder(o2, s)
    ensures Prices(o1) == Prices(o2)
  {
    ProjectPermutation(o1, o2, PriceOf);
    PriceSortedAscending(o1);
    PriceSortedAscending(o2);
    AscendingUnique(Prices(o1), Prices(o2));
  }

  lemma PriceSortedAscending(s: seq<PricePoint>)
    requires PriceSorted(s)
    ensures Ascending(Prices(s))
  {
    forall i, j | 0 <= i < j < |s| ensures Prices(s)[i] <= Prices(s)[j] {
      assert Prices(s)[i] == PriceOf(s[i]) && Prices(s)[j] == PriceOf(s[j]);
    }
  }

  /** An admissible order keeps the multiset of timestamps and of prices. */
  lemma PriceOrderColumns(order: seq<PricePoint>, s: seq<PricePoint>)
    requires IsPriceOrder(order, s)
    ensures multiset(Stamps(order)) == multiset(Stamps(s))
    ensures multiset(Prices(order)) == multiset(Prices(s))
    ensures Ascending(Prices(order))
  {
    ProjectPermutation(order, s, StampOf);
    ProjectPermutation(order, s, PriceOf);
    PriceSortedAscending(order);
  }
}
