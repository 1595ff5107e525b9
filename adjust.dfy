/**
 * Price-based scaling of the day's heating need: the price level is the
 * mean of the cheapest prices of the day, and a piecewise reduction turns
 * it into a factor between 0.8 and 1.2.
 */
module PriceAdjust {
  import opened PricePoints

  /** How many of the cheapest prices make up the price level. */
  const CheapestCount: nat := 8
  /** Price level from which the full reduction applies (EUR/MWh). */
  const FullReductionLevel: real := 200.0
  /** The full reduction, 20% of need. */
  const FullReduction: real := 0.2
  /** At or below this level need is not reduced. */
  const NoReductionLevel: real := 100.0
  /** Below this level need is increased by 20%. */
  const IncreaseLevel: real := 5.0

  function Min(a: int, b: int): int { if a < b then a else b }

  /**
   * The min(8, n) smallest prices of a nonempty day, in ascending order:
   * what remains of the day's prices is never below the dearest of them.
   */
  function CheapestPrices(prices: seq<PricePoint>): (xs: seq<real>)
    requires |prices| > 0
    ensures |xs| == Min(CheapestCount, |prices|) && Ascending(xs)
    ensures multiset(xs) <= multiset(Prices(prices))
    ensures forall y :: y in multiset(Prices(prices)) - multiset(xs) ==> xs[|xs| - 1] <= y
  {
    var order := SortByPrice(prices);
    var ps := Prices(order);
    var k := Min(CheapestCount, |prices|);
    PriceOrderColumns(order, prices);
    SplitAscending(ps, k);
    ps[..k]
  }

  /** Cutting an ascending sequence after k elements: nothing after the cut is below the cut. */
  lemma SplitAscending(ps: seq<real>, k: int)
    requires Ascending(ps) && 0 < k <= |ps|
    ensures Ascending(ps[..k])
    ensures multiset(ps[..k]) <= multiset(ps)
    ensures multiset(ps) - multiset(ps[..k]) == multiset(ps[k..])
    ensures forall y :: y in multiset(ps) - multiset(ps[..k]) ==> ps[k - 1] <= y
  {
    assert ps == ps[..k] + ps[k..];
    assert multiset(ps) == multiset(ps[..k]) + multiset(ps[k..]);
    forall y | y in multiset(ps[k..]) ensures ps[k - 1] <= y {
      var j := FindIn(ps[k..], y);
      assert ps[k..][j] == ps[k + j];
    }
  }

  /** Mean of the cheapest prices of the day. */
  function PriceLevel(prices: seq<PricePoint>): (level: real)
    requires |prices| > 0
    ensures CheapestPrices(prices)[0] <= level <= CheapestPrices(prices)[|CheapestPrices(prices)| - 1]
  {
    MeanBounds(CheapestPrices(prices));
    Mean(CheapestPrices(prices))
  }

  /** The level does not depend on how a sort breaks ties: any admissible order gives it. */
  lemma PriceLevelAnyOrder(prices: seq<PricePoint>, order: seq<PricePoint>)
    requires |prices| > 0 && IsPriceOrder(order, prices)
    ensures PriceLevel(prices) == Mean(Prices(order)[..Min(CheapestCount, |prices|)])
  {
    PriceOrdersAgree(order, SortByPrice(prices), prices);
  }

  /** With at most eight prices the level is the plain mean of the day. */
  lemma PriceLevelSmallDay(prices: seq<PricePoint>)
    requires 0 < |prices| <= CheapestCount
    ensures PriceLevel(prices) == Sum(Prices(prices)) / |prices| as real
  {
    var order := SortByPrice(prices);
    PriceOrderColumns(order, prices);
    assert Prices(order)[..|prices|] == Prices(order);
    SumPermutation(Prices(order), Prices(prices));
  }

  /** The level lies between the cheapest price of the day and some price of the day. */
  lemma PriceLevelBounds(prices: seq<PricePoint>)
    requires |prices| > 0
    ensures forall i :: 0 <= i < |prices| ==> CheapestPrices(prices)[0] <= prices[i].price
    ensures exists i :: 0 <= i < |prices| && prices[i].price == CheapestPrices(prices)[0]
    ensures CheapestPrices(prices)[0] <= PriceLevel(prices)
    ensures exists i :: 0 <= i < |prices| && PriceLevel(prices) <= prices[i].price
  {
    var xs := CheapestPrices(prices);
    var all := multiset(Prices(prices));
    MeanBounds(xs);
    var top := xs[|xs| - 1];
    assert xs[0] in all && top in all by {
      assert xs[0] in multiset(xs) && top in multiset(xs);
    }
    var i := FindIn(Prices(prices), top);
    assert PriceLevel(prices) <= prices[i].price;
    var m := FindIn(Prices(prices), xs[0]);
    assert prices[m].price == xs[0];
    forall j | 0 <= j < |prices| ensures xs[0] <= prices[j].price {
      var y := prices[j].price;
      assert y in all by { assert Prices(prices)[j] == y; }
      if y in all - multiset(xs) {
        assert xs[0] <= top;
      } else {
        var k := FindIn(xs, y);
        assert k == 0 || xs[0] <= xs[k];
      }
    }
  }

  /** The share of need removed at a given price level (negative: need is raised). */
  function Reduction(level: real): (r: real)
    ensures -FullReduction <= r <= FullReduction
  {
    if level > FullReductionLevel then FullReduction
    else if level > NoReductionLevel then
      FullReduction * (level - NoReductionLevel) / (FullReductionLevel - NoReductionLevel)
    else if level < IncreaseLevel then -0.2
    else 0.0
  }

  /** Dearer days never get a smaller reduction. */
  lemma ReductionMonotone(l1: real, l2: real)
    requires l1 <= l2
    ensures Reduction(l1) <= Reduction(l2)
  {
  }

  /** Worked levels: 100 keeps need, 150 scales it by 0.9, 250 by 0.8, 2 by 1.2. */
  lemma ReductionExamples()
    ensures 1.0 - Reduction(100.0) == 1.0
    ensures 1.0 - Reduction(150.0) == 0.9
    ensures 1.0 - Reduction(250.0) == 0.8
    ensures 1.0 - Reduction(2.0) == 1.2
  {
  }

  lemma ScaleBounds(need: real, r: real)
    requires need >= 0.0 && -0.2 <= r <= 0.2
    ensures 0.8 * need <= need * (1.0 - r) <= 1.2 * need
  {
  }

  /**
   * Need scaled by the price level of the day. With no prices the level is
   * not a number, every comparison with it fails and need is left as it is.
   */
  function AdjustTempByPrice(need: real, prices: seq<PricePoint>): (adjusted: real)
    ensures |prices| == 0 ==> adjusted == need
    ensures need >= 0.0 ==> 0.8 * need <= adjusted <= 1.2 * need
  {
    if prices == [] then need
    else
      var r := Reduction(PriceLevel(prices));
      assert need >= 0.0 ==> 0.8 * need <= need * (1.0 - r) <= 1.2 * need by {
        if need >= 0.0 { ScaleBounds(need, r); }
      }
      need * (1.0 - r)
  }

  /** The piecewise scaling of need by the price level of a nonempty day. */
  lemma AdjustTempByPriceCases(need: real, prices: seq<PricePoint>)
    requires |prices| > 0
    ensures var level, adjusted := PriceLevel(prices), AdjustTempByPrice(need, prices);
      && (level > 200.0 ==> adjusted == 0.8 * need)
      && (100.0 < level <= 200.0 ==> adjusted == need * (1.0 - 0.2 * (level - 100.0) / 100.0))
      && (level < 5.0 ==> adjusted == 1.2 * need)
      && (5.0 <= level <= 100.0 ==> adjusted == need)
  {
  }
}
