/**
 * Greedy allocation of heating hours. Points are visited cheapest first;
 * each visited point is switched on while need remains and it is below the
 * price cap, or unconditionally when it is very cheap, and every point
 * switched on consumes one hour of floor plus radiator power from the need.
 */
module Allocation {
  import opened PricePoints
  import opened PriceAdjust

  type Month = m: int | 1 <= m <= 12 witness 1

  /** No heating at or above this price (EUR/MWh) unless it is always-on cheap. */
  const PriceCap: real := 500.0
  /** Heating is always on at or below this price (EUR/MWh). */
  const HeatAlways: real := 15.0
  /** Floor heating draw in kW. */
  const FloorPower: real := 1.0

  /** Estimated radiator draw (kW) by month: full in winter, half in May and October, none in summer. */
  function RadiatorPowerByMonth(month: Month): (kw: real)
    ensures kw == 0.0 || kw == 0.5 || kw == 1.0
    ensures kw == 0.0 <==> 6 <= month <= 9
    ensures kw == 0.5 <==> month == 5 || month == 10
  {
    if month == 5 || month == 10 then 0.5
    else if 6 <= month <= 9 then 0.0
    else 1.0
  }

  /** One row of the schedule: site, timestamp, floor and radiator flags, computation time. */
  datatype Slot = Slot(site: string, dt: Minute, floor: bool, radiator: bool, computedAt: int)

  function SlotStamps(schedule: seq<Slot>): (r: seq<Minute>)
    ensures |r| == |schedule| && forall i :: 0 <= i < |r| ==> r[i] == schedule[i].dt
  {
    seq(|schedule|, i requires 0 <= i < |schedule| => schedule[i].dt)
  }

  /** The switching rule for one point, given the need still open when it is visited. */
  predicate SwitchOn(need: real, price: real)
    ensures SwitchOn(need, price) ==> price < PriceCap
    ensures price <= HeatAlways ==> SwitchOn(need, price)
    ensures need > 0.0 && price < PriceCap ==> SwitchOn(need, price)
    ensures need <= 0.0 ==> (SwitchOn(need, price) <==> price <= HeatAlways)
  {
    (need > 0.0 && price < PriceCap) || price <= HeatAlways
  }

  /** Need still open after visiting the prices ps in order, each switch-on costing step. */
  function Remaining(need: real, ps: seq<real>, step: real): (open: real)
    ensures step >= 0.0 ==> open <= need
    decreases |ps|
  {
    if ps == [] then need
    else
      var before := Remaining(need, ps[..|ps| - 1], step);
      if SwitchOn(before, ps[|ps| - 1]) then before - step else before
  }

  /** The on/off decision for each of the prices ps, visited in order. */
  function Plan(need: real, ps: seq<real>, step: real): (plan: seq<bool>)
    ensures |plan| == |ps|
    ensures forall k :: 0 <= k < |ps| && plan[k] ==> ps[k] < PriceCap
    decreases |ps|
  {
    if ps == [] then []
    else
      var init := ps[..|ps| - 1];
      Plan(need, init, step) + [SwitchOn(Remaining(need, init, step), ps[|ps| - 1])]
  }

  /** Number of points switched on. */
  function CountOn(plan: seq<bool>): nat
    decreases |plan|
  {
    if plan == [] then 0
    else CountOn(plan[..|plan| - 1]) + (if plan[|plan| - 1] then 1 else 0)
  }

  /** The decision for point k depends only on the need left by the points before it. */
  lemma {:induction false} PlanAt(need: real, ps: seq<real>, step: real, k: int)
    requires 0 <= k < |ps|
    ensures Plan(need, ps, step)[k] == SwitchOn(Remaining(need, ps[..k], step), ps[k])
    decreases |ps|
  {
    var init := ps[..|ps| - 1];
    if k < |ps| - 1 {
      PlanAt(need, init, step, k);
      assert init[..k] == ps[..k];
    } else {
      assert init == ps[..k];
    }
  }

  /** Visiting one more point subtracts step exactly when that point is switched on. */
  lemma RemainingStep(need: real, ps: seq<real>, step: real, k: int)
    requires 0 <= k < |ps|
    ensures Remaining(need, ps[..k + 1], step) ==
      if SwitchOn(Remaining(need, ps[..k], step), ps[k])
      then Remaining(need, ps[..k], step) - step
      else Remaining(need, ps[..k], step)
  {
    assert ps[..k + 1][..k] == ps[..k];
  }

  /** With a nonnegative cost per point the open need never rises. */
  lemma {:induction false} RemainingNonIncreasing(need: real, ps: seq<real>, step: real, i: int, j: int)
    requires step >= 0.0
    requires 0 <= i <= j <= |ps|
    ensures Remaining(need, ps[..j], step) <= Remaining(need, ps[..i], step)
    decreases j - i
  {
    if i < j {
      RemainingStep(need, ps, step, j - 1);
      RemainingNonIncreasing(need, ps, step, i, j - 1);
    }
  }

  /** What switching on the points of plan costs, step per point. */
  function Spent(plan: seq<bool>, step: real): real
    decreases |plan|
  {
    if plan == [] then 0.0
    else Spent(plan[..|plan| - 1], step) + (if plan[|plan| - 1] then step else 0.0)
  }

  /** The open need is the starting need less the cost of the points switched on, and nothing else. */
  lemma {:induction false} RemainingCount(need: real, ps: seq<real>, step: real)
    ensures Remaining(need, ps, step) == need - Spent(Plan(need, ps, step), step)
    decreases |ps|
  {
    if ps != [] {
      var init := ps[..|ps| - 1];
      var plan := Plan(need, ps, step);
      assert plan[..|plan| - 1] == Plan(need, init, step);
      RemainingCount(need, init, step);
    }
  }

  /** The cost of a plan is step for every point switched on. */
  lemma {:induction false} SpentIsCount(plan: seq<bool>, step: real)
    ensures Spent(plan, step) == step * CountOn(plan) as real
    decreases |plan|
  {
    if plan != [] {
      var init := plan[..|plan| - 1];
      SpentIsCount(init, step);
      var n := CountOn(init);
      if plan[|plan| - 1] {
        assert CountOn(plan) == n + 1;
        assert step * (n + 1) as real == step * n as real + step;
      }
    }
  }

  /** Points at or below HeatAlways are always on; points at or above the cap never are. */
  lemma PlanThresholds(need: real, ps: seq<real>, step: real)
    ensures forall k :: 0 <= k < |ps| && ps[k] <= HeatAlways ==> Plan(need, ps, step)[k]
    ensures forall k :: 0 <= k < |ps| && ps[k] >= PriceCap ==> !Plan(need, ps, step)[k]
  {
    forall k | 0 <= k < |ps| {
      PlanAt(need, ps, step, k);
    }
  }

  /**
   * Once an affordable point above HeatAlways is left off, the need is spent:
   * every later point above HeatAlways is off too.
   */
  lemma OffStaysOff(need: real, ps: seq<real>, step: real, i: int, j: int)
    requires step >= 0.0
    requires 0 <= i < j < |ps|
    requires HeatAlways < ps[i] < PriceCap && !Plan(need, ps, step)[i]
    requires HeatAlways < ps[j]
    ensures !Plan(need, ps, step)[j]
  {
    PlanAt(need, ps, step, i);
    PlanAt(need, ps, step, j);
    RemainingNonIncreasing(need, ps, step, i, j);
  }

  /**
   * On prices in ascending order, an affordable point above HeatAlways that is
   * left off has no dearer point switched on.
   */
  lemma NoDearerPointOn(need: real, ps: seq<real>, step: real)
    requires step >= 0.0 && Ascending(ps)
    ensures forall a, b :: (0 <= a < |ps| && 0 <= b < |ps| && HeatAlways < ps[a] && ps[a] < ps[b]
      && !Plan(need, ps, step)[a]) ==> !Plan(need, ps, step)[b]
  {
    var plan := Plan(need, ps, step);
    forall a, b | 0 <= a < |ps| && 0 <= b < |ps| && HeatAlways < ps[a] && ps[a] < ps[b] && !plan[a]
      ensures !plan[b]
    {
      if ps[a] < PriceCap {
        assert a < b;
        OffStaysOff(need, ps, step, a, b);
      } else {
        PlanThresholds(need, ps, step);
      }
    }
  }

  /** If need is still open at the end, every point below the cap was switched on. */
  lemma ShortfallMeansAllAffordableOn(need: real, ps: seq<real>, step: real)
    requires step >= 0.0
    requires Remaining(need, ps, step) > 0.0
    ensures forall k :: 0 <= k < |ps| && ps[k] < PriceCap ==> Plan(need, ps, step)[k]
  {
    forall k | 0 <= k < |ps| && ps[k] < PriceCap ensures Plan(need, ps, step)[k] {
      PlanAt(need, ps, step, k);
      RemainingNonIncreasing(need, ps, step, k, |ps|);
      assert ps[..|ps|] == ps;
    }
  }

  /** With no need to begin with, exactly the points at or below HeatAlways are on. */
  lemma NoNeedOnlyCheapPoints(need: real, ps: seq<real>, step: real)
    requires step >= 0.0 && need <= 0.0
    ensures forall k :: 0 <= k < |ps| ==> (Plan(need, ps, step)[k] <==> ps[k] <= HeatAlways)
  {
    forall k | 0 <= k < |ps| ensures Plan(need, ps, step)[k] <==> ps[k] <= HeatAlways {
      PlanAt(need, ps, step, k);
      RemainingNonIncreasing(need, ps, step, 0, k);
      assert ps[..0] == [];
    }
  }

  /**
   * Allocate heating over the points of the day. order is the day's points as
   * the sort by price returned them; any order with nondecreasing prices is
   * admissible, and one slot is emitted per point in that order.
   */
  method AllocateHeating(need: real, prices: seq<PricePoint>, month: Month, site: string, now: int,
                         order: seq<PricePoint>)
    returns (schedule: seq<Slot>, radiatorKw: real)
    requires IsPriceOrder(order, prices)
    ensures radiatorKw == RadiatorPowerByMonth(month)
    ensures |schedule| == |prices|
    ensures forall i :: 0 <= i < |schedule| ==>
      schedule[i].site == site && schedule[i].dt == order[i].dt && schedule[i].computedAt == now
      && schedule[i].floor == schedule[i].radiator
    ensures forall i :: 0 <= i < |schedule| ==>
      schedule[i].floor == Plan(AdjustTempByPrice(need, prices), Prices(order), FloorPower + radiatorKw)[i]
    ensures multiset(SlotStamps(schedule)) == multiset(Stamps(prices))
    ensures forall i :: 0 <= i < |schedule| && order[i].price <= HeatAlways ==> schedule[i].floor
    ensures forall i :: 0 <= i < |schedule| && order[i].price >= PriceCap ==> !schedule[i].floor
    ensures forall i, j ::
      (0 <= i < |schedule| && 0 <= j < |schedule| && HeatAlways < order[i].price
       && !schedule[i].floor && order[i].price < order[j].price) ==> !schedule[j].floor
  {
    radiatorKw := RadiatorPowerByMonth(month);
    var heatingKwhNeed := AdjustTempByPrice(need, prices);
    ghost var adjusted := heatingKwhNeed;
    ghost var ps := Prices(order);
    var step := FloorPower + radiatorKw;
    ghost var plan := Plan(adjusted, ps, step);
    schedule := [];
    var i := 0;
    while i < |order|
      invariant 0 <= i <= |order|
      invariant |schedule| == i
      invariant heatingKwhNeed == Remaining(adjusted, ps[..i], step)
      invariant forall k :: 0 <= k < i ==>
        schedule[k] == Slot(site, order[k].dt, plan[k], plan[k], now)
    {
      var price := order[i].price;
      ghost var open := heatingKwhNeed;
      assert plan[i] == SwitchOn(open, price) by {
        PlanAt(adjusted, ps, step, i);
      }
      var floor, radiator;
      if (heatingKwhNeed > 0.0 && price < PriceCap) || price <= HeatAlways {
        floor, radiator := true, true;
        heatingKwhNeed := heatingKwhNeed - step;
      } else {
        floor, radiator := false, false;
      }
      assert heatingKwhNeed == Remaining(adjusted, ps[..i + 1], step) by {
        RemainingStep(adjusted, ps, step, i);
      }
      ghost var before := schedule;
      schedule := schedule + [Slot(site, order[i].dt, floor, radiator, now)];
      forall k | 0 <= k < i + 1 ensures schedule[k] == Slot(site, order[k].dt, plan[k], plan[k], now) {
        if k < i {
          assert schedule[k] == before[k];
        }
      }
      i := i + 1;
    }

    PriceOrderColumns(order, prices);
    assert SlotStamps(schedule) == Stamps(order);
    PlanThresholds(adjusted, ps, step);
    NoDearerPointOn(adjusted, ps, step);
  }
}
