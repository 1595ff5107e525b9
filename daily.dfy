/**
 * The daily scheduling run without its I/O: demand from the forecast, the
 * edited price frame, a sort by price and the allocation.
 */
module Daily {
  import opened PricePoints
  import opened Frame
  import opened Demand
  import opened Allocation
  import opened PriceAdjust

  /** The site the schedule is written for. */
  const Site: string := "taavis"

  /** The frame the allocation works on: the fetched rows with the boundary row and the daytime markup. */
  function DayFrame(fetched: seq<PricePoint>): seq<PricePoint>
    requires |fetched| > 0
  {
    MarkPeakHours(WithBoundary(fetched))
  }

  /** Builds the day's frame in place: the fetched rows, then the boundary row, then the markup. */
  method BuildDayFrame(fetched: seq<PricePoint>) returns (points: seq<PricePoint>)
    requires |fetched| > 0
    ensures points == DayFrame(fetched)
  {
    var frame := new PriceFrame(fetched);
    frame.AppendBoundary();
    frame.TotalPrices();
    points := frame.points;
  }

  /** The greedy plan over the day's frame, visited in the insertion-sort order. */
  function DayPlan(need: real, fetched: seq<PricePoint>, step: real): seq<bool>
    requires |fetched| > 0
  {
    var order := SortByPrice(DayFrame(fetched));
    Plan(AdjustTempByPrice(need, DayFrame(fetched)), Prices(order), step)
  }

  /**
   * What a day's schedule must be: one slot per row of the boundary-extended
   * frame (one more than the fetched rows when they are chronological), its
   * timestamps a permutation of that frame's, slot i carrying the i-th point
   * of the marked-up frame's price order with the greedy plan's flags for
   * floor and radiator alike, points at or below HeatAlways on and points at
   * or above the cap off.
   */
  predicate DaySchedule(need: real, fetched: seq<PricePoint>, month: Month, now: int,
                        schedule: seq<Slot>, radiatorKw: real)
    requires |fetched| > 0
  {
    var order := SortByPrice(DayFrame(fetched));
    var plan := DayPlan(need, fetched, FloorPower + radiatorKw);
    && radiatorKw == RadiatorPowerByMonth(month)
    && |schedule| == |WithBoundary(fetched)|
    && (Chronological(fetched) ==> |schedule| == |fetched| + 1)
    && multiset(SlotStamps(schedule)) == multiset(Stamps(WithBoundary(fetched)))
    && (forall i :: 0 <= i < |schedule| ==>
          schedule[i].site == Site && schedule[i].computedAt == now && schedule[i].dt == order[i].dt
          && schedule[i].floor == plan[i] && schedule[i].radiator == plan[i])
    && (forall i :: 0 <= i < |schedule| ==>
          (order[i].price <= HeatAlways ==> schedule[i].floor) && (order[i].price >= PriceCap ==> !schedule[i].floor))
  }

  /** The frame edits and the allocation for a nonempty day. */
  method PlanDay(need: real, fetched: seq<PricePoint>, month: Month, now: int)
    returns (schedule: seq<Slot>, radiatorKw: real)
    requires |fetched| > 0
    ensures DaySchedule(need, fetched, month, now, schedule, radiatorKw)
  {
    var points := BuildDayFrame(fetched);
    var order := SortByPrice(points);
    schedule, radiatorKw := AllocateHeating(need, points, month, Site, now, order);
    ghost var plan := Plan(AdjustTempByPrice(need, points), Prices(order), FloorPower + radiatorKw);
    assert DayPlan(need, fetched, FloorPower + radiatorKw) == plan;
    forall i | 0 <= i < |schedule| ensures schedule[i].floor == plan[i] {
    }
    if Chronological(fetched) {
      BoundaryAppends(fetched);
    }
  }

  /**
   * temp and cloudiness stand for the forecast, fetched for the day's
   * prices as the market returned them, now for the audit timestamp.
   * An empty price set fails the run (ok is false) and yields no schedule.
   */
  method ScheduleHeatingTomorrow(temp: real, cloudiness: real, month: Month, fetched: seq<PricePoint>, now: int)
    returns (ok: bool, schedule: seq<Slot>, radiatorKw: real, need: real)
    ensures ok <==> |fetched| > 0
    ensures need == DaysHeatingNeed(temp, cloudiness, month)
    ensures !ok ==> schedule == []
    ensures ok ==> DaySchedule(need, fetched, month, now, schedule, radiatorKw)
  {
    need := DaysHeatingNeed(temp, cloudiness, month);
    if fetched == [] {
      ok, schedule, radiatorKw := false, [], 0.0;
      return;
    }
    ok := true;
    schedule, radiatorKw := PlanDay(need, fetched, month, now);
  }
}
