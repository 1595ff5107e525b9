# Heating control: a verified model of the daily heating decision

This project models the decision logic of a small home-heating controller (`heating_control.py`).
Once a day the controller estimates the day's heating need from the forecast temperature and cloud
cover. It scales that need by how cheap the day's cheapest electricity is. Then it greedily switches
floor and radiator heating on for the cheapest price points until the need is used up. Once an hour
it looks up the stored schedule for the last hour and sends a command to the heating only when those
rows disagree.

Modules, one per stage:

- `Demand` (demand.dfy): the clamped straight line through (-10 °C, 30 kWh) and (10 °C, 0 kWh), and
  the sunshine discount for April to October.
- `PricePoints` (prices.dfy): price points, and the orders that a sort by price may produce. Any
  permutation with nondecreasing prices is allowed. It also holds an insertion sort and the
  multiset and sum facts that the other modules use.
- `Frame` (frame.dfy): the price frame as a class whose methods edit it in place. One method appends
  the boundary row, 45 minutes after the last row at the last row's price. Another adds the
  +3 EUR/MWh daytime markup for index hours 7 to 22.
- `PriceAdjust` (adjust.dfy): the price level, which is the mean of the eight or fewer cheapest
  prices, and the piecewise scaling of need.
- `Allocation` (allocation.dfy): the greedy allocation loop. It is proved against a recursive
  specification (`Plan` and `Remaining`), and the threshold, monotonicity and prefix properties are
  proved about that specification.
- `Daily` (daily.dfy): the daily run without its I/O. It computes demand, builds and edits the
  frame, sorts it and allocates.
- `Debounce` (debounce.dfy): the five-timestamp window, the rule "more than one distinct
  (floor, radiator) pair", and the command built from the first row.

Prices, temperatures and kWh are exact `real`s. Timestamps are integer minutes of naive UTC time,
and the hour of day is `(t / 60) % 24`.

Behaviour of the code worth knowing:

- The interpolation line is `max(0, 15 - 1.5·t)`. It is 30 at -10 °C, 0 from 10 °C up and 45 at -20 °C.
- The allocation emits its slots in the order it visits them, which is price order. It does not
  emit them in chronological order.
- The sort by price is not guaranteed to be stable. So `AllocateHeating` takes the sorted order as
  a parameter and is proved for every admissible order. The daily run uses the insertion-sort order.
- The +3 markup is decided by the hour of the naive UTC index, not by local time.
- Assigning the boundary row by label overwrites any rows that already carry that label, and
  appends a row only when no row does. `Frame.BoundaryAppends` shows that chronological input
  always gets a new row.
- With no prices, the mean of the cheapest prices is not a number. Every comparison with it fails,
  so need is returned unchanged.
- `days_heating_need` is defined twice, identically (lines 46-55 and 65-74). The second definition
  is the live one, and it is the one modelled.

## Model

| member | source | states |
|---|---|---|
| Demand.InterpolateKwh | heating_control.py:57-63 | the clamped line through (-10, kwh1) and (temp2, 0): never negative, equals max(0, kwh1) at -10 and 0 at temp2 |
| Demand.BaseNeed | heating_control.py:66-71 | with the live constants the demand is max(0, 15 - 1.5·t): 30 at -10 degrees, 0 for every t >= 10, never negative |
| Demand.BaseNeedStrictlyDecreasing | heating_control.py:57-63 | demand falls strictly as the temperature rises up to 10 degrees |
| Demand.DaysHeatingNeed | heating_control.py:65-74 | outside months 4..10 the need is the base need; inside it is base·(1 - 0.2·(100 - cloud)/100); for cloud in [0, 100] it lies in [0.8·base, base] and is never negative |
| Demand.CloudIgnoredOutOfSeason | heating_control.py:72-74 | outside the sunny season the cloud cover has no effect on the need |
| Demand.SkyExtremes | heating_control.py:72-73 | in season a clear sky removes exactly 20% of need and full overcast removes nothing |
| Demand.DemandExamples | heating_control.py:65-74 | worked values: 12 kWh at 0 degrees and clear sky in June, 15 when overcast, 30 at -10 degrees in January, 45 at -20 degrees |
| PricePoints.SortByPrice | heating_control.py:100 | the insertion sort returns a permutation of the points with nondecreasing prices, one admissible order |
| PricePoints.PriceOrdersAgree | heating_control.py:100 | any two admissible orders list the same prices; only equal-priced points can trade places |
| PricePoints.PriceOrderColumns | heating_control.py:100-103 | an admissible order keeps the multiset of timestamps and of prices, and its prices ascend |
| PriceAdjust.CheapestPrices | heating_control.py:77 | the min(8, n) smallest prices, ascending, a sub-multiset of the day's prices; no price left out is below the dearest one kept |
| PriceAdjust.PriceLevel | heating_control.py:77 | the level, the mean of the selected cheapest prices, lies between the cheapest and the dearest of them |
| PriceAdjust.PriceLevelAnyOrder | heating_control.py:77 | the price level is the mean of the first min(8, n) prices of any admissible order, so tie order does not matter |
| PriceAdjust.PriceLevelSmallDay | heating_control.py:77 | with at most 8 prices the level is the plain mean of all prices |
| PriceAdjust.PriceLevelBounds | heating_control.py:77 | the cheapest selected price is the day's minimum price; the level is at least that minimum and at most some price of the day |
| PriceAdjust.Reduction | heating_control.py:78-88 | the reduction share always lies in [-0.2, 0.2] |
| PriceAdjust.ReductionMonotone | heating_control.py:81-88 | a higher price level never gives a smaller reduction |
| PriceAdjust.ReductionExamples | heating_control.py:81-89 | level 100 keeps need, 150 scales it by 0.9, 250 by 0.8, 2 by 1.2 |
| PriceAdjust.AdjustTempByPrice | heating_control.py:76-89 | with no prices need is unchanged; a non-negative need is scaled into [0.8·need, 1.2·need], so it stays non-negative |
| PriceAdjust.AdjustTempByPriceCases | heating_control.py:81-89 | need·0.8 above level 200; need·(1 - 0.2·(level - 100)/100) for 100 < level <= 200; need·1.2 below 5; need unchanged otherwise |
| Frame.HourOf | heating_control.py:116 | the hour of a timestamp's day, always in 0..23 |
| Frame.LocSet | heating_control.py:137 | assigning by label keeps every existing row's label and sets the price of every row carrying the label, or appends one row when none does; other rows are untouched and the label set gains exactly that label |
| Frame.PeakHourIsHourly | heating_control.py:115-116 | whether a timestamp is in the daytime band `Frame.IsPeakHour` (index hours 7 to 22) depends only on its hour, and repeats every 24 hours |
| Frame.WithBoundary | heating_control.py:135-137 | keeps every existing label and leaves every row not labelled last + 45 minutes unchanged; overwrites in place when that label exists, otherwise appends exactly the row (last + 45 minutes, last price); afterwards every row carrying the label has the last row's price |
| Frame.BoundaryAppends | heating_control.py:135-137 | on chronological prices the boundary row is appended 45 minutes after the last row at its price, and the frame stays chronological |
| Frame.MarkPeakHours | heating_control.py:114-117 | adds exactly 3 to every row whose index hour is in 7..22 and leaves every other price and every timestamp unchanged |
| Frame.BoundaryKeepsLastPrice | heating_control.py:135-138 | when the last row is on the hour, the boundary row still has the last row's price after the markup |
| Frame.PriceFrame.constructor | heating_control.py:134 | the frame holds the fetched rows |
| Frame.PriceFrame.SetPrice | heating_control.py:137 | the frame becomes the label assignment of its old rows |
| Frame.PriceFrame.AppendBoundary | heating_control.py:135-137 | the frame gains the boundary row in place |
| Frame.PriceFrame.TotalPrices | heating_control.py:114-117 | the frame's prices get the daytime markup in place |
| Allocation.RadiatorPowerByMonth | heating_control.py:94 | total over months 1..12 with values in {0, 0.5, 1}: 0 exactly in June to September, 0.5 exactly in May and October |
| Allocation.SwitchOn | heating_control.py:104 | a point is never switched on at or above the 500 cap, always at or below 15, always when need is open and it is below the cap, and with no open need exactly when priced at or below 15 |
| Allocation.Remaining | heating_control.py:103-107 | the need still open after visiting points in order; with a non-negative step it never exceeds the starting need |
| Allocation.Plan | heating_control.py:103-107 | one on/off decision per visited point, and no point at or above the cap is on |
| Allocation.PlanAt | heating_control.py:103-107 | the decision for each point is the switching rule applied to the need left by the points before it |
| Allocation.RemainingNonIncreasing | heating_control.py:103-107 | the open need never rises along the visiting order |
| Allocation.RemainingCount | heating_control.py:103-107 | the open need is the starting need less the cost of the points switched on, and nothing else lowers it |
| Allocation.SpentIsCount | heating_control.py:107 | each point switched on costs exactly 1 + radiator kW, so the cost is that step times the number of points switched on |
| Allocation.PlanThresholds | heating_control.py:104 | every point priced <= 15 is on and every point priced >= 500 is off, whatever the need |
| Allocation.OffStaysOff | heating_control.py:103-107 | once an affordable point above 15 is left off, every later point above 15 is off |
| Allocation.NoDearerPointOn | heating_control.py:100-107 | on ascending prices, when a point above 15 is left off, no dearer point is switched on |
| Allocation.ShortfallMeansAllAffordableOn | heating_control.py:103-107 | if need is still open at the end, every point below the cap was switched on |
| Allocation.NoNeedOnlyCheapPoints | heating_control.py:104 | with no need at the start, exactly the points priced <= 15 are on |
| Allocation.AllocateHeating | heating_control.py:92-112 | one slot per point in the sorted order, with the site, the timestamp and the audit time; floor equals radiator; the slot timestamps are a permutation of the input's; the flags are the greedy plan; points <= 15 are on and points >= 500 are off; an off point above 15 has no dearer point on; returns the month's radiator kW |
| Daily.BuildDayFrame | heating_control.py:134-138 | the frame built in place equals the fetched rows with the boundary row and then the daytime markup |
| Daily.PlanDay | heating_control.py:134-139 | the schedule meets `Daily.DaySchedule`: the allocation runs on the boundary-extended, marked-up frame; slot i carries the i-th point of that frame's price order, with floor and radiator both set to the greedy plan over that frame's prices and the need adjusted by that frame; points <= 15 are on and points >= 500 are off; one slot per frame row (one more than the fetched rows when they are chronological), timestamps a permutation of the frame's; the month's radiator kW |
| Daily.ScheduleHeatingTomorrow | heating_control.py:132-139 | with no prices the run fails and writes nothing; otherwise the need comes from the forecast and the schedule meets `Daily.DaySchedule` for that need |
| Debounce.Window | heating_control.py:151-155 | five lookup times from dt - 60 to dt, 15 minutes apart |
| Debounce.DistinctStatesDisagree | heating_control.py:159 | more than one distinct (floor, radiator) pair exactly when two rows disagree |
| Debounce.CommandEncodesState | heating_control.py:162-165 | two rows map to the same command exactly when their flag pairs agree |
| Debounce.CommandFor | heating_control.py:162-165 | floor is "on" exactly when the row's floor flag is set, else "off"; radiator is "high" exactly when the radiator flag is set, else "low" |
| Debounce.Decide | heating_control.py:158-165 | a command exactly when two returned rows disagree, and then the first row's command |
| Debounce.WebhookEvents | heating_control.py:166-167 | two tokens, floor first: each is its channel's event prefix followed by exactly the command's state, so the command can be read back from them |
| Debounce.ReadScheduleAndSetHeating | heating_control.py:147-167 | no webhook call when the window's rows hold at most one distinct pair; otherwise the floor and radiator tokens of the first returned row |
| Debounce.DebounceExamples | heating_control.py:159-165 | five identical rows send nothing; a window with two different rows sends the first row's command |

## Left out

- Fetching and parsing the weather observations (`get_temp_and_cloudiness`, lines 12-35), including the default-temperature table. This is HTTP and XML I/O, and the forecast enters the model as the parameters `temp` and `cloudiness`.
- Fetching day-ahead prices and converting their time zone (`dayahead_entso_spot_prices`, lines 37-44). These are external calls; the prices enter as a sequence of points.
- `get_tomorrow_utc_dts` (lines 119-124). It reads the wall clock and a time-zone library; the month is a parameter.
- Persistence (`insert_sql`, `upsert_schedule_sql`, `upsert_schedule_info`, `select_sql`, `select_schedules`). These are not part of this model. The store lookup is the function parameter `select`, and the summary row of line 142 is not built.
- The webhook `requests.post` calls, configuration lookup and printing (lines 149, 166-172). The model returns the two tokens that would be posted.
- The try/except handlers that swallow errors. The only failure the modelled code can raise, indexing an empty price frame, is returned as `ok == false`.
- The formatting of window timestamps as strings for the store query (line 156). Timestamps stay integer minutes.
- `datetime.now` (lines 102 and 142) is an opaque parameter `now`.
- Floating point: the model uses exact reals. A missing or NaN cloud cover is the caller's responsibility and is not modelled.
- A month outside 1..12 would raise a KeyError in the radiator table. The type `Month` rules it out, because the month always comes from a date.
- Frame.PriceFrame.AppendBoundary: requires a non-empty frame. The source's indexing of the last row raises on an empty frame; `Daily.ScheduleHeatingTomorrow` models that case as a failed run.
