/**
 * Daily heating demand: a clamped straight line in the day's mean temperature,
 * discounted for sunshine in the spring-to-autumn months.
 */
module Demand {

  /** Temperature (degrees C) of the line's first anchor, where demand equals kwh1. */
  const FirstAnchorTemp: real := -10.0

  /** Demand (kWh/day) at the first anchor in the live configuration. */
  const KwhAtMinus10: real := 30.0
  /** Temperature from which no heating is needed. */
  const NoHeatingTemp: real := 10.0
  /** Largest share of demand that a clear sky removes. */
  const SunnyFactor: real := 0.2
  /** The sunshine discount applies for months in [SunnyStartMonth, SunnyEndMonth). */
  const SunnyStartMonth: int := 4
  const SunnyEndMonth: int := 11

  function Max0(x: real): real { if x < 0.0 then 0.0 else x }

  /**
   * The line through (-10, kwh1) and (temp2, 0), evaluated at temp and
   * clamped below at zero. A temp2 of -10 would divide by zero.
   */
  function InterpolateKwh(kwh1: real, temp2: real, temp: real): (kwh: real)
    requires temp2 != FirstAnchorTemp
    ensures kwh >= 0.0
    ensures temp == FirstAnchorTemp ==> kwh == Max0(kwh1)
    ensures temp == temp2 ==> kwh == 0.0
  {
    var m := (0.0 - kwh1) / (temp2 - FirstAnchorTemp);
    var b := kwh1 - m * FirstAnchorTemp;
    assert m * (temp2 - FirstAnchorTemp) == 0.0 - kwh1;
    Max0(m * temp + b)
  }

  /** Undiscounted daily demand: the line through (-10, 30) and (10, 0). */
  function BaseNeed(temp: real): (kwh: real)
    ensures kwh == Max0(15.0 - 1.5 * temp)
    ensures kwh >= 0.0
    ensures temp == -10.0 ==> kwh == 30.0
    ensures temp >= 10.0 ==> kwh == 0.0
  {
    InterpolateKwh(KwhAtMinus10, NoHeatingTemp, temp)
  }

  /** The undiscounted demand falls strictly as the temperature rises towards 10 degrees. */
  lemma BaseNeedStrictlyDecreasing(t1: real, t2: real)
    requires t1 < t2 <= NoHeatingTemp
    ensures BaseNeed(t1) > BaseNeed(t2)
  {
  }

  predicate InSunnySeason(month: int) { SunnyStartMonth <= month < SunnyEndMonth }

  /** Daily heating need for a mean temperature, mean cloud cover (percent) and month. */
  function DaysHeatingNeed(temp: real, cloudiness: real, month: int): (kwh: real)
    ensures !InSunnySeason(month) ==> kwh == BaseNeed(temp)
    ensures InSunnySeason(month) ==> kwh == BaseNeed(temp) * (1.0 - SunnyFactor * (100.0 - cloudiness) / 100.0)
    ensures 0.0 <= cloudiness <= 100.0 ==> 0.8 * BaseNeed(temp) <= kwh <= BaseNeed(temp)
    ensures 0.0 <= cloudiness <= 100.0 ==> kwh >= 0.0
  {
    var need := BaseNeed(temp);
    if InSunnySeason(month) then
      var discount := SunnyFactor * (100.0 - cloudiness) / 100.0;
      assert 0.0 <= cloudiness <= 100.0 ==> 0.0 <= need * discount <= 0.2 * need by {
        if 0.0 <= cloudiness <= 100.0 { ShareBounds(need, discount); }
      }
      need - need * discount
    else
      need
  }

  lemma ShareBounds(x: real, d: real)
    requires x >= 0.0 && 0.0 <= d <= 0.2
    ensures 0.0 <= x * d <= 0.2 * x
  {
  }

  /** Outside the sunny season the cloud cover has no effect on demand. */
  lemma CloudIgnoredOutOfSeason(temp: real, c1: real, c2: real, month: int)
    requires !InSunnySeason(month)
    ensures DaysHeatingNeed(temp, c1, month) == DaysHeatingNeed(temp, c2, month)
  {
  }

  /** In season, a clear sky removes exactly a fifth of demand and full overcast removes nothing. */
  lemma SkyExtremes(temp: real, month: int)
    requires InSunnySeason(month)
    ensures DaysHeatingNeed(temp, 0.0, month) == 0.8 * BaseNeed(temp)
    ensures DaysHeatingNeed(temp, 100.0, month) == BaseNeed(temp)
  {
  }

  /** Worked values: 0 degrees in June, clear and overcast; -10 degrees in January. */
  lemma DemandExamples()
    ensures DaysHeatingNeed(0.0, 0.0, 6) == 12.0
    ensures DaysHeatingNeed(0.0, 100.0, 6) == 15.0
    ensures DaysHeatingNeed(-10.0, 50.0, 1) == 30.0
    ensures DaysHeatingNeed(-20.0, 0.0, 12) == 45.0
  {
  }
}
