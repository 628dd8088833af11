/**
 * The two classification branches: the "late" branch taken after the
 * horizon had to be extended, and the "early" branch taken when the initial
 * horizon already meets the goal. Each prints one of two messages, decided
 * by a fixed 20-minute comparison.
 */
module Schedule {
  import opened Prelude

  /** The advice the script prints, with the values its message reports. */
  datatype Verdict =
    | IncreaseHeat(projected: int, minutesLate: real)
    | DecreaseHeat(projected: int, minutesEarly: real)
    | OnTrack(projected: int, minutesToGo: real)
    | NoMessage  // neither the `if` nor the `elif` branch runs

  /** `last_time + pd.Timedelta(minutes=periods / readings_per_minute)` */
  function Projected(last: int, periods: nat): int
  {
    last + periods * PeriodSeconds
  }

  /**
   * The late branch. Its measure is the whole extended horizon,
   * `n_periods / readings_per_minute` minutes after the last reading, not
   * the time past the finish.
   */
  function LateVerdict(nPeriods: nat, last: int, finish: int): (v: Verdict)
    ensures v.IncreaseHeat? <==> nPeriods > ToleranceMinutes * ReadingsPerMinute
    ensures v.IncreaseHeat? || v.OnTrack?
    ensures v.projected == Projected(last, nPeriods)
    ensures v.IncreaseHeat? ==> v.minutesLate * ReadingsPerMinute as real == nPeriods as real
    ensures v.OnTrack? ==> v.minutesToGo * 60.0 == WithinDaySeconds(finish - last) as real
  {
    var projected := Projected(last, nPeriods);
    var missingGoal := nPeriods as real / ReadingsPerMinute as real;
    if missingGoal > ToleranceMinutes as real then IncreaseHeat(projected, missingGoal)
    else OnTrack(projected, WithinDaySeconds(finish - last) as real / 60.0)
  }

  /**
   * The early branch: the within-day minutes from the projected time to the
   * finish time, against the 20-minute tolerance.
   */
  function EarlyVerdict(period: nat, last: int, finish: int): (v: Verdict)
    ensures v.DecreaseHeat? <==> WithinDaySeconds(finish - Projected(last, period)) > ToleranceMinutes * 60
    ensures v.DecreaseHeat? || v.OnTrack?
    ensures v.projected == Projected(last, period)
    ensures v.DecreaseHeat? ==> v.minutesEarly * 60.0 == WithinDaySeconds(finish - Projected(last, period)) as real
    ensures v.OnTrack? ==> v.minutesToGo * ReadingsPerMinute as real == period as real
  {
    var projected := Projected(last, period);
    var missingGoal := WithinDaySeconds(finish - projected) as real / 60.0;
    if missingGoal > ToleranceMinutes as real then DecreaseHeat(projected, missingGoal)
    else OnTrack(projected, period as real / ReadingsPerMinute as real)
  }

  /**
   * With the last reading at 6 h and the goal reached at period 730, the
   * projected time is only 5 minutes past the 12-hour finish, yet the late
   * branch reports "increase heat" and 365 minutes late.
   */
  lemma LateBranchMeasuresWholeHorizon(start: int)
    ensures Projected(start + 6 * 3600, 730) == start + IdealCookLength + 5 * 60
    ensures LateVerdict(730, start + 6 * 3600, start + IdealCookLength) == IncreaseHeat(start + IdealCookLength + 5 * 60, 365.0)
  {
  }

  /**
   * The within-day reduction of the early branch wraps around once the
   * projected time passes the finish: 21 minutes past the finish reads as
   * 1419 minutes early.
   */
  lemma EarlyBranchWrapsPastFinish(start: int)
    ensures var last := start + IdealCookLength + 10 * 60;
      && Projected(last, 22) == start + IdealCookLength + 21 * 60
      && EarlyVerdict(22, last, start + IdealCookLength) == DecreaseHeat(start + IdealCookLength + 21 * 60, 1419.0)
  {
  }

  /**
   * Without the wraparound (projected time not after the finish and within a
   * day of it) the early branch says "decrease heat" exactly when the cook
   * is projected to finish more than 20 minutes early; otherwise "on track".
   */
  lemma EarlyBranchWithoutWrap(period: nat, last: int, finish: int)
    requires Projected(last, period) <= finish < Projected(last, period) + SecondsPerDay
    ensures EarlyVerdict(period, last, finish).DecreaseHeat? <==> finish - Projected(last, period) > ToleranceMinutes * 60
    ensures EarlyVerdict(period, last, finish).OnTrack? <==> finish - Projected(last, period) <= ToleranceMinutes * 60
  {
  }
}
