/**
 * Horizon arithmetic and the extension loop: the initial number of forecast
 * periods between the last reading and the 12-hour finish time, and the
 * `while` loop that grows the horizon one period at a time until the last
 * cumulative doneness reaches the goal.
 */
module Horizon {
  import opened Prelude
  import opened Chews

  /**
   * `int(((finish_time - last_time).seconds / 60) * readings_per_minute)`:
   * the whole periods in the within-day part of the gap to the finish time.
   */
  function InitialPeriods(start: int, last: int): (n: nat)
    ensures var gap := WithinDaySeconds(start + IdealCookLength - last);
      n * 60 <= gap * ReadingsPerMinute < (n + 1) * 60
  {
    WithinDaySeconds(start + IdealCookLength - last) * ReadingsPerMinute / 60
  }

  /**
   * While the finish time lies less than a day after the last reading, every
   * period up to the initial horizon ends no later than the finish time, so
   * the gap to the finish time needs no reduction modulo a day.
   */
  lemma PeriodsEndBeforeFinish(start: int, last: int, period: nat)
    requires 0 <= start + IdealCookLength - last < SecondsPerDay
    requires period <= InitialPeriods(start, last)
    ensures last + period * PeriodSeconds <= start + IdealCookLength
    ensures WithinDaySeconds(start + IdealCookLength - (last + period * PeriodSeconds))
         == start + IdealCookLength - (last + period * PeriodSeconds)
  {
    assert period * PeriodSeconds <= InitialPeriods(start, last) * PeriodSeconds;
  }

  /** The last CHEWS value of a table, `results.CHEWS.iloc[-1]`. */
  function LastChew(p: Prediction): real
    requires p.results != []
  {
    p.results[|p.results| - 1].chews
  }

  /** `predict_chews` as a function of the horizon, for fixed data, rate and goal. */
  function Tables(forecast: nat -> seq<real>, seed: real, rate: real -> real, goal: int): nat -> Result<Prediction>
  {
    (k: nat) => Predict(forecast, k, seed, rate, goal)
  }

  /** The loop's exit: the horizon it stopped at and the table computed for it. */
  datatype Crossing = Crossing(periods: nat, prediction: Prediction)

  /** The table for horizon k was computed and its last cumulative doneness stayed below the goal. */
  predicate BelowGoal(tables: nat -> Result<Prediction>, k: nat, goal: int)
  {
    var r := tables(k);
    r.Ok? && r.value.results != [] && LastChew(r.value) < goal as real
  }

  /**
   * The extension loop from horizon n over the tables `tables(k)`, allowed
   * `fuel` more periods. Each step computes the whole table for one more
   * period; an exception from the table, or an empty table at
   * `results.CHEWS.iloc[-1]`, ends the loop.
   */
  function Extend(tables: nat -> Result<Prediction>, n: nat, goal: int, fuel: nat): Result<Crossing>
    decreases fuel
  {
    if fuel == 0 then Err(HorizonSearchTimeout)
    else
      match tables(n + 1)
      case Err(e) => Err(e)
      case Ok(p) =>
        if p.results == [] then Err(EmptyResults)
        else if LastChew(p) < goal as real then Extend(tables, n + 1, goal, fuel - 1)
        else Ok(Crossing(n + 1, p))
  }

  /**
   * `while last_chew < doneness_goal: n_periods += 1; ...`, entered once the
   * table for n0 periods ended below the goal, and stopped after `fuel`
   * extra periods.
   */
  method ExtendHorizon(forecast: nat -> seq<real>, n0: nat, seed: real, rate: real -> real, goal: int, fuel: nat)
    returns (r: Result<Crossing>)
    ensures r == Extend(Tables(forecast, seed, rate, goal), n0, goal, fuel)
  {
    ghost var tables := Tables(forecast, seed, rate, goal);
    assert forall k: nat :: tables(k) == Predict(forecast, k, seed, rate, goal);
    var nPeriods := n0;
    var steps := 0;
    while steps < fuel
      invariant steps <= fuel && nPeriods == n0 + steps
      invariant Extend(tables, n0, goal, fuel) == Extend(tables, nPeriods, goal, fuel - steps)
    {
      var results := PredictChews(forecast, nPeriods + 1, seed, rate, goal);
      ExtendStep(tables, nPeriods, goal, fuel - steps);
      nPeriods := nPeriods + 1;
      if results.Err? {
        return Err(results.error);
      }
      var lastChew := results.value.results[|results.value.results| - 1].chews;
      if lastChew >= goal as real {
        return Ok(Crossing(nPeriods, results.value));
      }
      steps := steps + 1;
    }
    r := Err(HorizonSearchTimeout);
  }

  /** One iteration of the loop: the next table decides between stopping and going on. */
  lemma ExtendStep(tables: nat -> Result<Prediction>, n: nat, goal: int, fuel: nat)
    requires 0 < fuel
    ensures tables(n + 1).Err? ==> Extend(tables, n, goal, fuel) == Err(tables(n + 1).error)
    ensures tables(n + 1).Ok? && tables(n + 1).value.results != [] ==>
      Extend(tables, n, goal, fuel) ==
        if LastChew(tables(n + 1).value) < goal as real then Extend(tables, n + 1, goal, fuel - 1)
        else Ok(Crossing(n + 1, tables(n + 1).value))
    ensures tables(n + 1).Ok? && tables(n + 1).value.results == [] ==> Extend(tables, n, goal, fuel) == Err(EmptyResults)
  {
  }

  /** Every table the loop computes has n + 1 >= 1 rows, so `results.CHEWS.iloc[-1]` never fails inside it. */
  lemma {:induction false} NoEmptyExit(forecast: nat -> seq<real>, n0: nat, seed: real, rate: real -> real, goal: int, fuel: nat)
    ensures Extend(Tables(forecast, seed, rate, goal), n0, goal, fuel) != Err(EmptyResults)
    decreases fuel
  {
    if fuel > 0 {
      assert Tables(forecast, seed, rate, goal)(n0 + 1) == Predict(forecast, n0 + 1, seed, rate, goal);
      NoEmptyExit(forecast, n0 + 1, seed, rate, goal, fuel - 1);
    }
  }

  /**
   * The loop stops at the least horizon above n0 whose last cumulative
   * doneness meets the goal; every horizon it passed ended below the goal.
   */
  lemma {:induction false} ExtendFindsLeastHorizon(tables: nat -> Result<Prediction>, n0: nat, goal: int, fuel: nat)
    ensures var r := Extend(tables, n0, goal, fuel);
      r.Ok? ==>
        && n0 < r.value.periods <= n0 + fuel
        && tables(r.value.periods) == Ok(r.value.prediction)
        && r.value.prediction.results != []
        && LastChew(r.value.prediction) >= goal as real
        && forall k :: n0 < k < r.value.periods ==> BelowGoal(tables, k, goal)
    decreases fuel
  {
    if fuel > 0 {
      var p := tables(n0 + 1);
      if p.Ok? && p.value.results != [] && LastChew(p.value) < goal as real {
        ExtendFindsLeastHorizon(tables, n0 + 1, goal, fuel - 1);
        assert BelowGoal(tables, n0 + 1, goal);
      }
    }
  }

  /**
   * When no table raises the cap's own error, reaching the cap means every
   * capped horizon was computed and ended below the goal.
   */
  lemma {:induction false} ExtendTimesOutOnlyBelowGoal(tables: nat -> Result<Prediction>, n0: nat, goal: int, fuel: nat)
    requires forall k :: n0 < k <= n0 + fuel ==> tables(k) != Err(HorizonSearchTimeout)
    requires Extend(tables, n0, goal, fuel) == Err(HorizonSearchTimeout)
    ensures forall k :: n0 < k <= n0 + fuel ==> BelowGoal(tables, k, goal)
    decreases fuel
  {
    if fuel > 0 {
      assert BelowGoal(tables, n0 + 1, goal);
      ExtendTimesOutOnlyBelowGoal(tables, n0 + 1, goal, fuel - 1);
    }
  }

  /** An exception other than the cap comes from the table of a horizon the loop reached. */
  lemma {:induction false} ExtendFailsOnlyAtReachedHorizon(tables: nat -> Result<Prediction>, n0: nat, goal: int, fuel: nat)
    returns (k: nat)
    requires Extend(tables, n0, goal, fuel).Err?
    requires Extend(tables, n0, goal, fuel).error != HorizonSearchTimeout
    ensures n0 < k <= n0 + fuel
    ensures tables(k) == Err(Extend(tables, n0, goal, fuel).error)
      || (tables(k).Ok? && tables(k).value.results == [] && Extend(tables, n0, goal, fuel).error == EmptyResults)
    ensures forall j :: n0 < j < k ==> BelowGoal(tables, j, goal)
    decreases fuel
  {
    var p := tables(n0 + 1);
    if p.Err? || p.value.results == [] {
      k := n0 + 1;
    } else {
      k := ExtendFailsOnlyAtReachedHorizon(tables, n0 + 1, goal, fuel - 1);
      assert BelowGoal(tables, n0 + 1, goal);
    }
  }

  /**
   * The cap changes nothing for a run of the unbounded loop that stops: when
   * horizons n0+1 .. m-1 end below the goal and horizon m meets it, any cap
   * of at least m - n0 periods gives the same exit.
   */
  lemma {:induction false} EnoughFuelMatchesUnboundedLoop(tables: nat -> Result<Prediction>, n0: nat, m: nat, goal: int, fuel: nat)
    requires n0 < m <= n0 + fuel
    requires forall k :: n0 < k < m ==> BelowGoal(tables, k, goal)
    requires tables(m).Ok? && tables(m).value.results != []
    requires LastChew(tables(m).value) >= goal as real
    ensures Extend(tables, n0, goal, fuel) == Ok(Crossing(m, tables(m).value))
    decreases fuel
  {
    if m > n0 + 1 {
      assert BelowGoal(tables, n0 + 1, goal);
      EnoughFuelMatchesUnboundedLoop(tables, n0 + 1, m, goal, fuel - 1);
    }
  }

  /** With every rate at least `delta`, the sum of the rates of m forecasts is at least m * delta. */
  lemma {:induction false} RateSumAtLeast(rate: real -> real, pred: seq<real>, delta: real)
    requires forall t :: t in pred ==> delta <= rate(t)
    ensures |pred| as real * delta <= RateSum(rate, pred)
  {
    if pred != [] {
      var q := pred[..|pred| - 1];
      assert pred == q + [pred[|pred| - 1]];
      assert forall t :: t in q ==> t in pred;
      RateSumAtLeast(rate, q, delta);
      var x := pred[|pred| - 1];
      assert x in pred;
      assert RateSum(rate, pred) == RateSum(rate, q) + rate(x);
      assert |pred| as real == |q| as real + 1.0;
      assert |pred| as real * delta == |q| as real * delta + delta;
    }
  }

  /**
   * Termination for forecasts whose rates stay at or above some delta > 0:
   * a cap whose last horizon already accumulates the goal at that pace never
   * times out.
   */
  lemma SearchEndsWithPositiveRates(forecast: nat -> seq<real>, n0: nat, seed: real, rate: real -> real, goal: int, fuel: nat, delta: real)
    requires 0.0 < delta && 0 < fuel
    requires |forecast(n0 + fuel)| == n0 + fuel
    requires forall t :: t in forecast(n0 + fuel) ==> delta <= rate(t)
    requires goal as real <= seed + (n0 + fuel) as real * delta / ReadingsPerMinute as real
    ensures Extend(Tables(forecast, seed, rate, goal), n0, goal, fuel) != Err(HorizonSearchTimeout)
  {
    TotalAtLeast(seed, rate, forecast(n0 + fuel), n0 + fuel, delta);
    GoalByLastHorizonAvoidsTimeout(forecast, n0, seed, rate, goal, fuel);
  }

  /** If the running total of the last capped horizon meets the goal, the loop does not reach the cap. */
  lemma GoalByLastHorizonAvoidsTimeout(forecast: nat -> seq<real>, n0: nat, seed: real, rate: real -> real, goal: int, fuel: nat)
    requires 0 < fuel
    requires |forecast(n0 + fuel)| == n0 + fuel
    requires goal as real <= Total(seed, rate, forecast(n0 + fuel), n0 + fuel)
    ensures Extend(Tables(forecast, seed, rate, goal), n0, goal, fuel) != Err(HorizonSearchTimeout)
  {
    if Extend(Tables(forecast, seed, rate, goal), n0, goal, fuel) == Err(HorizonSearchTimeout) {
      forall k | n0 < k <= n0 + fuel
        ensures Tables(forecast, seed, rate, goal)(k) != Err(HorizonSearchTimeout)
      {
        PredictFailsOnlyOnShape(forecast, k, seed, rate, goal);
      }
      ExtendTimesOutOnlyBelowGoal(Tables(forecast, seed, rate, goal), n0, goal, fuel);
      assert BelowGoal(Tables(forecast, seed, rate, goal), n0 + fuel, goal);
      LastChewIsFinalTotal(forecast, n0 + fuel, seed, rate, goal);
    }
  }

  /**
   * The cap changes nothing for a run of the unbounded loop that ends with an
   * exception: when horizons n0+1 .. m-1 end below the goal and the table for
   * horizon m raises, any cap of at least m - n0 periods raises the same.
   */
  lemma {:induction false} EnoughFuelReproducesException(tables: nat -> Result<Prediction>, n0: nat, m: nat, goal: int, fuel: nat)
    requires n0 < m <= n0 + fuel
    requires forall k :: n0 < k < m ==> BelowGoal(tables, k, goal)
    requires tables(m).Err?
    ensures Extend(tables, n0, goal, fuel) == Err(tables(m).error)
    decreases fuel
  {
    if m > n0 + 1 {
      assert BelowGoal(tables, n0 + 1, goal);
      EnoughFuelReproducesException(tables, n0 + 1, m, goal, fuel - 1);
    }
  }

  /** `predict_chews` raises only the frame's shape error. */
  lemma PredictFailsOnlyOnShape(forecast: nat -> seq<real>, n: nat, seed: real, rate: real -> real, goal: int)
    ensures Predict(forecast, n, seed, rate, goal).Err? ==> Predict(forecast, n, seed, rate, goal).error.ShapeMismatch?
  {
  }

  /** The last CHEWS of a well-formed table is the running total after all its forecasts. */
  lemma LastChewIsFinalTotal(forecast: nat -> seq<real>, m: nat, seed: real, rate: real -> real, goal: int)
    requires |forecast(m)| == m && 0 < m
    requires Predict(forecast, m, seed, rate, goal).Ok?
    ensures LastChew(Predict(forecast, m, seed, rate, goal).value) == Total(seed, rate, forecast(m), m)
  {
    PredictRows(forecast, m, seed, rate, goal);
  }

  /** With every rate at least `delta`, the running total after m forecasts is at least seed + m * delta / rpm. */
  lemma TotalAtLeast(seed: real, rate: real -> real, pred: seq<real>, m: nat, delta: real)
    requires |pred| == m
    requires forall t :: t in pred ==> delta <= rate(t)
    ensures seed + m as real * delta / ReadingsPerMinute as real <= Total(seed, rate, pred, m)
  {
    RateSumAtLeast(rate, pred, delta);
    assert pred[..|pred|] == pred;
  }
}
