/**
 * The top-level forecast script: prepare the reading frame, compute the
 * initial horizon, build the doneness table, extend the horizon when the
 * goal is not reached, and classify the outcome.
 *
 * The smoothing and the fitted forecaster are the `forecast` parameter; the
 * power law is the `rate` parameter; the extension loop is capped at
 * `maxExtensions` extra periods.
 */
module Script {
  import opened Prelude
  import opened Series
  import opened Chews
  import opened Horizon
  import opened Schedule

  /** `data.index[0]` after the DATETIME correction. */
  function StartTime(readings: seq<Reading>): int
    requires readings != []
  {
    Shifted(readings[0]).datetime
  }

  /** `data.index[-1]` after the DATETIME correction. */
  function LastTime(readings: seq<Reading>): int
    requires readings != []
  {
    Shifted(readings[|readings| - 1]).datetime
  }

  /** `data['CHEWS'].iloc[-1]`, the seed of every running total. */
  function LastChews(readings: seq<Reading>): real
    requires readings != []
  {
    readings[|readings| - 1].chews
  }

  /** `finish_time = start_time + ideal_cook_length` */
  function FinishTime(readings: seq<Reading>): int
    requires readings != []
  {
    StartTime(readings) + IdealCookLength
  }

  /** The initial `n_periods`. */
  function StartPeriods(readings: seq<Reading>): nat
    requires readings != []
  {
    InitialPeriods(StartTime(readings), LastTime(readings))
  }

  /**
   * What the script prints from its three instants and its seed on: the
   * initial table, the extension loop when that table ends below the goal,
   * and the classification.
   */
  function Advise(last: int, finish: int, n0: nat, seed: real, goal: int, forecast: nat -> seq<real>, rate: real -> real, maxExtensions: nat): Result<Verdict>
  {
    match Predict(forecast, n0, seed, rate, goal)
    case Err(e) => Err(e)
    case Ok(p) =>
      if p.results == [] then Err(EmptyResults)
      else if LastChew(p) < goal as real then
        match Extend(Tables(forecast, seed, rate, goal), n0, goal, maxExtensions)
        case Err(e) => Err(e)
        case Ok(c) => Ok(LateVerdict(c.periods, last, finish))
      else if p.subResults != [] then Ok(EarlyVerdict(p.subResults[0].period, last, finish))
      else Ok(NoMessage)
  }

  /** What one run of the script prints, or the exception that stops it. */
  function Evaluate(readings: seq<Reading>, goal: int, forecast: nat -> seq<real>, rate: real -> real, maxExtensions: nat): Result<Verdict>
  {
    if readings == [] then Err(EmptyData)
    else Advise(LastTime(readings), FinishTime(readings), StartPeriods(readings), LastChews(readings), goal, forecast, rate, maxExtensions)
  }

  /** The script, statement by statement, on the frame `data`. */
  method Run(readings: seq<Reading>, goal: int, forecast: nat -> seq<real>, rate: real -> real, maxExtensions: nat)
    returns (r: Result<Verdict>)
    ensures r == Evaluate(readings, goal, forecast, rate, maxExtensions)
  {
    var data := new CookFrame(readings);
    data.ShiftOddRows();
    data.AddTimePassed();
    if |data.rows| == 0 {
      return Err(EmptyData);
    }
    assert data.rows[0] == Shifted(readings[0]);
    assert data.rows[|data.rows| - 1] == Shifted(readings[|readings| - 1]);
    var startTime := data.rows[0].datetime;
    var lastTime := data.rows[|data.rows| - 1].datetime;
    var finishTime := startTime + IdealCookLength;
    var nPeriods := InitialPeriods(startTime, lastTime);
    var seed := data.rows[|data.rows| - 1].chews;
    assert lastTime == LastTime(readings) && finishTime == FinishTime(readings);
    assert nPeriods == StartPeriods(readings) && seed == LastChews(readings);
    r := Advising(lastTime, finishTime, nPeriods, seed, goal, forecast, rate, maxExtensions);
  }

  /** The script from `predict_chews(n_periods)` on. */
  method Advising(last: int, finish: int, n0: nat, seed: real, goal: int, forecast: nat -> seq<real>, rate: real -> real, maxExtensions: nat)
    returns (r: Result<Verdict>)
    ensures r == Advise(last, finish, n0, seed, goal, forecast, rate, maxExtensions)
  {
    var first := PredictChews(forecast, n0, seed, rate, goal);
    if first.Err? {
      return Err(first.error);
    }
    var results := first.value.results;
    if |results| == 0 {
      return Err(EmptyResults);
    }
    var lastChew := results[|results| - 1].chews;
    if lastChew < goal as real {
      var crossing := ExtendHorizon(forecast, n0, seed, rate, goal, maxExtensions);
      if crossing.Err? {
        return Err(crossing.error);
      }
      r := Ok(LateVerdict(crossing.value.periods, last, finish));
    } else if |first.value.subResults| > 0 {
      r := Ok(EarlyVerdict(first.value.subResults[0].period, last, finish));
    } else {
      r := Ok(NoMessage);
    }
  }

  /**
   * The script always prints one of its messages or raises: when the last
   * CHEWS is not below the goal, the last row is itself in `sub_results`,
   * so the `elif` branch runs.
   */
  lemma AlwaysAdvises(readings: seq<Reading>, goal: int, forecast: nat -> seq<real>, rate: real -> real, maxExtensions: nat)
    ensures Evaluate(readings, goal, forecast, rate, maxExtensions) != Ok(NoMessage)
  {
    if readings != [] {
      var r := Predict(forecast, StartPeriods(readings), LastChews(readings), rate, goal);
      if r.Ok? && r.value.results != [] && LastChew(r.value) >= goal as real {
        var rows := r.value.results;
        FilterExact(rows, goal, rows[|rows| - 1]);
      }
    }
  }

  /**
   * A zero initial horizon (the last reading less than one period before the
   * finish time, modulo a day) leaves `results` empty, and
   * `results.CHEWS.iloc[-1]` fails.
   */
  lemma ZeroHorizonFails(readings: seq<Reading>, goal: int, forecast: nat -> seq<real>, rate: real -> real, maxExtensions: nat)
    requires readings != [] && StartPeriods(readings) == 0
    requires |forecast(0)| == 0
    ensures Evaluate(readings, goal, forecast, rate, maxExtensions) == Err(EmptyResults)
  {
    assert InsertionOrder(forecast(0)) == [];
  }

  /**
   * When the initial table ends below the goal and the extension loop stops,
   * the verdict is the late branch's at the least horizon above n0 whose
   * table meets the goal, and it says "increase heat" exactly when that
   * horizon exceeds 20 minutes of periods.
   */
  lemma LateVerdictAtLeastHorizon(readings: seq<Reading>, goal: int, forecast: nat -> seq<real>, rate: real -> real, maxExtensions: nat, p: Prediction, c: Crossing)
    requires readings != []
    requires Predict(forecast, StartPeriods(readings), LastChews(readings), rate, goal) == Ok(p)
    requires p.results != [] && LastChew(p) < goal as real
    requires Extend(Tables(forecast, LastChews(readings), rate, goal), StartPeriods(readings), goal, maxExtensions) == Ok(c)
    ensures StartPeriods(readings) < c.periods <= StartPeriods(readings) + maxExtensions
    ensures Predict(forecast, c.periods, LastChews(readings), rate, goal) == Ok(c.prediction)
    ensures c.prediction.results != [] && LastChew(c.prediction) >= goal as real
    ensures forall k :: StartPeriods(readings) < k < c.periods ==> BelowGoal(Tables(forecast, LastChews(readings), rate, goal), k, goal)
    ensures Evaluate(readings, goal, forecast, rate, maxExtensions) == Ok(LateVerdict(c.periods, LastTime(readings), FinishTime(readings)))
    ensures LateVerdict(c.periods, LastTime(readings), FinishTime(readings)).IncreaseHeat? <==> c.periods > ToleranceMinutes * ReadingsPerMinute
  {
    ExtendFindsLeastHorizon(Tables(forecast, LastChews(readings), rate, goal), StartPeriods(readings), goal, maxExtensions);
  }

  /**
   * When the initial horizon reaches the goal and the finish time lies less
   * than a day after the last reading, the verdict is the early branch's at
   * the first period k whose progress meets the goal; its projected time is
   * no later than the finish, and "decrease heat" means finishing more than
   * 20 minutes early.
   */
  lemma EarlyVerdictAtFirstCrossing(readings: seq<Reading>, goal: int, forecast: nat -> seq<real>, rate: real -> real, maxExtensions: nat, p: Prediction)
    returns (k: nat)
    requires readings != []
    requires 0 <= FinishTime(readings) - LastTime(readings) < SecondsPerDay
    requires |forecast(StartPeriods(readings))| == StartPeriods(readings)
    requires Predict(forecast, StartPeriods(readings), LastChews(readings), rate, goal) == Ok(p)
    requires p.results != [] && LastChew(p) >= goal as real
    ensures 1 <= k <= StartPeriods(readings)
    ensures Total(LastChews(readings), rate, forecast(StartPeriods(readings)), k) >= goal as real
    ensures forall j :: 1 <= j < k ==> Total(LastChews(readings), rate, forecast(StartPeriods(readings)), j) < goal as real
    ensures Evaluate(readings, goal, forecast, rate, maxExtensions) == Ok(EarlyVerdict(k, LastTime(readings), FinishTime(readings)))
    ensures Projected(LastTime(readings), k) <= FinishTime(readings)
    ensures EarlyVerdict(k, LastTime(readings), FinishTime(readings)).DecreaseHeat?
      <==> FinishTime(readings) - Projected(LastTime(readings), k) > ToleranceMinutes * 60
  {
    var rows := p.results;
    FilterExact(rows, goal, rows[|rows| - 1]);
    k := EarlyBranchPeriod(forecast, StartPeriods(readings), LastChews(readings), rate, goal, p);
    PeriodsEndBeforeFinish(StartTime(readings), LastTime(readings), k);
    EarlyBranchWithoutWrap(k, LastTime(readings), FinishTime(readings));
  }

  /** The period the early branch reports is the first crossing of the initial table. */
  lemma EarlyBranchPeriod(forecast: nat -> seq<real>, n0: nat, seed: real, rate: real -> real, goal: int, p: Prediction)
    returns (k: nat)
    requires |forecast(n0)| == n0
    requires Predict(forecast, n0, seed, rate, goal) == Ok(p)
    requires p.subResults != []
    ensures k == p.subResults[0].period && 1 <= k <= n0
    ensures Total(seed, rate, forecast(n0), k) >= goal as real
    ensures forall j :: 1 <= j < k ==> Total(seed, rate, forecast(n0), j) < goal as real
  {
    FirstCrossing(forecast, n0, seed, rate, goal);
    k := p.subResults[0].period;
  }
}
