# Cook-time forecast: decision skeleton in Dafny

This project models the forecast script `Phidget22Python/time_remaining_model.py` of the
phidget_log repository. The script takes the temperature readings of a long cook and projects
when the cumulative doneness score ("CHEWS") will reach the user's doneness goal. It then advises
whether to raise the heat, lower it, or leave it, measured against a finish time 12 hours after
the first reading.

The statistical parts of the script are abstracted:

- LOWESS smoothing plus the fitted ARIMA model become `forecast: nat -> seq<real>`. `forecast(n)`
  gives the n predicted temperatures. It is not assumed to agree on common prefixes for
  different n.
- The power law `7.048e-17 * t ** 7.29007299056` becomes `rate: real -> real`.

Everything else is modelled without further abstraction, except floating-point rounding (see "## Left out"):

- instants and durations are whole seconds;
- progress is a Dafny `real`;
- `readings_per_minute` is the source's constant 2, so one period is 30 seconds.

Modules follow the script's stages:

- `Prelude`: the failures, the constants, and pandas' `Timedelta.seconds`.
- `Series`: the reading frame as a class, with the in-place DATETIME shift and the TIME_PASSED
  column.
- `Chews`: `predict_chews`. Its loop fills a running total and a dictionary keyed by predicted
  temperature, and a filter picks the goal-meeting rows. The method is proved equal to the
  specification function `Predict`, and the table's properties are lemmas about `Predict`.
- `Horizon`: the initial period count and the extension `while` loop. The loop is proved equal to
  the recursive specification `Extend`. `Extend` is stated over any family of tables
  `tables: nat -> Result<Prediction>`, and `Tables` instantiates it with `predict_chews`. The
  lemmas about `Extend` show that it stops at the least horizon that reaches the goal.
- `Schedule`: the two asymmetric classification branches.
- `Script`: the whole run. `Run` prepares the frame and `Advising` runs the rest of the script.
  Together they are proved equal to the specification `Evaluate` and its `Advise` part.

## Model

| member | source | states |
|---|---|---|
| `Prelude.WithinDaySeconds` | Phidget22Python/time_remaining_model.py:56 | `Timedelta.seconds` lies in [0, 86400), differs from the delta by whole days, and is the delta itself when the delta is already within one day |
| `Series.ShiftSpacesPairedReadings` | Phidget22Python/time_remaining_model.py:39-42 | readings stamped in pairs once a minute, numbered 0, 1, 2, …, end up exactly one sampling period (60/rpm s) apart after the odd-row shift |
| `Series.Shifted` | Phidget22Python/time_remaining_model.py:39-41 | specification of the per-row DATETIME correction; its properties are the contracts of `ShiftOddRows` and `ShiftSpacesPairedReadings` |
| `Series.CookFrame.constructor` | Phidget22Python/time_remaining_model.py:33 | the frame holds the readings in order, with no TIME_PASSED column yet |
| `Series.CookFrame.ShiftOddRows` | Phidget22Python/time_remaining_model.py:39-42 | rows with odd COOK_INDEX gain exactly 60/rpm seconds; even rows keep their DATETIME; no other column and no row count changes |
| `Series.CookFrame.AddTimePassed` | Phidget22Python/time_remaining_model.py:44-46 | TIME_PASSED has one entry per row: the within-day seconds of (tᵢ − t₀), always in [0, 86400), and 0 on the first row; the rows are unchanged |
| `Chews.PredictChews` | Phidget22Python/time_remaining_model.py:78-108 | the loop's running total, key list and dictionary give exactly the table and sub-table of `Predict`, including the shape-mismatch failure |
| `Chews.Predict` | Phidget22Python/time_remaining_model.py:97-103 | a successful table has exactly n rows, and row i carries the PERIOD_NUMBER label i+1 |
| `Chews.PredictFromLoop` | Phidget22Python/time_remaining_model.py:97-108 | with the key order and dictionary the loop leaves, every key is in the dictionary, and the frames fail with the shape error or are the numbered items and their goal filter |
| `Chews.SeenIffInDict` | Phidget22Python/time_remaining_model.py:95 | forecast i is already a dictionary key exactly when it occurred among the earlier forecasts |
| `Chews.RateSum` | Phidget22Python/time_remaining_model.py:89-93 | specification of the sum of the velocities the loop adds; its properties are the contracts of `RateSumStep`, `RateSumAtLeast` and `TotalMonotone` |
| `Chews.Total` | Phidget22Python/time_remaining_model.py:83-93 | specification of `total_doneness` after the first i forecasts, seeded with `data['CHEWS'].iloc[-1]`; its properties are the contracts of `PrefixStep`, `TotalMonotone`, `TotalAtLeast` and `PredictRows` |
| `Chews.InsertionOrder` | Phidget22Python/time_remaining_model.py:87-95 | specification of the key order of `pred_dict`; its properties are the contracts of `KeyOrderFacts`, `InsertionOrderFullIffDistinct`, `NewValueAppendsSlot` and `RepeatKeepsSlotTakesNewTotal` |
| `Chews.DictAfter` | Phidget22Python/time_remaining_model.py:87-95 | specification of the contents of `pred_dict`; its properties are the contracts of `DictKeyFacts`, `DictHoldsLastTotal`, `SeenIffInDict` and `RepeatKeepsSlotTakesNewTotal` |
| `Chews.Table` | Phidget22Python/time_remaining_model.py:98-103 | specification of the frame of `pred_dict.items()` over the index 1..n with `reset_index`/`rename`; its properties are the contracts of `Predict` and `PredictRows` |
| `Chews.RateSumStep` | Phidget22Python/time_remaining_model.py:89-93 | the rate sum over the first i+1 forecasts is the sum over the first i plus the rate of forecast i |
| `Chews.PrefixStep` | Phidget22Python/time_remaining_model.py:88-95 | one loop step adds rate/rpm to the total, appends the forecast to the key order only if it is new, and stores the new total under it |
| `Chews.KeyOrderFacts` | Phidget22Python/time_remaining_model.py:87-95 | the dictionary's insertion order lists every forecast value exactly once, with no more keys than forecasts |
| `Chews.DictKeyFacts` | Phidget22Python/time_remaining_model.py:87-95 | the dictionary has a key for every forecast value and for nothing else |
| `Chews.InsertionOrderFullIffDistinct` | Phidget22Python/time_remaining_model.py:95-100 | there are as many pairs as forecasts if and only if the forecasts are pairwise distinct, and then the keys are the forecasts in order |
| `Chews.RepeatKeepsSlotTakesNewTotal` | Phidget22Python/time_remaining_model.py:95 | a repeated forecast value keeps the slot of its first insertion but now holds the later cumulative total |
| `Chews.NewValueAppendsSlot` | Phidget22Python/time_remaining_model.py:95 | a forecast value not seen before is appended after all earlier keys |
| `Chews.DictHoldsLastTotal` | Phidget22Python/time_remaining_model.py:88-95 | the dictionary holds, for a forecast value, the running total at its last occurrence |
| `Chews.PredictRows` | Phidget22Python/time_remaining_model.py:83-103 | with n forecasts the table is well formed exactly when they are pairwise distinct; otherwise the failure reports fewer than n pairs; row i is period i+1 with seed + (sum of the first i+1 rates)/rpm |
| `Chews.TotalMonotone` | Phidget22Python/time_remaining_model.py:88-93 | with non-negative rates the running total never decreases and never drops below the seed |
| `Chews.ResultsNonDecreasing` | Phidget22Python/time_remaining_model.py:83-103 | for a rate non-negative on non-negative temperatures and non-negative forecasts, the CHEWS column is non-decreasing and at least the last historical CHEWS |
| `Chews.Filter` | Phidget22Python/time_remaining_model.py:106 | specification of the boolean-mask selection; its properties are the contracts of `FilterExact`, `FilterKeepsOrder`, `FilterHeadIsFirstMeeting` and `FilterFacts` |
| `Chews.FilterExact` | Phidget22Python/time_remaining_model.py:106 | a row is in the goal filter exactly when it is in the table and its CHEWS ≥ goal |
| `Chews.FilterKeepsOrder` | Phidget22Python/time_remaining_model.py:106 | the filter keeps strictly increasing period numbers |
| `Chews.FilterHeadIsFirstMeeting` | Phidget22Python/time_remaining_model.py:106 | the first filtered row is the first table row that meets the goal |
| `Chews.FilterFacts` | Phidget22Python/time_remaining_model.py:106 | for any table numbered from period 1, the filter keeps exactly the goal-meeting rows, in increasing period order, and is empty exactly when no row meets the goal |
| `Chews.SubResultsExact` | Phidget22Python/time_remaining_model.py:106 | `sub_results` holds exactly the goal-meeting rows of `results`, in period order, and is empty exactly when no row meets the goal |
| `Chews.FirstCrossing` | Phidget22Python/time_remaining_model.py:141 | `sub_results.PERIOD_NUMBER.iloc[0]` is the smallest period k ≤ n whose cumulative progress meets the goal; every earlier period is below it |
| `Horizon.InitialPeriods` | Phidget22Python/time_remaining_model.py:56 | n0 = ⌊((finish − last) mod 86400) · rpm / 60⌋, written as the bounds n0·60 ≤ gap·rpm < (n0+1)·60 |
| `Horizon.PeriodsEndBeforeFinish` | Phidget22Python/time_remaining_model.py:53-56 | when 0 ≤ finish − last < 1 day, every period ≤ n0 projects to no later than the finish, and the gap needs no reduction modulo a day |
| `Horizon.Extend` | Phidget22Python/time_remaining_model.py:119-124 | specification of the capped extension loop; its properties are the contracts of `ExtendFindsLeastHorizon`, `ExtendTimesOutOnlyBelowGoal`, `ExtendFailsOnlyAtReachedHorizon`, `EnoughFuelMatchesUnboundedLoop` and `EnoughFuelReproducesException` |
| `Horizon.LastChew` | Phidget22Python/time_remaining_model.py:112 | specification of `results.CHEWS.iloc[-1]`, also line 124; its properties are the contract of `LastChewIsFinalTotal` |
| `Horizon.Tables` | Phidget22Python/time_remaining_model.py:78-108 | `predict_chews` as a function of the horizon; its properties are the contracts of `PredictFailsOnlyOnShape` and `NoEmptyExit` |
| `Horizon.ExtendHorizon` | Phidget22Python/time_remaining_model.py:119-124 | the loop (one more period and a fresh table per step) returns exactly `Extend` over the `predict_chews` tables with the same cap |
| `Horizon.ExtendStep` | Phidget22Python/time_remaining_model.py:121-124 | one iteration: an exception from the next table ends the loop with it; an empty table ends it with the `iloc[-1]` failure; otherwise the loop stops there when the goal is met and goes on from n+1 when it is not |
| `Horizon.ExtendFindsLeastHorizon` | Phidget22Python/time_remaining_model.py:119-124 | on exit the last CHEWS of the exit table meets the goal, the exit n is the least n > n0 with that property, and every horizon passed ended below the goal |
| `Horizon.ExtendTimesOutOnlyBelowGoal` | Phidget22Python/time_remaining_model.py:121-124 | when no table raises the cap's own error, reaching the cap means every capped horizon was computed and ended below the goal |
| `Horizon.ExtendFailsOnlyAtReachedHorizon` | Phidget22Python/time_remaining_model.py:121-124 | an exception other than the cap comes from the table, or the empty `iloc[-1]`, of a horizon k the loop actually reached, after only below-goal horizons |
| `Horizon.EnoughFuelMatchesUnboundedLoop` | Phidget22Python/time_remaining_model.py:121-124 | whenever the unbounded loop would stop at m, any cap of at least m − n0 gives that same exit and table |
| `Horizon.EnoughFuelReproducesException` | Phidget22Python/time_remaining_model.py:121-124 | whenever the unbounded loop would stop with an exception at horizon m, any cap of at least m − n0 raises that same exception |
| `Horizon.NoEmptyExit` | Phidget22Python/time_remaining_model.py:121-124 | the loop never ends with the empty `iloc[-1]` failure, because every table it computes has n+1 ≥ 1 rows |
| `Horizon.PredictFailsOnlyOnShape` | Phidget22Python/time_remaining_model.py:97-100 | `predict_chews` raises only the frame's shape error, never the cap's |
| `Horizon.GoalByLastHorizonAvoidsTimeout` | Phidget22Python/time_remaining_model.py:121-124 | if the running total of the last capped horizon meets the goal, the loop does not reach the cap |
| `Horizon.LastChewIsFinalTotal` | Phidget22Python/time_remaining_model.py:124 | `results.CHEWS.iloc[-1]` is the running total after all m forecasts |
| `Horizon.RateSumAtLeast` | Phidget22Python/time_remaining_model.py:89-93 | if every rate is at least δ, the sum of m rates is at least m·δ |
| `Horizon.TotalAtLeast` | Phidget22Python/time_remaining_model.py:89-93 | if every rate is at least δ, the running total after m forecasts is at least seed + m·δ/rpm |
| `Horizon.SearchEndsWithPositiveRates` | Phidget22Python/time_remaining_model.py:121-124 | if every forecast rate at the capped horizon is at least δ > 0 and that pace reaches the goal by then, the loop never hits the cap |
| `Schedule.Projected` | Phidget22Python/time_remaining_model.py:126-127 | specification of `last_time + Timedelta(minutes=periods / readings_per_minute)`, also used at line 142; it appears in the contracts of `LateVerdict` and `EarlyVerdict` |
| `Schedule.LateVerdict` | Phidget22Python/time_remaining_model.py:126-137 | "increase heat" iff n/rpm > 20, i.e. n > 40; projected = last + n periods; minutes late = n/rpm; "on track" reports the within-day minutes to the finish |
| `Schedule.EarlyVerdict` | Phidget22Python/time_remaining_model.py:142-152 | "decrease heat" iff (finish − projected).seconds > 20 min; otherwise "on track" after period/rpm minutes |
| `Schedule.LateBranchMeasuresWholeHorizon` | Phidget22Python/time_remaining_model.py:128-134 | with the last reading at 6 h and the crossing 5 minutes after the finish, the script still says "increase heat … 365 minutes late" |
| `Schedule.EarlyBranchWrapsPastFinish` | Phidget22Python/time_remaining_model.py:143-148 | when the projected time is 21 minutes after the finish, the within-day reduction reports 1419 minutes early and says "decrease heat" |
| `Schedule.EarlyBranchWithoutWrap` | Phidget22Python/time_remaining_model.py:143-152 | without wraparound, "decrease heat" iff the projected finish is more than 20 minutes early; otherwise "on track" |
| `Script.Evaluate` | Phidget22Python/time_remaining_model.py:37-152 | specification of one whole run; its properties are the contracts of `Run`, `AlwaysAdvises`, `ZeroHorizonFails`, `LateVerdictAtLeastHorizon` and `EarlyVerdictAtFirstCrossing` |
| `Script.Advise` | Phidget22Python/time_remaining_model.py:111-152 | specification of the script from `predict_chews(n_periods)` on; `Advising` is proved equal to it |
| `Script.StartTime` | Phidget22Python/time_remaining_model.py:53 | specification of `data.index[0]` after the shift; used in the contracts of `Run` and `EarlyVerdictAtFirstCrossing` |
| `Script.LastTime` | Phidget22Python/time_remaining_model.py:54 | specification of `data.index[-1]` after the shift; used in the contracts of `Run`, `LateVerdictAtLeastHorizon` and `EarlyVerdictAtFirstCrossing` |
| `Script.FinishTime` | Phidget22Python/time_remaining_model.py:55 | specification of `start_time + ideal_cook_length`; used in the contracts of `Run`, `LateVerdictAtLeastHorizon` and `EarlyVerdictAtFirstCrossing` |
| `Script.StartPeriods` | Phidget22Python/time_remaining_model.py:56 | the initial `n_periods`; its properties are the contract of `InitialPeriods` |
| `Script.LastChews` | Phidget22Python/time_remaining_model.py:83 | specification of `data['CHEWS'].iloc[-1]`, the seed of every running total; used in the contracts of `Run` and the script lemmas |
| `Script.Run` | Phidget22Python/time_remaining_model.py:37-56 | running the script step by step on the frame gives exactly `Evaluate`. That covers every exception: empty frame, shape mismatch, empty table, cap |
| `Script.Advising` | Phidget22Python/time_remaining_model.py:111-152 | from `predict_chews(n_periods)` on, the statements give exactly `Advise`: the initial table, the loop when it ends below the goal, and one of the two classification branches |
| `Script.AlwaysAdvises` | Phidget22Python/time_remaining_model.py:119-140 | the "neither branch" case never happens: when the last CHEWS is not below the goal, the last row is in `sub_results`, so the `elif` runs |
| `Script.ZeroHorizonFails` | Phidget22Python/time_remaining_model.py:111-112 | with n0 = 0 the table is empty and `results.CHEWS.iloc[-1]` fails |
| `Script.LateVerdictAtLeastHorizon` | Phidget22Python/time_remaining_model.py:119-137 | when the initial table ends below the goal and the loop stops, the verdict is the late branch at the least horizon above n0 whose table meets the goal; it says "increase heat" iff that horizon exceeds 40 periods |
| `Script.EarlyVerdictAtFirstCrossing` | Phidget22Python/time_remaining_model.py:140-152 | when the goal is reached within n0 and the finish is less than a day after the last reading, the verdict is the early branch at the first crossing period k; its projected time is ≤ finish, and "decrease heat" means more than 20 minutes early |
| `Script.EarlyBranchPeriod` | Phidget22Python/time_remaining_model.py:141 | the period the early branch reports is the first crossing of the initial table |

## Left out

- LOWESS smoothing (lines 59-63) and the `auto_arima` order search, fit and `predict` (lines 66-75, 80) are foreign library calls. They are the `forecast` parameter. Where a lemma needs it, the requirement is that `forecast(n)` returns n values. For a forecaster that returns fewer values, the model reports `ShapeMismatch`. For an empty forecast with n > 0, pandas may instead build an all-NaN frame of n rows. On the initial table the script then prints nothing. At an extension horizon k, the NaN last CHEWS ends the loop and the late branch reports horizon k. Neither case is modelled.
- The power law at line 89 is floating-point numerics, so it is the `rate` parameter. The monotonicity lemmas require it to be non-negative on non-negative temperatures, and the forecasts to be non-negative. For a negative temperature Python would produce a complex number, and that path is not modelled.
- Floating-point rounding is not modelled: totals are exact reals. The period count at line 56 still agrees with the integer formula ⌊s/30⌋ for s = `.seconds`, with 2 readings per minute:
  - when 30 divides s, s/60 = k/2 is exact in binary floating point, and so is the product by 2;
  - otherwise s/30 is at least 1/30 away from an integer, while the rounding error for s below 86400 is under 3·10⁻¹³, so `int()` still truncates to ⌊s/30⌋.
- `readings_per_minute` stays the source's constant 2. A rate that does not divide 60, which gives fractional-second periods, is not modelled.
- Timestamps are whole seconds. Sub-second parts of a pandas `Timedelta` are not modelled.
- `input()` at line 27, the `print` texts at lines 133-152, the `int(missing_goal)` formatting and `filterwarnings` at line 6 are I/O. Only the branch taken and the values reported are modelled.
- Lines 115-116 compute `finish_time_hi` and `finish_time_lo`, but nothing uses them. Both branches compare against the literal 20.
- The frame index juggling at lines 48-50, 102-103 is represented by the `period` field of a row and the `datetime` field of a reading.
- Line 33 sets `data` to an empty placeholder frame, so the script as written raises `KeyError` at line 37. The model instead takes as input rows with the columns documented at lines 14-17 (DATETIME, INTERNAL_TEMP, CHEWS), plus COOK_INDEX, which line 41 reads although the note does not list it.
- On an empty frame the script fails somewhere in pandas before it can read `data.index[0]`. The model reports a single `EmptyData` failure at that point.
- NaN forecasts are not modelled. They would become distinct dictionary keys by identity. Forecasts are reals compared by value.
- ExtendHorizon: the source loop at lines 121-124 has no bound. The model stops after `maxExtensions` extra periods with `HorizonSearchTimeout`. A large enough cap reproduces every run of the source loop that ends: `EnoughFuelMatchesUnboundedLoop` covers the runs that reach the goal, and `EnoughFuelReproducesException` the runs that end with an exception from `predict_chews`. `NoEmptyExit` shows that the model's empty-table exit never occurs inside the loop.
- Three behaviours of the code that the model follows:
  - the odd-row shift adds a full period, 60/rpm seconds;
  - there is no minimum-readings check;
  - the late branch measures the whole horizon n/rpm, not lateness past the finish time (`LateBranchMeasuresWholeHorizon`).
- `csv_logger.py` is not part of this model. It covers hardware callbacks, file I/O, SMS notification, the wall clock and a float Celsius conversion. Its doneness sum repeats the abstracted rate law.
- The `while True: sleep` keep-alive of the logger is not part of this model. Nothing here is concurrent.
