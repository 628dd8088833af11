/**
 * `predict_chews`: turns a forecast of n temperatures into a table of
 * cumulative doneness ("chews") per forecast period, through a dictionary
 * keyed by the predicted temperature, and picks out the rows that meet the
 * doneness goal.
 *
 * The forecaster is a function `forecast(n)` giving n temperatures (not
 * assumed prefix-stable across n); the power-law rate is a function `rate`.
 */
module Chews {
  import opened Prelude

  /** A row of `results`: PERIOD_NUMBER, PRED_INTERNAL_TEMP, CHEWS. */
  datatype Row = Row(period: nat, predTemp: real, chews: real)

  /** `predict_chews`' pair of frames: the whole table and the goal-meeting rows. */
  datatype Prediction = Prediction(results: seq<Row>, subResults: seq<Row>)

  predicate Distinct(s: seq<real>)
  {
    forall i, j :: 0 <= i < j < |s| ==> s[i] != s[j]
  }

  /** The sum of the rates of a run of forecast temperatures. */
  function RateSum(rate: real -> real, pred: seq<real>): real
  {
    if pred == [] then 0.0 else RateSum(rate, pred[..|pred| - 1]) + rate(pred[|pred| - 1])
  }

  /** The running doneness total after the first i forecasts, seeded from the last historical CHEWS. */
  function Total(seed: real, rate: real -> real, pred: seq<real>, i: nat): real
    requires i <= |pred|
  {
    seed + RateSum(rate, pred[..i]) / ReadingsPerMinute as real
  }

  lemma RateSumStep(rate: real -> real, pred: seq<real>, i: nat)
    requires i < |pred|
    ensures RateSum(rate, pred[..i + 1]) == RateSum(rate, pred[..i]) + rate(pred[i])
  {
    assert pred[..i + 1][..i] == pred[..i];
  }

  /** The keys of `pred_dict` in insertion order: each distinct forecast, at its first occurrence. */
  function InsertionOrder(pred: seq<real>): (keys: seq<real>)
  {
    if pred == [] then []
    else
      var keys := InsertionOrder(pred[..|pred| - 1]);
      var x := pred[|pred| - 1];
      if x in keys then keys else keys + [x]
  }

  /** `pred_dict` after the loop: every forecast value maps to the running total last stored under it. */
  function DictAfter(seed: real, rate: real -> real, pred: seq<real>): (d: map<real, real>)
  {
    if pred == [] then map[]
    else DictAfter(seed, rate, pred[..|pred| - 1])[pred[|pred| - 1] := Total(seed, rate, pred, |pred|)]
  }

  /** The insertion order lists every distinct forecast value exactly once. */
  lemma {:induction false} KeyOrderFacts(pred: seq<real>)
    ensures forall x :: x in InsertionOrder(pred) <==> x in pred
    ensures Distinct(InsertionOrder(pred))
    ensures |InsertionOrder(pred)| <= |pred|
  {
    if pred != [] {
      var q := pred[..|pred| - 1];
      assert pred == q + [pred[|pred| - 1]];
      KeyOrderFacts(q);
    }
  }

  /** The dictionary has a key for every forecast value and for nothing else. */
  lemma {:induction false} DictKeyFacts(seed: real, rate: real -> real, pred: seq<real>)
    ensures forall x :: x in DictAfter(seed, rate, pred) <==> x in pred
    ensures forall i :: 0 <= i < |InsertionOrder(pred)| ==> InsertionOrder(pred)[i] in DictAfter(seed, rate, pred)
  {
    if pred != [] {
      var q := pred[..|pred| - 1];
      assert pred == q + [pred[|pred| - 1]];
      DictKeyFacts(seed, rate, q);
    }
    KeyOrderFacts(pred);
  }

  /** `results[results['CHEWS'] >= doneness_goal]`: the rows meeting the goal, in table order. */
  function Filter(rows: seq<Row>, goal: int): seq<Row>
  {
    if rows == [] then []
    else (if rows[0].chews >= goal as real then [rows[0]] else []) + Filter(rows[1..], goal)
  }

  /** The frame built from the dictionary's items, numbered from period 1. */
  function Table(keys: seq<real>, dict: map<real, real>): (rows: seq<Row>)
    requires forall i :: 0 <= i < |keys| ==> keys[i] in dict
  {
    seq(|keys|, i requires 0 <= i < |keys| => Row(i + 1, keys[i], dict[keys[i]]))
  }

  /**
   * What `predict_chews(n)` returns. The frame is built from the dictionary's
   * items against the index 1..n, so it fails unless there are n keys.
   */
  function Predict(forecast: nat -> seq<real>, n: nat, seed: real, rate: real -> real, goal: int): (r: Result<Prediction>)
    ensures r.Ok? ==> |r.value.results| == n
    ensures r.Ok? ==> forall i :: 0 <= i < n ==> r.value.results[i].period == i + 1
  {
    var pred := forecast(n);
    var keys := InsertionOrder(pred);
    if |keys| != n then Err(ShapeMismatch(|keys|, n))
    else
      DictKeyFacts(seed, rate, pred);
      var results := Table(keys, DictAfter(seed, rate, pred));
      Ok(Prediction(results, Filter(results, goal)))
  }

  /** `predict_chews`: one loop step per forecast, updating the running total and the dictionary. */
  method PredictChews(forecast: nat -> seq<real>, n: nat, seed: real, rate: real -> real, goal: int)
    returns (r: Result<Prediction>)
    ensures r == Predict(forecast, n, seed, rate, goal)
  {
    var pred := forecast(n);
    var totalDoneness := seed;
    var predDict: map<real, real> := map[];
    var keys: seq<real> := [];
    var i := 0;
    while i < |pred|
      invariant 0 <= i <= |pred|
      invariant totalDoneness == Total(seed, rate, pred, i)
      invariant keys == InsertionOrder(pred[..i])
      invariant predDict == DictAfter(seed, rate, pred[..i])
    {
      var record := pred[i];
      var velocity := rate(record);
      PrefixStep(seed, rate, pred, i);
      SeenIffInDict(seed, rate, pred, i);
      totalDoneness := totalDoneness + velocity / ReadingsPerMinute as real;
      if record !in predDict {
        keys := keys + [record];
      }
      predDict := predDict[record := totalDoneness];
      i := i + 1;
    }
    assert pred[..i] == pred;
    PredictFromLoop(forecast, n, seed, rate, goal, keys, predDict);
    if |keys| != n {
      return Err(ShapeMismatch(|keys|, n));
    }
    var results := Table(keys, predDict);
    r := Ok(Prediction(results, Filter(results, goal)));
  }

  /** `predict_chews` from the key order and the dictionary its loop leaves behind. */
  lemma PredictFromLoop(forecast: nat -> seq<real>, n: nat, seed: real, rate: real -> real, goal: int, keys: seq<real>, dict: map<real, real>)
    requires keys == InsertionOrder(forecast(n)) && dict == DictAfter(seed, rate, forecast(n))
    ensures forall i :: 0 <= i < |keys| ==> keys[i] in dict
    ensures |keys| != n ==> Predict(forecast, n, seed, rate, goal) == Err(ShapeMismatch(|keys|, n))
    ensures |keys| == n ==> Predict(forecast, n, seed, rate, goal) == Ok(Prediction(Table(keys, dict), Filter(Table(keys, dict), goal)))
  {
    DictKeyFacts(seed, rate, forecast(n));
  }

  // ----- the dictionary -----

  /** Forecast i is already a key exactly when it occurred among the earlier forecasts. */
  lemma SeenIffInDict(seed: real, rate: real -> real, pred: seq<real>, i: nat)
    requires i < |pred|
    ensures pred[i] in DictAfter(seed, rate, pred[..i]) <==> pred[i] in pred[..i]
  {
    var x := pred[i];
    DictKeyFacts(seed, rate, pred[..i]);
    assert x in DictAfter(seed, rate, pred[..i]) <==> x in pred[..i];
  }

  /** One loop step: the running total, the key order and the dictionary after forecast i. */
  lemma PrefixStep(seed: real, rate: real -> real, pred: seq<real>, i: nat)
    requires i < |pred|
    ensures Total(seed, rate, pred, i + 1) == Total(seed, rate, pred, i) + rate(pred[i]) / ReadingsPerMinute as real
    ensures InsertionOrder(pred[..i + 1]) ==
      if pred[i] in pred[..i] then InsertionOrder(pred[..i]) else InsertionOrder(pred[..i]) + [pred[i]]
    ensures DictAfter(seed, rate, pred[..i + 1]) == DictAfter(seed, rate, pred[..i])[pred[i] := Total(seed, rate, pred, i + 1)]
  {
    RateSumStep(rate, pred, i);
    KeyOrderFacts(pred[..i]);
    assert pred[..i + 1][..i] == pred[..i];
    assert pred[..i + 1][..i + 1] == pred[..i + 1];
  }

  /** All n forecasts become keys exactly when they are pairwise distinct, and then in forecast order. */
  lemma {:induction false} InsertionOrderFullIffDistinct(pred: seq<real>)
    ensures |InsertionOrder(pred)| == |pred| <==> Distinct(pred)
    ensures Distinct(pred) ==> InsertionOrder(pred) == pred
  {
    if pred != [] {
      var q := pred[..|pred| - 1];
      var x := pred[|pred| - 1];
      assert pred == q + [x];
      InsertionOrderFullIffDistinct(q);
      KeyOrderFacts(q);
      if x in q {
        var k :| 0 <= k < |q| && q[k] == x;
        assert pred[k] == pred[|pred| - 1];
      } else {
        if Distinct(q) {
          assert Distinct(pred);
        }
      }
    }
  }

  /** A repeated forecast keeps the slot of its first occurrence but takes the newer total. */
  lemma RepeatKeepsSlotTakesNewTotal(seed: real, rate: real -> real, pred: seq<real>, x: real)
    requires x in pred
    ensures InsertionOrder(pred + [x]) == InsertionOrder(pred)
    ensures DictAfter(seed, rate, pred + [x])[x] == Total(seed, rate, pred + [x], |pred| + 1)
  {
    KeyOrderFacts(pred);
    assert (pred + [x])[..|pred|] == pred;
  }

  /** A new forecast value is appended after all earlier keys. */
  lemma NewValueAppendsSlot(pred: seq<real>, x: real)
    requires x !in pred
    ensures InsertionOrder(pred + [x]) == InsertionOrder(pred) + [x]
  {
    KeyOrderFacts(pred);
    assert (pred + [x])[..|pred|] == pred;
  }

  /** The dictionary holds, for a forecast value, the running total at its last occurrence. */
  lemma {:induction false} DictHoldsLastTotal(seed: real, rate: real -> real, pred: seq<real>, j: nat)
    requires j < |pred|
    requires forall k :: j < k < |pred| ==> pred[k] != pred[j]
    ensures pred[j] in DictAfter(seed, rate, pred)
    ensures DictAfter(seed, rate, pred)[pred[j]] == Total(seed, rate, pred, j + 1)
  {
    if j < |pred| - 1 {
      var q := pred[..|pred| - 1];
      DictHoldsLastTotal(seed, rate, q, j);
      assert q[..j + 1] == pred[..j + 1];
    }
  }

  // ----- the table -----

  /**
   * When the forecaster returns n values the table is well formed exactly
   * when they are pairwise distinct; row i is then period i + 1 with the
   * seed plus the first i + 1 rates over readings per minute.
   */
  lemma PredictRows(forecast: nat -> seq<real>, n: nat, seed: real, rate: real -> real, goal: int)
    requires |forecast(n)| == n
    ensures var r := Predict(forecast, n, seed, rate, goal);
      && (r.Ok? <==> Distinct(forecast(n)))
      && (r.Err? ==> r.error.ShapeMismatch? && r.error.pairs < n)
      && (r.Ok? ==> forall i :: 0 <= i < n ==> r.value.results[i] == Row(i + 1, forecast(n)[i], Total(seed, rate, forecast(n), i + 1)))
  {
    var pred := forecast(n);
    InsertionOrderFullIffDistinct(pred);
    KeyOrderFacts(pred);
    if Distinct(pred) {
      forall i | 0 <= i < n
        ensures pred[i] in DictAfter(seed, rate, pred) && DictAfter(seed, rate, pred)[pred[i]] == Total(seed, rate, pred, i + 1)
      {
        DictHoldsLastTotal(seed, rate, pred, i);
      }
    }
  }

  /** With non-negative rates the running total never decreases and never drops below the seed. */
  lemma {:induction false} TotalMonotone(seed: real, rate: real -> real, pred: seq<real>, i: nat, j: nat)
    requires i <= j <= |pred|
    requires forall k :: 0 <= k < |pred| ==> 0.0 <= rate(pred[k])
    ensures seed <= Total(seed, rate, pred, i) <= Total(seed, rate, pred, j)
  {
    if j > 0 {
      RateSumStep(rate, pred, j - 1);
      if i < j {
        TotalMonotone(seed, rate, pred, i, j - 1);
      } else {
        TotalMonotone(seed, rate, pred, j - 1, j - 1);
      }
    }
  }

  /**
   * For a rate that is non-negative on non-negative temperatures and a
   * non-negative forecast, the CHEWS column is non-decreasing and never below
   * the seed.
   */
  lemma ResultsNonDecreasing(forecast: nat -> seq<real>, n: nat, seed: real, rate: real -> real, goal: int)
    requires |forecast(n)| == n
    requires forall t: real :: 0.0 <= t ==> 0.0 <= rate(t)
    requires forall k :: 0 <= k < n ==> 0.0 <= forecast(n)[k]
    ensures var r := Predict(forecast, n, seed, rate, goal);
      r.Ok? ==> forall a, b :: 0 <= a <= b < n ==> seed <= r.value.results[a].chews <= r.value.results[b].chews
  {
    var pred := forecast(n);
    var r := Predict(forecast, n, seed, rate, goal);
    PredictRows(forecast, n, seed, rate, goal);
    if r.Ok? {
      var rows := r.value.results;
      assert forall k :: 0 <= k < |pred| ==> 0.0 <= rate(pred[k]);
      forall a, b | 0 <= a <= b < n
        ensures seed <= rows[a].chews <= rows[b].chews
      {
        TotalMonotone(seed, rate, pred, a + 1, b + 1);
        assert rows[a].chews == Total(seed, rate, pred, a + 1);
        assert rows[b].chews == Total(seed, rate, pred, b + 1);
      }
    }
  }

  // ----- the goal-meeting rows -----

  /** The filter keeps a row exactly when it is in the table and meets the goal. */
  lemma {:induction false} FilterExact(rows: seq<Row>, goal: int, x: Row)
    ensures x in Filter(rows, goal) <==> x in rows && x.chews >= goal as real
  {
    if rows != [] {
      FilterExact(rows[1..], goal, x);
      assert rows == [rows[0]] + rows[1..];
    }
  }

  predicate PeriodsIncrease(rows: seq<Row>)
  {
    forall a, b :: 0 <= a < b < |rows| ==> rows[a].period < rows[b].period
  }

  /** The filter keeps the table's period order. */
  lemma {:induction false} FilterKeepsOrder(rows: seq<Row>, goal: int)
    requires PeriodsIncrease(rows)
    ensures PeriodsIncrease(Filter(rows, goal))
  {
    if rows != [] {
      var rest := rows[1..];
      assert PeriodsIncrease(rest);
      FilterKeepsOrder(rest, goal);
      forall y | y in Filter(rest, goal)
        ensures rows[0].period < y.period
      {
        FilterExact(rest, goal, y);
        var k :| 0 <= k < |rest| && rest[k] == y;
        assert rows[k + 1] == y;
      }
    }
  }

  /**
   * `sub_results` holds exactly the goal-meeting rows of `results`, in period
   * order; it is empty exactly when no row meets the goal.
   */
  lemma SubResultsExact(forecast: nat -> seq<real>, n: nat, seed: real, rate: real -> real, goal: int)
    ensures Predict(forecast, n, seed, rate, goal).Ok? ==>
      var p := Predict(forecast, n, seed, rate, goal).value;
      && (forall x :: x in p.subResults <==> x in p.results && x.chews >= goal as real)
      && PeriodsIncrease(p.subResults)
      && (p.subResults == [] <==> forall i :: 0 <= i < n ==> p.results[i].chews < goal as real)
  {
    var r := Predict(forecast, n, seed, rate, goal);
    if r.Ok? {
      FilterFacts(r.value.results, goal);
    }
  }

  /** The goal filter of a table numbered from period 1. */
  lemma FilterFacts(rows: seq<Row>, goal: int)
    requires forall i :: 0 <= i < |rows| ==> rows[i].period == i + 1
    ensures forall x :: x in Filter(rows, goal) <==> x in rows && x.chews >= goal as real
    ensures PeriodsIncrease(Filter(rows, goal))
    ensures Filter(rows, goal) == [] <==> forall i :: 0 <= i < |rows| ==> rows[i].chews < goal as real
  {
    forall x
      ensures x in Filter(rows, goal) <==> x in rows && x.chews >= goal as real
    {
      FilterExact(rows, goal, x);
    }
    FilterKeepsOrder(rows, goal);
    if Filter(rows, goal) == [] {
      forall i | 0 <= i < |rows|
        ensures rows[i].chews < goal as real
      {
        FilterExact(rows, goal, rows[i]);
      }
    } else {
      var y := Filter(rows, goal)[0];
      FilterExact(rows, goal, y);
      var i :| 0 <= i < |rows| && rows[i] == y;
    }
  }

  /**
   * `sub_results.PERIOD_NUMBER.iloc[0]` is the smallest period whose
   * cumulative doneness meets the goal.
   */
  lemma FirstCrossing(forecast: nat -> seq<real>, n: nat, seed: real, rate: real -> real, goal: int)
    requires |forecast(n)| == n
    requires Predict(forecast, n, seed, rate, goal).Ok?
    requires Predict(forecast, n, seed, rate, goal).value.subResults != []
    ensures var first := Predict(forecast, n, seed, rate, goal).value.subResults[0];
      && 1 <= first.period <= n
      && first.chews == Total(seed, rate, forecast(n), first.period) >= goal as real
      && forall k :: 1 <= k < first.period ==> Total(seed, rate, forecast(n), k) < goal as real
  {
    var pred := forecast(n);
    var p := Predict(forecast, n, seed, rate, goal).value;
    var rows := p.results;
    PredictRows(forecast, n, seed, rate, goal);
    var j := FilterHeadIsFirstMeeting(rows, goal);
    assert rows[j] == Row(j + 1, pred[j], Total(seed, rate, pred, j + 1));
    forall k | 1 <= k < j + 1
      ensures Total(seed, rate, pred, k) < goal as real
    {
      assert rows[k - 1] == Row(k, pred[k - 1], Total(seed, rate, pred, k));
    }
  }

  /** The first kept row sits at the first index whose row meets the goal. */
  lemma {:induction false} FilterHeadIsFirstMeeting(rows: seq<Row>, goal: int) returns (j: nat)
    requires Filter(rows, goal) != []
    ensures j < |rows| && Filter(rows, goal)[0] == rows[j] && rows[j].chews >= goal as real
    ensures forall k :: 0 <= k < j ==> rows[k].chews < goal as real
  {
    if rows[0].chews >= goal as real {
      j := 0;
    } else {
      var j' := FilterHeadIsFirstMeeting(rows[1..], goal);
      j := j' + 1;
    }
  }
}
