/**
 * Shared vocabulary of the cook-time forecast: the failures the script can
 * raise, its fixed constants, and pandas' within-day seconds of a time delta.
 * Instants and durations are whole seconds.
 */
module Prelude {

  /** The ways the script stops with an exception instead of printing advice. */
  datatype Failure =
    | EmptyData
      // the reading frame has no rows; pandas fails on the column
      // assignments before `data.index[0]` is read
    | ShapeMismatch(pairs: nat, periods: nat)
      // `pd.DataFrame(list(pred_dict.items()), index=range(1, n + 1))` got
      // `pairs` rows for an index of `periods` labels (assumed to raise;
      // with no pairs at all pandas may build an all-NaN frame instead)
    | EmptyResults
      // `results.CHEWS.iloc[-1]` on a forecast table with no rows
    | HorizonSearchTimeout
      // the extension loop used up its iteration cap

  datatype Result<T> = Ok(value: T) | Err(error: Failure)

  /** Sensor readings per minute; one forecast period lasts 60 / 2 = 30 seconds. */
  const ReadingsPerMinute: nat := 2
  const PeriodSeconds: nat := 60 / ReadingsPerMinute

  const SecondsPerDay: int := 86400

  /** The desired cook length: 12 hours from the first reading. */
  const IdealCookLength: int := 12 * 60 * 60

  /** The 20-minute window both classification branches compare against. */
  const ToleranceMinutes: int := 20

  /**
   * `Timedelta.seconds`: pandas keeps a delta as whole days (possibly
   * negative) plus a seconds component in [0, 86400); the latter is the
   * delta reduced modulo one day.
   */
  function WithinDaySeconds(delta: int): (s: int)
    ensures 0 <= s < SecondsPerDay
    ensures (delta - s) % SecondsPerDay == 0
    ensures 0 <= delta < SecondsPerDay ==> s == delta
  {
    delta % SecondsPerDay
  }
}
