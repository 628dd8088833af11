/**
 * Series preparation: the reading frame, the shift that moves every
 * odd-numbered reading one sampling period later, and the auxiliary
 * TIME_PASSED column.
 */
module Series {
  import opened Prelude

  /** One row of the reading frame: COOK_INDEX, DATETIME, INTERNAL_TEMP, CHEWS. */
  datatype Reading = Reading(cookIndex: int, datetime: int, internalTemp: real, chews: real)

  /** The row after the DATETIME correction: odd COOK_INDEX rows move one period later. */
  function Shifted(r: Reading): Reading
  {
    if r.cookIndex % 2 != 0 then r.(datetime := r.datetime + PeriodSeconds) else r
  }

  /**
   * Readings polled in pairs that share one timestamp each minute end up one
   * sampling period apart once the odd ones are shifted.
   */
  lemma ShiftSpacesPairedReadings(rows: seq<Reading>, base: int)
    requires forall i :: 0 <= i < |rows| ==> rows[i].cookIndex == i
    requires forall i :: 0 <= i < |rows| ==> rows[i].datetime == base + (i / 2) * 60
    ensures forall i :: 0 <= i < |rows| ==> Shifted(rows[i]).datetime == base + i * PeriodSeconds
  {
    forall i | 0 <= i < |rows|
      ensures Shifted(rows[i]).datetime == base + i * PeriodSeconds
    {
      assert i == 2 * (i / 2) + i % 2;
    }
  }

  /** The pandas frame `data`, whose columns the script rewrites in place. */
  class CookFrame {
    var rows: seq<Reading>
    var timePassed: seq<int>

    constructor (readings: seq<Reading>)
      ensures rows == readings && timePassed == []
    {
      rows := readings;
      timePassed := [];
    }

    /** `data['DATETIME'] = data.apply(...)`: odd rows gain 60 / rpm seconds. */
    method ShiftOddRows()
      modifies this
      ensures |rows| == |old(rows)|
      ensures forall i :: 0 <= i < |rows| ==>
        && rows[i].cookIndex == old(rows)[i].cookIndex
        && rows[i].internalTemp == old(rows)[i].internalTemp
        && rows[i].chews == old(rows)[i].chews
        && rows[i].datetime == old(rows)[i].datetime + (if old(rows)[i].cookIndex % 2 != 0 then PeriodSeconds else 0)
      ensures timePassed == old(timePassed)
    {
      var column: seq<Reading> := [];
      var i := 0;
      while i < |rows|
        invariant 0 <= i <= |rows|
        invariant |column| == i
        invariant forall j :: 0 <= j < i ==> column[j] == Shifted(rows[j])
      {
        column := column + [Shifted(rows[i])];
        i := i + 1;
      }
      rows := column;
    }

    /**
     * `data['TIME_PASSED'] = ...`: each row's within-day seconds since the
     * first row; the first row gets 0.
     */
    method AddTimePassed()
      modifies this
      ensures rows == old(rows)
      ensures |timePassed| == |rows|
      ensures forall i :: 0 <= i < |rows| ==> timePassed[i] == WithinDaySeconds(rows[i].datetime - rows[0].datetime)
      ensures forall i :: 0 <= i < |rows| ==> 0 <= timePassed[i] < SecondsPerDay
      ensures rows != [] ==> timePassed[0] == 0
    {
      var column: seq<int> := [];
      var i := 0;
      while i < |rows|
        invariant 0 <= i <= |rows|
        invariant |column| == i
        invariant forall j :: 0 <= j < i ==> column[j] == WithinDaySeconds(rows[j].datetime - rows[0].datetime)
      {
        column := column + [WithinDaySeconds(rows[i].datetime - rows[0].datetime)];
        i := i + 1;
      }
      timePassed := column;
    }
  }
}
