/** Turning the raw widget values into the two bounds of the time window
    (index.py:205-239). Malformed input never fails: each hour and minute
    falls back to a default and each unparseable date to the table's own
    earliest or latest timestamp. */
module Criteria {
  import opened Wrappers
  import opened Calls

  const SecondsPerDay: int := 86400

  /** The raw filter inputs. A date is the day it names, or None when it cannot
      be read as a `%Y-%m-%d` date; an hour or minute is the result of
      Python's `int()` on the widget value, or None when that raises. */
  datatype Inputs = Inputs(
    startDate: Option<Day>,
    startHour: Option<int>,
    startMinute: Option<int>,
    endDate: Option<Day>,
    endHour: Option<int>,
    endMinute: Option<int>,
    dests: seq<string>)

  /** A value accepted only when it parsed and lies in [0, hi]. */
  function Clamp(raw: Option<int>, hi: nat, fallback: int): (r: int)
    requires 0 <= fallback <= hi
    ensures 0 <= r <= hi
    ensures raw.Some? && 0 <= raw.value <= hi ==> r == raw.value
    ensures raw.None? || raw.value < 0 || raw.value > hi ==> r == fallback
  {
    match raw
    case Some(v) => if 0 <= v <= hi then v else fallback
    case None => fallback
  }

  /** `hh_ini`: a missing or out-of-range start hour becomes 0. */
  function StartHour(raw: Option<int>): (r: int)
    ensures 0 <= r <= 23
    ensures raw.Some? && 0 <= raw.value <= 23 ==> r == raw.value
    ensures raw.None? || raw.value < 0 || raw.value > 23 ==> r == 0
  {
    Clamp(raw, 23, 0)
  }

  /** `mm_ini`: a missing or out-of-range start minute becomes 0. */
  function StartMinute(raw: Option<int>): (r: int)
    ensures 0 <= r <= 59
    ensures raw.Some? && 0 <= raw.value <= 59 ==> r == raw.value
    ensures raw.None? || raw.value < 0 || raw.value > 59 ==> r == 0
  {
    Clamp(raw, 59, 0)
  }

  /** `hh_fim`: a missing or out-of-range end hour becomes 23. */
  function EndHour(raw: Option<int>): (r: int)
    ensures 0 <= r <= 23
    ensures raw.Some? && 0 <= raw.value <= 23 ==> r == raw.value
    ensures raw.None? || raw.value < 0 || raw.value > 23 ==> r == 23
  {
    Clamp(raw, 23, 23)
  }

  /** `mm_fim`: a missing or out-of-range end minute becomes 59. */
  function EndMinute(raw: Option<int>): (r: int)
    ensures 0 <= r <= 59
    ensures raw.Some? && 0 <= raw.value <= 59 ==> r == raw.value
    ensures raw.None? || raw.value < 0 || raw.value > 59 ==> r == 59
  {
    Clamp(raw, 59, 59)
  }

  /** Clamping an already clamped value changes nothing. */
  lemma ClampIdempotent(raw: Option<int>, hi: nat, fallback: int)
    requires 0 <= fallback <= hi
    ensures Clamp(Some(Clamp(raw, hi, fallback)), hi, fallback) == Clamp(raw, hi, fallback)
  {
  }

  /** The instant `hh:mm:00` of a day. */
  function At(day: Day, hh: int, mm: int): (t: Stamp)
    requires 0 <= hh <= 23 && 0 <= mm <= 59
    ensures day * SecondsPerDay <= t < (day + 1) * SecondsPerDay
    ensures t % 60 == 0
  {
    MinutesWithinDay(day, hh * 60 + mm);
    day * SecondsPerDay + hh * 3600 + mm * 60
  }

  /** The start of minute `k` of a day lies within the day, on a whole minute. */
  lemma MinutesWithinDay(day: Day, k: int)
    requires 0 <= k < 1440
    ensures var t := day * SecondsPerDay + k * 60;
      day * SecondsPerDay <= t < (day + 1) * SecondsPerDay && t % 60 == 0
  {
    var t := day * SecondsPerDay + k * 60;
    var q := day * 1440 + k;
    assert day * SecondsPerDay == day * 1440 * 60;
    assert t == q * 60;
    WholeMinute(q);
    assert (day + 1) * SecondsPerDay == day * SecondsPerDay + SecondsPerDay;
  }

  lemma WholeMinute(q: int)
    ensures (q * 60) % 60 == 0
  {
  }

  /** Instants built by `At` are ordered as (day, hour, minute) triples are
      ordered lexicographically. */
  lemma AtOrder(d1: Day, h1: int, m1: int, d2: Day, h2: int, m2: int)
    requires 0 <= h1 <= 23 && 0 <= m1 <= 59
    requires 0 <= h2 <= 23 && 0 <= m2 <= 59
    ensures At(d1, h1, m1) <= At(d2, h2, m2) <==>
      d1 < d2 || (d1 == d2 && (h1 < h2 || (h1 == h2 && m1 <= m2)))
  {
    if d1 < d2 {
      assert (d1 + 1) * SecondsPerDay <= d2 * SecondsPerDay;
    } else if d1 > d2 {
      assert (d2 + 1) * SecondsPerDay <= d1 * SecondsPerDay;
    }
  }

  /** `datahora_ini`: the start date at the clamped start time, or the
      earliest timestamp of the table when the date cannot be read. */
  function StartBound(inputs: Inputs, rows: seq<Call>): (lo: Option<Stamp>)
    ensures inputs.startDate.Some? ==>
      lo == Some(At(inputs.startDate.value, StartHour(inputs.startHour), StartMinute(inputs.startMinute)))
    ensures inputs.startDate.None? ==> lo == MinStamp(rows)
    ensures lo.None? <==> inputs.startDate.None? && |rows| == 0
  {
    match inputs.startDate
    case Some(d) => Some(At(d, StartHour(inputs.startHour), StartMinute(inputs.startMinute)))
    case None => MinStamp(rows)
  }

  /** `datahora_fim`: the end date at the clamped end time, or the latest
      timestamp of the table when the date cannot be read. */
  function EndBound(inputs: Inputs, rows: seq<Call>): (hi: Option<Stamp>)
    ensures inputs.endDate.Some? ==>
      hi == Some(At(inputs.endDate.value, EndHour(inputs.endHour), EndMinute(inputs.endMinute)))
    ensures inputs.endDate.None? ==> hi == MaxStamp(rows)
    ensures hi.None? <==> inputs.endDate.None? && |rows| == 0
  {
    match inputs.endDate
    case Some(d) => Some(At(d, EndHour(inputs.endHour), EndMinute(inputs.endMinute)))
    case None => MaxStamp(rows)
  }

  /** With both dates unreadable the window is exactly the span of the table:
      every row lies inside it. */
  lemma FallbackBoundsCoverTable(inputs: Inputs, rows: seq<Call>)
    requires inputs.startDate.None? && inputs.endDate.None?
    ensures forall i :: 0 <= i < |rows| ==>
      StartBound(inputs, rows).Some? && EndBound(inputs, rows).Some? &&
      StartBound(inputs, rows).value <= rows[i].stamp <= EndBound(inputs, rows).value
  {
    if |rows| > 0 {
      var lo, hi := MinStamp(rows), MaxStamp(rows);
      assert StartBound(inputs, rows) == lo && EndBound(inputs, rows) == hi;
      assert forall i :: 0 <= i < |rows| ==> lo.value <= rows[i].stamp <= hi.value;
    }
  }

  /** With the end time 23:59, whether entered, preset by the page or
      supplied for a missing or out-of-range field, the window closes at the
      start of the last minute of the end day, so a call at 23:59:30 on that
      day falls outside it. */
  lemma DefaultEndExcludesLastSeconds(inputs: Inputs, rows: seq<Call>)
    requires inputs.endDate.Some?
    requires EndHour(inputs.endHour) == 23 && EndMinute(inputs.endMinute) == 59
    ensures EndBound(inputs, rows).value == (inputs.endDate.value + 1) * SecondsPerDay - 60
  {
  }
}
