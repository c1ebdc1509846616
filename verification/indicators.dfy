/** The scalar indicators of the view and their display styles
    (index.py:246-259): counts, answer rate, mean duration of answered calls
    and mean talk time per day. The rate and the means are exact rationals;
    the displayed durations are their truncation to whole seconds. */
module Indicators {
  import opened Calls
  import opened Filtering
  import opened Grouping
  import opened Duration
  import Ratios

  /** `atendidas_df`: the answered calls of the view, in view order. */
  function AnsweredCalls(view: seq<Call>): seq<Call> {
    Select(view, (c: Call) => c.answered)
  }

  /** `atendidas`: how many calls of the view were answered; none exactly
      when every call went unanswered, all exactly when every call was
      answered. */
  function AnsweredCount(view: seq<Call>): (n: nat)
    ensures n <= |view|
    ensures n == 0 <==> forall c :: c in view ==> !c.answered
    ensures n == |view| <==> forall c :: c in view ==> c.answered
  {
    var answered := AnsweredCalls(view);
    assert |answered| > 0 ==> answered[0] in view;
    |answered|
  }

  /** `nao_atendidas`: total minus answered, which is exactly the number of
      calls not answered. */
  function UnansweredCount(view: seq<Call>): (n: nat)
    ensures AnsweredCount(view) + n == |view|
    ensures n == |Select(view, (c: Call) => !c.answered)|
  {
    SelectSplit(view, (c: Call) => c.answered, (c: Call) => !c.answered);
    |view| - AnsweredCount(view)
  }

  /** `taxa`: the percentage of answered calls, 0 for an empty view. */
  function AnswerRate(view: seq<Call>): (r: real)
    ensures 0.0 <= r <= 100.0
    ensures |view| == 0 ==> r == 0.0
    ensures |view| > 0 ==> r == (AnsweredCount(view) * 100) as real / |view| as real
  {
    if |view| > 0 then
      Ratios.Percent(AnsweredCount(view), |view|);
      AnsweredCount(view) as real / |view| as real * 100.0
    else 0.0
  }

  /** `taxa_style`: the rate is shown in red below 85%, which in integer
      terms is fewer than 85 answered calls per 100, including the empty
      view. */
  function RateAlert(view: seq<Call>): (alert: bool)
    ensures alert <==> |view| == 0 || AnsweredCount(view) * 100 < 85 * |view|
  {
    if |view| > 0 then
      Ratios.QuotientLess((AnsweredCount(view) * 100) as real, |view| as real, 85.0);
      AnswerRate(view) < 85.0
    else
      AnswerRate(view) < 85.0
  }

  // ---------------------------------------------------------------------
  // Durations

  /** The summed duration of the rows. */
  function TotalDuration(rows: seq<Call>): nat
    decreases |rows|
  {
    if |rows| == 0 then 0 else TotalDuration(rows[..|rows| - 1]) + rows[|rows| - 1].duration
  }

  /** Python's `int()` of a non-negative float: the whole part. */
  function Truncate(x: real): (n: nat)
    requires x >= 0.0
    ensures n as real <= x < n as real + 1.0
  {
    x.Floor
  }

  /** `duracao_media`: the mean duration of the answered calls, 0 when there
      is none. */
  function MeanDuration(view: seq<Call>): (r: real)
    ensures r >= 0.0
    ensures AnsweredCount(view) == 0 ==> r == 0.0
    ensures AnsweredCount(view) > 0 ==>
      r == Ratios.Ratio(TotalDuration(AnsweredCalls(view)), AnsweredCount(view))
  {
    var answered := AnsweredCalls(view);
    if |answered| > 0 then Ratios.Ratio(TotalDuration(answered), |answered|) else 0.0
  }

  /** `duracao_style`: the mean duration is flagged above 300 seconds, that
      is, when the answered calls last more than 300 seconds per call in
      total. */
  function DurationWarning(view: seq<Call>): (warn: bool)
    ensures warn <==> TotalDuration(AnsweredCalls(view)) > 300 * AnsweredCount(view)
  {
    var total, n := TotalDuration(AnsweredCalls(view)), AnsweredCount(view);
    if n > 0 then
      Ratios.QuotientLess(total as real, n as real, 300.0);
      assert (300 * n) as real == 300.0 * n as real;
      MeanDuration(view) > 300.0
    else
      assert AnsweredCalls(view) == [];
      MeanDuration(view) > 300.0
  }

  /** `duracao_media_str`: the truncated mean, rendered: "0s" when no call was
      answered, otherwise the integer quotient of the total duration by the
      number of answered calls. */
  function MeanDurationText(view: seq<Call>): (t: string)
    ensures AnsweredCount(view) == 0 ==> t == "0s"
    ensures AnsweredCount(view) > 0 ==> t == Legible(Ratios.Quotient(TotalDuration(AnsweredCalls(view)), AnsweredCount(view)))
  {
    TruncatedMean(view);
    LegibleZero();
    Legible(Truncate(MeanDuration(view)))
  }

  /** The whole seconds of the mean are the integer quotient. */
  lemma TruncatedMean(view: seq<Call>)
    ensures Truncate(MeanDuration(view)) ==
      if AnsweredCount(view) == 0 then 0 else Ratios.Quotient(TotalDuration(AnsweredCalls(view)), AnsweredCount(view))
  {
    var n := AnsweredCount(view);
    if n > 0 {
      Ratios.FloorOfQuotient(TotalDuration(AnsweredCalls(view)), n);
    }
  }

  // ---------------------------------------------------------------------
  // Talk time per day

  /** The (calendar day, duration) pair of every row. */
  function DayDurations(rows: seq<Call>): (ps: seq<(Day, nat)>)
    ensures |ps| == |rows|
  {
    seq(|rows|, i requires 0 <= i < |rows| => (rows[i].day, rows[i].duration))
  }

  /** The distinct calendar days of the rows. */
  function DaysOf(rows: seq<Call>): set<Day> {
    set c | c in rows :: c.day
  }

  lemma {:induction false} DayDurationsSum(rows: seq<Call>)
    ensures SumAll(DayDurations(rows)) == TotalDuration(rows)
    ensures KeysOf(DayDurations(rows)) == DaysOf(rows)
    decreases |rows|
  {
    var ps := DayDurations(rows);
    if |rows| > 0 {
      var init := rows[..|rows| - 1];
      assert ps[..|ps| - 1] == DayDurations(init);
      DayDurationsSum(init);
      assert rows == init + [rows[|rows| - 1]];
      assert ps == ps[..|ps| - 1] + [ps[|ps| - 1]];
      assert KeysOf(ps) == KeysOf(ps[..|ps| - 1]) + {ps[|ps| - 1].0};
      assert DaysOf(rows) == DaysOf(init) + {rows[|rows| - 1].day};
    } else {
      assert KeysOf(ps) == {};
    }
  }

  /** Every day holds at least one call. */
  lemma {:induction false} DaysAtMostCalls(rows: seq<Call>)
    ensures |DaysOf(rows)| <= |rows|
    decreases |rows|
  {
    if |rows| > 0 {
      var init := rows[..|rows| - 1];
      assert rows == init + [rows[|rows| - 1]];
      assert DaysOf(rows) == DaysOf(init) + {rows[|rows| - 1].day};
      DaysAtMostCalls(init);
    }
  }

  /** `atendidas_df.groupby('data')['duracao_segundos'].sum()`. */
  function DailyTotals(view: seq<Call>): seq<Group<Day>> {
    GroupBy(DayDurations(AnsweredCalls(view)))
  }

  /** `total_seg_dia`: the mean over days of the per-day talk time of the
      answered calls, 0 when no call was answered. It is the answered calls'
      total duration over the number of days that have an answered call. */
  function TalkPerDay(view: seq<Call>): (r: real)
    ensures r >= 0.0
    ensures AnsweredCount(view) == 0 ==> r == 0.0
    ensures AnsweredCount(view) > 0 ==>
      |DaysOf(AnsweredCalls(view))| > 0 &&
      r == Ratios.Ratio(TotalDuration(AnsweredCalls(view)), |DaysOf(AnsweredCalls(view))|)
  {
    var groups := DailyTotals(view);
    DailyTotalsFacts(view);
    if |AnsweredCalls(view)| > 0 then
      assert |groups| > 0;
      Ratios.Ratio(Total(groups), |groups|)
    else 0.0
  }

  /** The daily totals add up to the answered calls' total duration, with one
      group per day that has an answered call. */
  lemma DailyTotalsFacts(view: seq<Call>)
    ensures Total(DailyTotals(view)) == TotalDuration(AnsweredCalls(view))
    ensures |DailyTotals(view)| == |DaysOf(AnsweredCalls(view))|
    ensures |AnsweredCalls(view)| > 0 ==> |DaysOf(AnsweredCalls(view))| > 0
  {
    var answered := AnsweredCalls(view);
    DayDurationsSum(answered);
    GroupCount(DayDurations(answered));
  }

  /** A day's total is at least one call's share, so the daily mean is never
      below the per-call mean. */
  lemma TalkPerDayAtLeastMean(view: seq<Call>)
    ensures TalkPerDay(view) >= MeanDuration(view)
  {
    var answered := AnsweredCalls(view);
    DailyTotalsFacts(view);
    if |answered| > 0 {
      DaysAtMostCalls(answered);
      Ratios.QuotientAntitone(TotalDuration(answered) as real, |DaysOf(answered)| as real, |answered| as real);
    }
  }

  /** `total_seg_dia_str`: the truncated daily mean, rendered: "0s" when no
      call was answered, otherwise the integer quotient of the total answered
      duration by the number of days. */
  function TalkPerDayText(view: seq<Call>): (t: string)
    ensures AnsweredCount(view) == 0 ==> t == "0s"
    ensures AnsweredCount(view) > 0 ==>
      |DaysOf(AnsweredCalls(view))| > 0 &&
      t == Legible(Ratios.Quotient(TotalDuration(AnsweredCalls(view)), |DaysOf(AnsweredCalls(view))|))
  {
    var whole := Truncate(TalkPerDay(view));
    if AnsweredCount(view) > 0 then
      var total, days := TotalDuration(AnsweredCalls(view)), |DaysOf(AnsweredCalls(view))|;
      DailyTotalsFacts(view);
      Ratios.FloorOfQuotient(total, days);
      assert whole == total / days;
      Legible(whole)
    else
      assert whole == 0;
      LegibleZero();
      Legible(whole)
  }
}
