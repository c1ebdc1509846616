/** One run of the dashboard callback `atualizar_dashboard`
    (index.py:203-350): raw inputs to view to indicators and chart data.
    It is total: no input makes it fail. */
module Dashboard {
  import opened Wrappers
  import opened Calls
  import opened Criteria
  import opened Filtering
  import opened Grouping
  import opened Indicators
  import opened Buckets
  import opened Charts
  import Duration
  import Ratios

  /** Everything the callback hands back to the page, before the number
      formatting of the counts and the rate. */
  datatype Panel = Panel(
    total: nat,
    answered: nat,
    unanswered: nat,
    rate: real,
    rateAlert: bool,
    meanDuration: string,
    durationWarning: bool,
    talkPerDay: string,
    perDay: Chart<seq<Group<Day>>>,
    perBucket: Chart<seq<nat>>,
    heatmap: Chart<seq<Group<(string, int)>>>,
    perDayType: Chart<seq<Group<string>>>)

  /** The view selected by the raw inputs. */
  function ViewOf(rows: seq<Call>, inputs: Inputs): (view: seq<Call>)
    ensures |view| <= |rows|
    ensures forall c :: c in view <==>
      c in rows && InWindow(c.stamp, StartBound(inputs, rows), EndBound(inputs, rows))
      && DestinationSelected(c, inputs.dests)
  {
    View(rows, StartBound(inputs, rows), EndBound(inputs, rows), inputs.dests)
  }

  /** The callback: every figure of the panel is computed from the view the
      raw inputs select. */
  function Refresh(rows: seq<Call>, inputs: Inputs): (p: Panel)
    ensures p.total == |ViewOf(rows, inputs)| && p.total <= |rows|
    ensures p.answered == AnsweredCount(ViewOf(rows, inputs))
    ensures p.answered + p.unanswered == p.total
    ensures p.unanswered == |Select(ViewOf(rows, inputs), (c: Call) => !c.answered)|
    ensures 0.0 <= p.rate <= 100.0
    ensures p.total > 0 ==> p.rate == (p.answered * 100) as real / p.total as real
    ensures p.rateAlert <==> p.total == 0 || p.answered * 100 < 85 * p.total
    ensures var answered := AnsweredCalls(ViewOf(rows, inputs));
      p.durationWarning <==> TotalDuration(answered) > 300 * p.answered
    ensures p.answered == 0 ==> p.meanDuration == "0s" && p.talkPerDay == "0s" && !p.durationWarning
    ensures p.perDay.Plot? <==> p.total > 0
    ensures p.heatmap.Plot? <==> p.total > 0
    ensures p.perDayType.Plot? <==> p.total > 0
    ensures var view := ViewOf(rows, inputs);
      p.perBucket.Plot? <==> exists i :: 0 <= i < |view| && view[i].bucket in BucketLabels
    ensures p.perBucket.Plot? ==> p.total > 0
  {
    var view := ViewOf(rows, inputs);
    Panel(
      |view|,
      AnsweredCount(view),
      UnansweredCount(view),
      AnswerRate(view),
      RateAlert(view),
      MeanDurationText(view),
      DurationWarning(view),
      TalkPerDayText(view),
      PerDayChart(view),
      PerBucketChart(view),
      HeatmapChart(view),
      DayTypeChart(view))
  }

  /** With answered calls, the mean-duration text renders the integer mean. */
  lemma RefreshMeanText(rows: seq<Call>, inputs: Inputs)
    ensures var p := Refresh(rows, inputs);
      var answered := AnsweredCalls(ViewOf(rows, inputs));
      p.answered > 0 ==> p.meanDuration == Duration.Legible(Ratios.Quotient(TotalDuration(answered), p.answered))
  {
    var t := MeanDurationText(ViewOf(rows, inputs));
  }

  /** With answered calls, the talk-per-day text renders the integer daily mean. */
  lemma RefreshTalkText(rows: seq<Call>, inputs: Inputs)
    ensures var p := Refresh(rows, inputs);
      var answered := AnsweredCalls(ViewOf(rows, inputs));
      p.answered > 0 ==>
        && |DaysOf(answered)| > 0
        && p.talkPerDay == Duration.Legible(Ratios.Quotient(TotalDuration(answered), |DaysOf(answered)|))
  {
    var t := TalkPerDayText(ViewOf(rows, inputs));
  }

  /** An empty view degrades to zeros and placeholders rather than failing:
      rate 0 (shown in red), both durations "0s" without warning, and every
      chart replaced by the placeholder. */
  lemma EmptyViewPanel(rows: seq<Call>, inputs: Inputs)
    requires ViewOf(rows, inputs) == []
    ensures var p := Refresh(rows, inputs);
      && p.total == 0 && p.answered == 0 && p.unanswered == 0
      && p.rate == 0.0 && p.rateAlert
      && p.meanDuration == "0s" && !p.durationWarning && p.talkPerDay == "0s"
      && p.perDay.Placeholder? && p.perBucket.Placeholder?
      && p.heatmap.Placeholder? && p.perDayType.Placeholder?
  {
  }

  /** An end date before the start date selects nothing, whatever the hours,
      minutes and destinations: the range is not swapped. */
  lemma EndDateBeforeStartDate(rows: seq<Call>, inputs: Inputs)
    requires inputs.startDate.Some? && inputs.endDate.Some?
    requires inputs.endDate.value < inputs.startDate.value
    ensures Refresh(rows, inputs).total == 0
    ensures Refresh(rows, inputs).perDay.Placeholder?
  {
    var lo, hi := StartBound(inputs, rows), EndBound(inputs, rows);
    AtOrder(inputs.startDate.value, StartHour(inputs.startHour), StartMinute(inputs.startMinute),
            inputs.endDate.value, EndHour(inputs.endHour), EndMinute(inputs.endMinute));
    ReversedWindowIsEmpty(rows, lo, hi, inputs.dests);
  }

  /** With both dates unreadable and no destination selected, the view is
      the whole table. */
  lemma FallbacksSelectWholeTable(rows: seq<Call>, inputs: Inputs)
    requires inputs.startDate.None? && inputs.endDate.None? && |inputs.dests| == 0
    ensures ViewOf(rows, inputs) == rows
    ensures Refresh(rows, inputs).total == |rows|
  {
    FallbackBoundsCoverTable(inputs, rows);
    var lo, hi := StartBound(inputs, rows), EndBound(inputs, rows);
    assert forall c :: c in rows ==> InWindow(c.stamp, lo, hi) by {
      forall c | c in rows ensures InWindow(c.stamp, lo, hi) {
        var i :| 0 <= i < |rows| && rows[i] == c;
      }
    }
    FullWindowKeepsAll(rows, lo, hi);
  }

  /** A worked table: two answered calls of 100 s and 300 s and one
      unanswered call, all on the same day. */
  function ExampleRows(): seq<Call> {
    var first := Call(1000, 0, "A", true, 100, "00\U{2013}02h", "Domingo", 0, "Final de semana");
    [first, first.(stamp := 2000, duration := 300), first.(stamp := 3000, answered := false, duration := 0)]
  }

  /** Every field unreadable and no destination selected, so the window
      falls back to the table's own range. */
  function NoFilter(): Inputs {
    Inputs(None, None, None, None, None, None, [])
  }

  /** The answered calls of the worked table: the first two, 400 s in all,
      on a single day. */
  lemma ExampleAnswered()
    ensures AnsweredCalls(ExampleRows()) == ExampleRows()[..2]
    ensures AnsweredCount(ExampleRows()) == 2
    ensures TotalDuration(AnsweredCalls(ExampleRows())) == 400
    ensures |DaysOf(AnsweredCalls(ExampleRows()))| == 1
  {
    var rows := ExampleRows();
    assert rows[1..][1..][1..] == [];
    assert rows[..2][..1][..0] == [];
    assert rows[..2] == [rows[0], rows[1]];
    assert DaysOf(rows[..2]) == {0};
  }

  /** The worked table's counts: 3 calls, 2 answered, 1 not answered. */
  lemma WorkedExampleCounts()
    ensures var p := Refresh(ExampleRows(), NoFilter());
      p.total == 3 && p.answered == 2 && p.unanswered == 1
  {
    FallbacksSelectWholeTable(ExampleRows(), NoFilter());
    ExampleAnswered();
  }

  /** The worked table's rate, which is the panel's when both dates are
      unreadable and no destination is selected, since the view is then the
      whole table: 200/3 %, shown in red. */
  lemma WorkedExampleRate()
    ensures AnswerRate(ExampleRows()) == 200.0 / 3.0
    ensures RateAlert(ExampleRows())
  {
    ExampleAnswered();
  }

  /** The worked table's mean duration: 200 s, shown as "3min 20s" without
      warning. */
  lemma WorkedExampleMean()
    ensures Refresh(ExampleRows(), NoFilter()).meanDuration == "3min 20s"
    ensures !Refresh(ExampleRows(), NoFilter()).durationWarning
  {
    FallbacksSelectWholeTable(ExampleRows(), NoFilter());
    ExampleAnswered();
    Duration.LegibleScenarioExamples();
  }

  /** The worked table's talk time per day: 400 s on its one day, shown as
      "6min 40s". */
  lemma WorkedExampleTalk()
    ensures Refresh(ExampleRows(), NoFilter()).talkPerDay == "6min 40s"
  {
    FallbacksSelectWholeTable(ExampleRows(), NoFilter());
    ExampleAnswered();
    Duration.LegibleScenarioExamples();
  }
}
