# Call-log dashboard: filter, aggregate and format

This project models the one piece of logic in `index.py`: the callback
`atualizar_dashboard` of a single-page call-log dashboard, together with the
duration renderer `segundos_legiveis` that it uses. Every time the operator
changes a filter, the callback:

- clamps the raw hour and minute widgets;
- combines them with the two dates into a time window, falling back to the
  table's earliest and latest timestamps when a date cannot be read;
- keeps the calls inside the window, restricted to the selected destinations
  when any are selected;
- computes from that view the counts, the answer rate, the mean duration of
  answered calls and the mean talk time per day, with their display styles;
- builds the data of four charts, each drawn or replaced by a "no data"
  placeholder.

The model is functional. A call is an immutable record (`Calls.Call`) and the
table is a sequence of calls. A timestamp is an integer number of seconds and
a calendar day is an integer, so `At(day, hh, mm)` is the instant `hh:mm:00`
of that day. A date that cannot be read is `None`, and so is an hour or a
minute that `int()` cannot read. The rate and the two means are exact
rationals (`real`). The displayed durations are their whole part, as Python's
`int()` gives for non-negative values.

Modules, in dependency order:

- `Wrappers`: `Option`.
- `Decimal`: decimal numerals of naturals and how to read them back.
- `Duration`: `segundos_legiveis`, and a reader of its output that serves as
  its inverse.
- `Calls`: the call record and the table's earliest and latest timestamps.
- `Criteria`: the hour and minute clamps, and the window bounds.
- `Filtering`: order-preserving selection, and the view.
- `Grouping`: `groupby(...).sum()` and `groupby(...).size()`.
- `Ratios`: the exact and the integer quotient of naturals, and small facts about real quotients.
- `Indicators`: the counts, the rate, the means and the styles.
- `Buckets`: the twelve-label reindex for calls per two-hour band.
- `Charts`: each chart's data and its drawn-or-placeholder decision.
- `Dashboard`: the whole callback.

## Model

| member | source | states |
|---|---|---|
| Decimal.Show | index.py:168 | The decimal numeral of a natural is non-empty, is made of digits only, and starts with '0' only for zero. |
| Decimal.ReadShow | index.py:168 | Reading the numeral back gives the number: the rendering loses nothing. |
| Decimal.ShowInjective | index.py:168 | Different numbers have different numerals. |
| Duration.ReadLegible | index.py:165-175 | Reading back the words of a rendered duration, with 3600, 60 and 1 seconds for "h", "min" and "s", gives exactly the number of seconds: no non-zero component is ever dropped. |
| Duration.LegibleInjective | index.py:165-175 | Different durations are rendered as different strings. |
| Duration.LegibleWordCount | index.py:167-175 | One word under a minute. Under an hour, two words exactly when the seconds are non-zero. From an hour on, three words whenever the seconds are non-zero, even with zero minutes; otherwise two words exactly when the minutes are non-zero. |
| Duration.LegibleCanonical | index.py:167-175 | Every word of a rendering is a numeral followed by "h", "min" or "s", and the numeral has no leading zero (it starts with 0 only when it is "0"). The units strictly decrease from left to right (h, then min, then s, none twice), every word after the first holds less than 60, and the first word holds the whole number of the largest unit that fits: seconds under a minute, minutes under an hour, hours from an hour on. So "0min 90s", "90s" or "1min 05s" is never produced, and the hours are unbounded. |
| Duration.PaddedReadsBack | index.py:172 | The zero-padded "1min 05s" reads back as 65 s, so reading back alone does not pin how the numbers are written. |
| Duration.PaddedIsNotCanonical | index.py:172 | "1min 05s" is not in canonical form, so it is not what the code writes for 65 s: the f-strings never pad. |
| Duration.LegibleSecondsExamples | index.py:165-168 | 0 → "0s", 59 → "59s". |
| Duration.LegibleMinuteExamples | index.py:169-172 | 60 → "1min", 90 → "1min 30s", 3599 → "59min 59s". |
| Duration.LegibleHourExamples | index.py:173-175 | 3600 → "1h", 3660 → "1h 1min". |
| Duration.LegibleHourSecondExamples | index.py:173-175 | 3601 → "1h 0min 1s", 3661 → "1h 1min 1s": zero minutes are written out before non-zero seconds. |
| Duration.LegibleScenarioExamples | index.py:169-172 | 200 → "3min 20s", 400 → "6min 40s". |
| Calls.MinStamp | index.py:235 | The earliest timestamp: absent exactly for an empty table, attained by some row, and at most every row's timestamp. |
| Calls.MaxStamp | index.py:239 | The latest timestamp: absent exactly for an empty table, attained by some row, and at least every row's timestamp. |
| Criteria.Clamp | index.py:205-228 | The validated value lies in 0..hi. A readable in-range value passes through unchanged. A missing, unreadable or out-of-range value becomes the fallback. |
| Criteria.ClampIdempotent | index.py:205-228 | Validating an already validated value changes nothing. |
| Criteria.StartHour | index.py:205-210 | The start hour is in 0..23: an in-range value is kept and anything else becomes 0. |
| Criteria.StartMinute | index.py:211-216 | The start minute is in 0..59: an in-range value is kept and anything else becomes 0. |
| Criteria.EndHour | index.py:217-222 | The end hour is in 0..23: an in-range value is kept and anything else becomes 23. |
| Criteria.EndMinute | index.py:223-228 | The end minute is in 0..59: an in-range value is kept and anything else becomes 59. |
| Criteria.At | index.py:229-233 | `hh:mm` of a day is an instant within that day, on a whole minute. |
| Criteria.AtOrder | index.py:229-237 | Instants built from (day, hour, minute) are ordered exactly as the triples are ordered lexicographically. |
| Criteria.StartBound | index.py:229-235 | The start bound is the start date at the clamped start time. When the date cannot be read it is the table's earliest timestamp. It is absent only when there is no date and the table is empty. |
| Criteria.EndBound | index.py:230-239 | The end bound is the end date at the clamped end time. When the date cannot be read it is the table's latest timestamp. It is absent only when there is no date and the table is empty. |
| Criteria.FallbackBoundsCoverTable | index.py:232-239 | When neither date can be read, every row lies inside the window. |
| Criteria.DefaultEndExcludesLastSeconds | index.py:217-237 | With an end time of 23:59, whether typed, preset by the page (index.py:81 and 89) or the fallback for a missing or out-of-range field, the window closes at the start of the last minute of the end day, so the last 59 seconds of the day are outside it. |
| Filtering.Select | index.py:241-243 | A selection is no longer than the table and holds exactly the rows that pass the test. It is as long as the table exactly when every row passes. |
| Filtering.SelectTwice | index.py:241-243 | Filtering by one test and then by another is one filtering by both tests. |
| Filtering.SelectSplit | index.py:246-248 | The rows kept and the rows dropped by a test add up to the table. |
| Filtering.View | index.py:241-243 | The view holds exactly the rows inside the closed window whose destination is selected, where an empty selection passes every row. |
| Filtering.ViewIsOneSelection | index.py:241-243 | The two-stage filter equals a single selection by the conjunction of the two tests. |
| Filtering.ViewAppend | index.py:241-243 | The view of two tables joined is the two views joined: the filter keeps table order. |
| Filtering.ReversedWindowIsEmpty | index.py:241 | An end bound before the start bound selects nothing: the range is not swapped. |
| Filtering.NoDestinationMeansAll | index.py:242-243 | Selecting no destination gives the same view as selecting every destination that occurs. |
| Filtering.FullWindowKeepsAll | index.py:241 | A window containing every row, with no destination selected, keeps the whole table. |
| Grouping.Add | index.py:258 | Filing a value under a key keeps the keys distinct, adds the key, adds the value to the grand total and to that key's total only. |
| Grouping.GroupBy | index.py:258 | The grouping has one group per distinct key. Each group's total is the sum of that key's values, and the grand total is the sum of all values. |
| Grouping.GroupCount | index.py:258 | There are as many groups as distinct keys, so the grouping is empty exactly when there are no rows. |
| Grouping.Sizes | index.py:282 | `size()`: the keys are distinct and are exactly the keys that occur. Each key's count is its number of occurrences, the counts add up to the number of rows, and the grouping is empty exactly when there are no rows. |
| Grouping.Occurrences | index.py:295-297 | A key's count is at most the number of rows and is non-zero exactly when the key occurs. |
| Indicators.AnsweredCount | index.py:247 | The answered count is at most the view. It is 0 exactly when no call of the view was answered, and the size of the view exactly when every call was. |
| Indicators.UnansweredCount | index.py:246-248 | Answered plus unanswered is the total, and the unanswered count is exactly the number of calls of the view not answered. |
| Indicators.AnswerRate | index.py:249 | The rate is in 0..100. It is 0 for an empty view and otherwise the answered count times 100 over the total. |
| Indicators.RateAlert | index.py:249-251 | The rate is shown in red exactly when the view is empty or fewer than 85 of every 100 calls were answered. |
| Indicators.Truncate | index.py:166 | `int()` of a non-negative number is the whole number n with n ≤ x < n + 1. |
| Indicators.MeanDuration | index.py:254-255 | The mean duration is non-negative, 0 when no call was answered, and otherwise the answered calls' total duration over their number. |
| Indicators.TruncatedMean | index.py:254-256 | The whole seconds of the mean duration are 0 when no call was answered, and otherwise the integer quotient of the total duration by the count. |
| Indicators.DurationWarning | index.py:254-257 | The warning style applies exactly when the answered calls' total duration exceeds 300 s per answered call. |
| Indicators.MeanDurationText | index.py:254-256 | The displayed mean is "0s" when no call was answered, and otherwise the rendering of the integer quotient of the total duration by the count. |
| Indicators.DayDurationsSum | index.py:258 | The per-row (day, duration) pairs sum to the total duration, and their keys are exactly the days of the rows. |
| Indicators.DaysAtMostCalls | index.py:258 | There are at most as many days as calls. |
| Indicators.DailyTotalsFacts | index.py:258 | The per-day totals of the answered calls add up to their total duration. There is one total per day with an answered call, and at least one such day when any call was answered. |
| Indicators.TalkPerDay | index.py:258 | The daily talk time is non-negative and 0 when no call was answered. Otherwise it is the answered calls' total duration over the number of days with an answered call, which is non-zero. |
| Indicators.TalkPerDayAtLeastMean | index.py:254-258 | The mean talk time per day is never below the mean duration per call. |
| Indicators.TalkPerDayText | index.py:258-259 | The displayed daily talk time is "0s" when no call was answered, and otherwise the rendering of the integer quotient of the total duration by the number of days. |
| Buckets.BucketLabelsDistinct | index.py:295-297 | There are exactly twelve band labels and they are pairwise distinct. |
| Buckets.CountAmong | index.py:295-298 | The rows carrying a listed label are at most all rows. They are all rows exactly when every label is listed, and none exactly when no label is listed. |
| Buckets.BucketSeries | index.py:295-297 | The series has exactly twelve entries, in label order, each the number of rows with that label, and 0 for a label that does not occur. |
| Buckets.SumLabelCounts | index.py:295-298 | For distinct labels, the per-label counts add up to the number of rows carrying one of them. |
| Buckets.BucketSeriesSum | index.py:295-298 | The series adds up to the rows with one of the twelve labels. That is at most the view, exactly the view when every row has a listed label, and 0 exactly when none has. |
| Charts.SizeChart | index.py:282-283 | A `size()` chart is drawn exactly when there are rows. Its counts add up to the rows, its keys are the keys that occur, and each count is that key's number of occurrences. |
| Charts.PerDayChart | index.py:282-292 | The calls-per-day chart is drawn exactly when the view is non-empty. Its counts add up to the view, and a day's count is non-zero exactly when a call of the view falls on that day. |
| Charts.PerBucketChart | index.py:295-310 | The calls-per-band chart is drawn exactly when some call of the view carries one of the twelve labels, and it then plots the twelve-entry series. |
| Charts.HeatmapChart | index.py:313-323 | The heatmap is drawn exactly when the view is non-empty, and its cells add up to the view. |
| Charts.DayTypeChart | index.py:326-335 | The day-type chart is drawn exactly when the view is non-empty, and its slices add up to the view. |
| Dashboard.ViewOf | index.py:229-243 | The view of the raw inputs holds exactly the rows inside the window built from them whose destination is selected. |
| Dashboard.Refresh | index.py:203-350 | For every input, the panel describes the view the inputs select. The total is the size of that view, the answered count is its answered count, and the unanswered count is its number of calls not answered, so the two add up to the total. The rate is in 0..100, is 100 times answered over total for a non-empty view, and is red exactly when the view is empty or under 85 %. The duration warning applies exactly when the answered calls last more than 300 s each on average. With no answered call both duration texts are "0s" and there is no warning. The per-day, heatmap and day-type charts are drawn exactly when the view is non-empty. The band chart is drawn exactly when some call of the view has one of the twelve labels. |
| Dashboard.RefreshMeanText | index.py:254-256 | With answered calls in the view, the panel's mean duration is the rendering of the integer quotient of their total duration by their number. |
| Dashboard.RefreshTalkText | index.py:258-259 | With answered calls in the view, there is at least one day with an answered call, and the panel's talk time per day is the rendering of the integer quotient of their total duration by that number of days. |
| Dashboard.EmptyViewPanel | index.py:246-335 | An empty view degrades without failing: zero counts, rate 0 in red, "0s" twice without warning, and four placeholders. |
| Dashboard.EndDateBeforeStartDate | index.py:229-243 | An end date before the start date selects nothing, whatever the times and destinations. |
| Dashboard.FallbacksSelectWholeTable | index.py:232-243 | With both dates unreadable and no destination selected, the view is the whole table. |
| Dashboard.WorkedExampleCounts | index.py:246-248 | Two answered calls of 100 s and 300 s and one unanswered call, with both dates unreadable and no destination selected, give a total of 3, 2 answered and 1 unanswered. |
| Dashboard.WorkedExampleRate | index.py:249-251 | The same table, which is the whole view when both dates are unreadable and no destination is selected, has a rate of 200/3 %, shown in red. |
| Dashboard.WorkedExampleMean | index.py:254-257 | For the same table the mean duration is shown as "3min 20s", without warning. |
| Dashboard.WorkedExampleTalk | index.py:258-259 | For the same table the talk time per day is shown as "6min 40s": 400 s on its one day. |

## Left out

- Loading the CSV file and precomputing the destination list and the table's date range (index.py:12-17). This is file I/O through pandas. The table is a parameter of every operation.
- The page layout and widgets (index.py:20-162) and the server start-up (index.py:352-354). This is UI and process plumbing.
- The Plotly figures and the contents of the placeholder figure `grafico_vazio` (index.py:262-335). These are library calls. Only each chart's data and its drawn-or-placeholder decision are modelled.
- The weekday order of the heatmap (index.py:314-318). The code passes it to Plotly as a display hint for the y axis and never reindexes on the seven weekdays, so the heatmap data is keyed only by the (weekday, hour) pairs that occur.
- Date parsing with `strptime` (index.py:233, 237). A date is either a day or `None` when it cannot be read.
- The `.1f` formatting of the rate and the thousands separators of the counts (index.py:250, 338-340). The model keeps the numbers themselves.
- Floating-point rounding. The rate and the means are exact rationals, so a rate that binary floating point would round onto 85.0 is compared exactly.
- Buckets.BucketSeriesSum: the band counts add up to the size of the view only when every row carries one of the twelve labels. The reindex at index.py:295-297 drops rows whose `faixa_horaria` is any other label.
- Grouping.GroupBy: groups are kept in order of first appearance, while pandas sorts the keys. Only the totals, the per-key lookups and the number of groups are used downstream, and these do not depend on the order.
- `atendida` is a boolean. The code sums the column and compares it with 1, which agrees with the boolean reading on 0/1 data.
- Call durations are whole non-negative seconds.
- An empty table has no earliest or latest timestamp (pandas yields a missing value), and a missing bound admits no row, as comparisons with a missing timestamp are false.
