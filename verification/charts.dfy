/** The data behind each of the four charts and whether the chart is drawn
    or replaced by the "no data" placeholder (index.py:281-335). Only that
    decision and the series are modelled, not the figures themselves. */
module Charts {
  import opened Calls
  import opened Grouping
  import opened Buckets

  /** A chart: the placeholder figure, or a plot of the given series. */
  datatype Chart<T> = Placeholder | Plot(data: T)

  /** A chart of `groupby(key).size()`, drawn unless the grouping is empty. */
  function SizeChart<K(==,!new)>(keys: seq<K>): (ch: Chart<seq<Group<K>>>)
    ensures ch.Plot? <==> |keys| > 0
    ensures ch.Plot? ==> Total(ch.data) == |keys| && KeySet(ch.data) == set k | k in keys
    ensures ch.Plot? ==> forall k :: Lookup(ch.data, k) == Occurrences(keys, k)
  {
    var sizes := Sizes(keys);
    if |sizes| > 0 then Plot(sizes) else Placeholder
  }

  /** Calls per calendar day (`lig_dia`, index.py:282-292). */
  function PerDayChart(view: seq<Call>): (ch: Chart<seq<Group<Day>>>)
    ensures ch.Plot? <==> |view| > 0
    ensures ch.Plot? ==> Total(ch.data) == |view|
    ensures ch.Plot? ==> forall d :: Lookup(ch.data, d) > 0 <==> exists i :: 0 <= i < |view| && view[i].day == d
  {
    var keys := seq(|view|, i requires 0 <= i < |view| => view[i].day);
    assert forall d :: d in keys <==> exists i :: 0 <= i < |view| && view[i].day == d by {
      forall d ensures d in keys <==> exists i :: 0 <= i < |view| && view[i].day == d {
        if exists i :: 0 <= i < |view| && view[i].day == d {
          var i :| 0 <= i < |view| && view[i].day == d;
          assert keys[i] == d;
        }
      }
    }
    SizeChart(keys)
  }

  /** Calls per two-hour band over the twelve fixed labels (`lig_faixa`,
      index.py:295-310), drawn unless all twelve counts are 0. */
  function PerBucketChart(view: seq<Call>): (ch: Chart<seq<nat>>)
    ensures ch.Plot? <==> exists i :: 0 <= i < |view| && view[i].bucket in BucketLabels
    ensures ch.Plot? ==> ch.data == BucketSeries(view)
  {
    var series := BucketSeries(view);
    BucketSeriesSum(view);
    if Sum(series) > 0 then Plot(series) else Placeholder
  }

  /** Calls per (weekday, hour) cell of the heatmap (`heat`, index.py:313-323). */
  function HeatmapChart(view: seq<Call>): (ch: Chart<seq<Group<(string, int)>>>)
    ensures ch.Plot? <==> |view| > 0
    ensures ch.Plot? ==> Total(ch.data) == |view|
  {
    SizeChart(seq(|view|, i requires 0 <= i < |view| => (view[i].weekday, view[i].hour)))
  }

  /** Calls per day type, business day or weekend (`comp`, index.py:326-335). */
  function DayTypeChart(view: seq<Call>): (ch: Chart<seq<Group<string>>>)
    ensures ch.Plot? <==> |view| > 0
    ensures ch.Plot? ==> Total(ch.data) == |view|
  {
    SizeChart(seq(|view|, i requires 0 <= i < |view| => view[i].dayType))
  }
}
