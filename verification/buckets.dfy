/** The calls-per-time-band series of the bar chart (index.py:295-298):
    `groupby('faixa_horaria').size()` reindexed on the twelve fixed two-hour
    labels, absent labels filled with 0. */
module Buckets {
  import opened Calls
  import opened Grouping

  /** The twelve band labels in axis order (the dash is U+2013). */
  const BucketLabels: seq<string> := [
    "00\U{2013}02h", "02\U{2013}04h", "04\U{2013}06h", "06\U{2013}08h",
    "08\U{2013}10h", "10\U{2013}12h", "12\U{2013}14h", "14\U{2013}16h",
    "16\U{2013}18h", "18\U{2013}20h", "20\U{2013}22h", "22\U{2013}24h"]

  predicate Distinct(ls: seq<string>) {
    forall i, j :: 0 <= i < j < |ls| ==> ls[i] != ls[j]
  }

  lemma BucketLabelsDistinct()
    ensures |BucketLabels| == 12
    ensures Distinct(BucketLabels)
  {
  }

  /** The band label of every row of the view. */
  function BucketKeys(view: seq<Call>): (keys: seq<string>)
    ensures |keys| == |view|
    ensures forall i :: 0 <= i < |view| ==> keys[i] == view[i].bucket
  {
    seq(|view|, i requires 0 <= i < |view| => view[i].bucket)
  }

  /** How many rows carry one of the labels `ls`. */
  function CountAmong(keys: seq<string>, ls: seq<string>): (n: nat)
    ensures n <= |keys|
    ensures n == |keys| <==> forall i :: 0 <= i < |keys| ==> keys[i] in ls
    ensures n == 0 <==> forall i :: 0 <= i < |keys| ==> keys[i] !in ls
    decreases |keys|
  {
    if |keys| == 0 then 0
    else
      var init := keys[..|keys| - 1];
      assert forall i :: 0 <= i < |init| ==> init[i] == keys[i];
      CountAmong(init, ls) + (if keys[|keys| - 1] in ls then 1 else 0)
  }

  /** The series: for each fixed label in order, its number of rows. */
  function BucketSeries(view: seq<Call>): (r: seq<nat>)
    ensures |r| == |BucketLabels|
    ensures forall i :: 0 <= i < |r| ==> r[i] == Occurrences(BucketKeys(view), BucketLabels[i])
  {
    var sizes := Sizes(BucketKeys(view));
    seq(|BucketLabels|, i requires 0 <= i < |BucketLabels| => Lookup(sizes, BucketLabels[i]))
  }

  function Sum(s: seq<nat>): nat
    decreases |s|
  {
    if |s| == 0 then 0 else s[0] + Sum(s[1..])
  }

  /** The per-label counts of the labels `ls`, in order. */
  function LabelCounts(keys: seq<string>, ls: seq<string>): (r: seq<nat>)
    ensures |r| == |ls|
  {
    seq(|ls|, i requires 0 <= i < |ls| => Occurrences(keys, ls[i]))
  }

  lemma {:induction false} CountAmongCons(keys: seq<string>, l: string, ls: seq<string>)
    requires l !in ls
    ensures CountAmong(keys, [l] + ls) == Occurrences(keys, l) + CountAmong(keys, ls)
    decreases |keys|
  {
    if |keys| > 0 {
      CountAmongCons(keys[..|keys| - 1], l, ls);
    }
  }

  /** For distinct labels the per-label counts add up to the rows carrying
      any of them. */
  lemma {:induction false} SumLabelCounts(keys: seq<string>, ls: seq<string>)
    requires Distinct(ls)
    ensures Sum(LabelCounts(keys, ls)) == CountAmong(keys, ls)
    decreases |ls|
  {
    if |ls| == 0 {
      assert CountAmong(keys, ls) == 0;
    } else {
      var rest := ls[1..];
      assert Distinct(rest) by {
        forall i, j | 0 <= i < j < |rest| ensures rest[i] != rest[j] {
          assert rest[i] == ls[i + 1] && rest[j] == ls[j + 1];
        }
      }
      assert ls[0] !in rest by {
        forall j | 0 <= j < |rest| ensures rest[j] != ls[0] {
          assert rest[j] == ls[j + 1];
        }
      }
      SumLabelCounts(keys, rest);
      assert LabelCounts(keys, ls)[1..] == LabelCounts(keys, rest);
      assert ls == [ls[0]] + rest;
      CountAmongCons(keys, ls[0], rest);
    }
  }

  /** The series keeps every row whose label is one of the twelve and drops
      the others: its sum is the number of such rows, at most the size of
      the view, with equality exactly when every row has a listed label. */
  lemma BucketSeriesSum(view: seq<Call>)
    ensures Sum(BucketSeries(view)) == CountAmong(BucketKeys(view), BucketLabels)
    ensures Sum(BucketSeries(view)) <= |view|
    ensures Sum(BucketSeries(view)) == |view| <==>
      forall i :: 0 <= i < |view| ==> view[i].bucket in BucketLabels
    ensures Sum(BucketSeries(view)) == 0 <==>
      forall i :: 0 <= i < |view| ==> view[i].bucket !in BucketLabels
  {
    BucketLabelsDistinct();
    assert BucketSeries(view) == LabelCounts(BucketKeys(view), BucketLabels);
    SumLabelCounts(BucketKeys(view), BucketLabels);
  }
}
