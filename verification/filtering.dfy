/** The filtered view (index.py:241-243): the rows whose timestamp lies in the
    closed window [start, end] and, when any destination is selected, whose
    destination is one of the selected ones. */
module Filtering {
  import opened Wrappers
  import opened Calls

  /** The order-preserving subsequence of the rows that `keep` accepts, as a
      pandas boolean mask selects them. */
  function Select(rows: seq<Call>, keep: Call -> bool): (view: seq<Call>)
    ensures |view| <= |rows|
    ensures forall c :: c in view <==> c in rows && keep(c)
    ensures |view| == |rows| <==> forall c :: c in rows ==> keep(c)
    decreases |rows|
  {
    if |rows| == 0 then []
    else (if keep(rows[0]) then [rows[0]] else []) + Select(rows[1..], keep)
  }

  /** Selection distributes over concatenation, so the view keeps the rows in
      table order. */
  lemma {:induction false} SelectAppend(a: seq<Call>, b: seq<Call>, keep: Call -> bool)
    ensures Select(a + b, keep) == Select(a, keep) + Select(b, keep)
    decreases |a|
  {
    if |a| > 0 {
      assert (a + b)[0] == a[0];
      assert (a + b)[1..] == a[1..] + b;
      SelectAppend(a[1..], b, keep);
    } else {
      assert a + b == b;
    }
  }

  /** Two masks that agree on every row select the same view. */
  lemma {:induction false} SelectSameMask(rows: seq<Call>, p: Call -> bool, q: Call -> bool)
    requires forall c :: c in rows ==> p(c) == q(c)
    ensures Select(rows, p) == Select(rows, q)
    decreases |rows|
  {
    if |rows| > 0 {
      assert forall c :: c in rows[1..] ==> c in rows;
      SelectSameMask(rows[1..], p, q);
    }
  }

  /** A mask that accepts every row selects the whole table. */
  lemma {:induction false} SelectAll(rows: seq<Call>, keep: Call -> bool)
    requires forall c :: c in rows ==> keep(c)
    ensures Select(rows, keep) == rows
    decreases |rows|
  {
    if |rows| > 0 {
      assert forall c :: c in rows[1..] ==> c in rows;
      SelectAll(rows[1..], keep);
      assert [rows[0]] + rows[1..] == rows;
    }
  }

  /** A mask that rejects every row selects nothing. */
  lemma {:induction false} SelectNone(rows: seq<Call>, keep: Call -> bool)
    requires forall c :: c in rows ==> !keep(c)
    ensures Select(rows, keep) == []
    decreases |rows|
  {
    if |rows| > 0 {
      assert forall c :: c in rows[1..] ==> c in rows;
      SelectNone(rows[1..], keep);
    }
  }

  /** Applying one mask after another is applying their conjunction. */
  lemma {:induction false} SelectTwice(rows: seq<Call>, p: Call -> bool, q: Call -> bool, both: Call -> bool)
    requires forall c :: both(c) == (p(c) && q(c))
    ensures Select(Select(rows, p), q) == Select(rows, both)
    decreases |rows|
  {
    if |rows| > 0 {
      var head := if p(rows[0]) then [rows[0]] else [];
      SelectAppend(head, Select(rows[1..], p), q);
      SelectTwice(rows[1..], p, q, both);
    }
  }

  /** A mask and its complement split the rows between them. */
  lemma {:induction false} SelectSplit(rows: seq<Call>, keep: Call -> bool, drop: Call -> bool)
    requires forall c :: drop(c) == !keep(c)
    ensures |Select(rows, keep)| + |Select(rows, drop)| == |rows|
    decreases |rows|
  {
    if |rows| > 0 {
      SelectSplit(rows[1..], keep, drop);
    }
  }

  /** The closed time window; a missing bound (an empty table's minimum or
      maximum) admits nothing, as pandas comparisons with a missing value
      are false. */
  predicate InWindow(t: Stamp, lo: Option<Stamp>, hi: Option<Stamp>) {
    lo.Some? && hi.Some? && lo.value <= t <= hi.value
  }

  /** The destination test: an empty selection means no restriction. */
  predicate DestinationSelected(c: Call, dests: seq<string>) {
    |dests| == 0 || c.dest in dests
  }

  /** The view the indicators and charts are computed from: first the time
      window, then (only when some destination is selected) the destination
      filter. */
  function View(rows: seq<Call>, lo: Option<Stamp>, hi: Option<Stamp>, dests: seq<string>): (view: seq<Call>)
    ensures |view| <= |rows|
    ensures forall c :: c in view <==>
      c in rows && InWindow(c.stamp, lo, hi) && DestinationSelected(c, dests)
  {
    var windowed := Select(rows, (c: Call) => InWindow(c.stamp, lo, hi));
    if |dests| > 0 then Select(windowed, (c: Call) => c.dest in dests) else windowed
  }

  /** The view is the single-pass selection of the rows that pass both tests. */
  lemma ViewIsOneSelection(rows: seq<Call>, lo: Option<Stamp>, hi: Option<Stamp>, dests: seq<string>)
    ensures View(rows, lo, hi, dests)
         == Select(rows, (c: Call) => InWindow(c.stamp, lo, hi) && DestinationSelected(c, dests))
  {
    var inWindow := (c: Call) => InWindow(c.stamp, lo, hi);
    if |dests| > 0 {
      SelectTwice(rows, inWindow, (c: Call) => c.dest in dests,
        (c: Call) => InWindow(c.stamp, lo, hi) && DestinationSelected(c, dests));
    } else {
      SelectSameMask(rows, inWindow, (c: Call) => InWindow(c.stamp, lo, hi) && DestinationSelected(c, dests));
    }
  }

  /** The view of a concatenated table is the concatenation of the views:
      the filter preserves table order. */
  lemma ViewAppend(a: seq<Call>, b: seq<Call>, lo: Option<Stamp>, hi: Option<Stamp>, dests: seq<string>)
    ensures View(a + b, lo, hi, dests) == View(a, lo, hi, dests) + View(b, lo, hi, dests)
  {
    var keep := (c: Call) => InWindow(c.stamp, lo, hi) && DestinationSelected(c, dests);
    ViewIsOneSelection(a + b, lo, hi, dests);
    ViewIsOneSelection(a, lo, hi, dests);
    ViewIsOneSelection(b, lo, hi, dests);
    SelectAppend(a, b, keep);
  }

  /** An end bound before the start bound gives an empty view; the range is
      not swapped. */
  lemma ReversedWindowIsEmpty(rows: seq<Call>, lo: Option<Stamp>, hi: Option<Stamp>, dests: seq<string>)
    requires lo.Some? && hi.Some? && hi.value < lo.value
    ensures View(rows, lo, hi, dests) == []
  {
    ViewIsOneSelection(rows, lo, hi, dests);
    SelectNone(rows, (c: Call) => InWindow(c.stamp, lo, hi) && DestinationSelected(c, dests));
  }

  /** Selecting no destination gives the same view as selecting every
      destination that occurs in the table. */
  lemma NoDestinationMeansAll(rows: seq<Call>, lo: Option<Stamp>, hi: Option<Stamp>, dests: seq<string>)
    requires forall c :: c in rows ==> c.dest in dests
    ensures View(rows, lo, hi, []) == View(rows, lo, hi, dests)
  {
    var windowed := Select(rows, (c: Call) => InWindow(c.stamp, lo, hi));
    if |dests| > 0 {
      SelectAll(windowed, (c: Call) => c.dest in dests);
    }
  }

  /** With the window covering every row and no destination selected, the
      view is the whole table. */
  lemma FullWindowKeepsAll(rows: seq<Call>, lo: Option<Stamp>, hi: Option<Stamp>)
    requires forall c :: c in rows ==> InWindow(c.stamp, lo, hi)
    ensures View(rows, lo, hi, []) == rows
  {
    SelectAll(rows, (c: Call) => InWindow(c.stamp, lo, hi));
  }
}
