/** `groupby(key).size()` and `groupby(key)[col].sum()`: the rows' (key, value)
    pairs folded into one group per distinct key, holding the sum of that
    key's values. */
module Grouping {

  /** One group: a key and the sum of the values filed under it. */
  datatype Group<K> = Group(key: K, total: nat)

  /** The keys of a list of groups. */
  function KeySet<K(==)>(gs: seq<Group<K>>): set<K> {
    set g | g in gs :: g.key
  }

  predicate DistinctKeys<K(==)>(gs: seq<Group<K>>) {
    forall i, j :: 0 <= i < j < |gs| ==> gs[i].key != gs[j].key
  }

  /** The total of the group with key `k`, or 0 when there is none: the
      `reindex(...).fillna(0)` lookup. */
  function Lookup<K(==,!new)>(gs: seq<Group<K>>, k: K): nat
    decreases |gs|
  {
    if |gs| == 0 then 0
    else if gs[0].key == k then gs[0].total
    else Lookup(gs[1..], k)
  }

  /** The sum of all group totals. */
  function Total<K>(gs: seq<Group<K>>): nat
    decreases |gs|
  {
    if |gs| == 0 then 0 else gs[0].total + Total(gs[1..])
  }

  // ---------------------------------------------------------------------
  // The ungrouped input: one (key, value) pair per row

  /** The distinct keys of the pairs. */
  function KeysOf<K(==)>(ps: seq<(K, nat)>): set<K> {
    set p | p in ps :: p.0
  }

  /** The sum of the values filed under `k`. */
  function SumFor<K(==,!new)>(ps: seq<(K, nat)>, k: K): nat
    decreases |ps|
  {
    if |ps| == 0 then 0
    else SumFor(ps[..|ps| - 1], k) + (if ps[|ps| - 1].0 == k then ps[|ps| - 1].1 else 0)
  }

  /** The sum of all values. */
  function SumAll<K>(ps: seq<(K, nat)>): nat
    decreases |ps|
  {
    if |ps| == 0 then 0 else SumAll(ps[..|ps| - 1]) + ps[|ps| - 1].1
  }

  // ---------------------------------------------------------------------
  // Grouping

  /** Files value `v` under key `k`: adds it to the existing group, or opens a
      new group at the end (groups stay in order of first appearance). */
  function Add<K(==,!new)>(gs: seq<Group<K>>, k: K, v: nat): (r: seq<Group<K>>)
    requires DistinctKeys(gs)
    ensures DistinctKeys(r)
    ensures KeySet(r) == KeySet(gs) + {k}
    ensures Total(r) == Total(gs) + v
    ensures forall x :: Lookup(r, x) == Lookup(gs, x) + (if x == k then v else 0)
    decreases |gs|
  {
    if |gs| == 0 then
      [Group(k, v)]
    else if gs[0].key == k then
      var r := [Group(k, gs[0].total + v)] + gs[1..];
      assert r[1..] == gs[1..];
      assert KeySet(gs) == {k} + KeySet(gs[1..]);
      assert KeySet(r) == {k} + KeySet(gs[1..]);
      r
    else
      var rest := Add(gs[1..], k, v);
      var r := [gs[0]] + rest;
      assert r[1..] == rest;
      assert KeySet(gs) == {gs[0].key} + KeySet(gs[1..]);
      assert KeySet(r) == {gs[0].key} + KeySet(rest);
      r
  }

  /** The groups of the pairs, in order of first appearance. */
  function GroupBy<K(==,!new)>(ps: seq<(K, nat)>): (r: seq<Group<K>>)
    ensures DistinctKeys(r)
    ensures KeySet(r) == KeysOf(ps)
    ensures Total(r) == SumAll(ps)
    ensures forall k :: Lookup(r, k) == SumFor(ps, k)
    decreases |ps|
  {
    if |ps| == 0 then []
    else
      var last := ps[|ps| - 1];
      assert ps == ps[..|ps| - 1] + [last];
      assert KeysOf(ps) == KeysOf(ps[..|ps| - 1]) + {last.0};
      Add(GroupBy(ps[..|ps| - 1]), last.0, last.1)
  }

  /** With distinct keys there is one group per key. */
  lemma {:induction false} DistinctKeysCount<K>(gs: seq<Group<K>>)
    requires DistinctKeys(gs)
    ensures |KeySet(gs)| == |gs|
    decreases |gs|
  {
    if |gs| > 0 {
      assert KeySet(gs) == {gs[0].key} + KeySet(gs[1..]);
      assert gs[0].key !in KeySet(gs[1..]);
      DistinctKeysCount(gs[1..]);
    }
  }

  /** There is exactly one group per distinct key, so the grouping is empty
      exactly when there are no rows. */
  lemma GroupCount<K(!new)>(ps: seq<(K, nat)>)
    ensures |GroupBy(ps)| == |KeysOf(ps)|
    ensures |GroupBy(ps)| == 0 <==> |ps| == 0
  {
    DistinctKeysCount(GroupBy(ps));
    if |ps| > 0 {
      assert ps[0].0 in KeysOf(ps);
    }
  }

  /** When every value is 1 (`size()`), the values add up to the number of
      rows. */
  lemma {:induction false} SumAllOnes<K>(ps: seq<(K, nat)>)
    requires forall i :: 0 <= i < |ps| ==> ps[i].1 == 1
    ensures SumAll(ps) == |ps|
    decreases |ps|
  {
    if |ps| > 0 {
      SumAllOnes(ps[..|ps| - 1]);
    }
  }

  // ---------------------------------------------------------------------
  // Counting rows per key (`size()`)

  /** One (key, 1) pair per row. */
  function Ones<K>(keys: seq<K>): (ps: seq<(K, nat)>)
    ensures |ps| == |keys|
    ensures forall i :: 0 <= i < |ps| ==> ps[i] == (keys[i], 1)
  {
    seq(|keys|, i requires 0 <= i < |keys| => (keys[i], 1))
  }

  /** How many times `k` occurs among the keys. */
  function Occurrences<K(==)>(keys: seq<K>, k: K): (n: nat)
    ensures n <= |keys|
    ensures n > 0 <==> k in keys
    decreases |keys|
  {
    if |keys| == 0 then 0
    else
      var init := keys[..|keys| - 1];
      assert keys == init + [keys[|keys| - 1]];
      Occurrences(init, k) + (if keys[|keys| - 1] == k then 1 else 0)
  }

  /** `groupby(key).size()`: one group per distinct key, holding the number of
      rows with that key. */
  function Sizes<K(==,!new)>(keys: seq<K>): (r: seq<Group<K>>)
    ensures DistinctKeys(r)
    ensures KeySet(r) == set k | k in keys
    ensures Total(r) == |keys|
    ensures forall k :: Lookup(r, k) == Occurrences(keys, k)
    ensures |r| == 0 <==> |keys| == 0
  {
    var ps := Ones(keys);
    SumAllOnes(ps);
    OnesOccurrences(keys);
    GroupCount(ps);
    assert KeysOf(ps) == set k | k in keys by {
      forall k | k in keys ensures k in KeysOf(ps) {
        var i :| 0 <= i < |keys| && keys[i] == k;
        assert ps[i] in ps;
      }
    }
    GroupBy(ps)
  }

  lemma {:induction false} OnesOccurrences<K(!new)>(keys: seq<K>)
    ensures forall k :: SumFor(Ones(keys), k) == Occurrences(keys, k)
    decreases |keys|
  {
    if |keys| > 0 {
      var init := keys[..|keys| - 1];
      assert Ones(keys)[..|keys| - 1] == Ones(init);
      OnesOccurrences(init);
    }
  }
}
