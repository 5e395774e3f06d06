/** The dictionaries and label lists of analysis.py:58 and 72-81: a Python
    dict built from key/value pairs (a later pair for the same key wins),
    the distinct values of a column in order of first appearance, and the
    maps sending each label to its position in a label list. */
module Indexing {

  /** `dict(pairs)`, or a dict comprehension over `pairs`: each pair sets its
      key, so the last pair for a key decides its value. */
  function DictOf<K, V>(pairs: seq<(K, V)>): map<K, V>
    decreases |pairs|
  {
    if pairs == [] then map[]
    else
      var n := |pairs| - 1;
      DictOf(pairs[..n])[pairs[n].0 := pairs[n].1]
  }

  /** The keys of `dict(pairs)` are exactly the keys of the pairs, and each
      key holds the value of the last pair that names it. */
  lemma {:induction false} DictOfSpec<K, V>(pairs: seq<(K, V)>)
    ensures DictOf(pairs).Keys == set i | 0 <= i < |pairs| :: pairs[i].0
    ensures forall i :: 0 <= i < |pairs| && (forall j :: i < j < |pairs| ==> pairs[j].0 != pairs[i].0) ==>
              DictOf(pairs)[pairs[i].0] == pairs[i].1
    decreases |pairs|
  {
    if pairs != [] {
      var n := |pairs| - 1;
      var front := pairs[..n];
      DictOfSpec(front);
      assert forall i :: 0 <= i < n ==> front[i] == pairs[i];
      assert (set i | 0 <= i < |pairs| :: pairs[i].0)
          == (set i | 0 <= i < n :: front[i].0) + {pairs[n].0};
      forall i | 0 <= i < |pairs| && (forall j :: i < j < |pairs| ==> pairs[j].0 != pairs[i].0)
        ensures DictOf(pairs)[pairs[i].0] == pairs[i].1
      {
        if i < n {
          assert pairs[n].0 != pairs[i].0;
          assert forall j :: i < j < n ==> front[j].0 != front[i].0;
        }
      }
    }
  }

  /** No label occurs twice. */
  predicate NoDuplicates<T(==)>(xs: seq<T>) {
    forall i, j :: 0 <= i < j < |xs| ==> xs[i] != xs[j]
  }

  /** The position of the first occurrence of `x` in `xs`. */
  function FirstIndex<T(==)>(xs: seq<T>, x: T): (i: nat)
    requires x in xs
    ensures i < |xs| && xs[i] == x && x !in xs[..i]
  {
    if xs[0] == x then 0 else 1 + FirstIndex(xs[1..], x)
  }

  /** `pd.unique(xs)`: each distinct value once, in order of first appearance. */
  function Distinct<T(==)>(xs: seq<T>): (d: seq<T>)
    ensures NoDuplicates(d)
    ensures forall i :: 0 <= i < |xs| ==> xs[i] in d
    decreases |xs|
  {
    if xs == [] then []
    else
      var n := |xs| - 1;
      var d := Distinct(xs[..n]);
      if xs[n] in d then d else d + [xs[n]]
  }

  lemma FirstIndexOfPrefix<T>(xs: seq<T>, n: nat, x: T)
    requires n <= |xs| && x in xs[..n]
    ensures FirstIndex(xs, x) == FirstIndex(xs[..n], x)
  {
    var i, j := FirstIndex(xs, x), FirstIndex(xs[..n], x);
    assert xs[..n][j] == xs[j] && xs[..n][..j] == xs[..j];
    assert forall k :: 0 <= k < j ==> xs[..j][k] == xs[k];
    assert forall k :: 0 <= k < i ==> xs[..i][k] == xs[k];
  }

  /** `pd.unique` adds no value of its own: each label comes from `xs`. */
  lemma {:induction false} DistinctFromInput<T>(xs: seq<T>)
    ensures forall i :: 0 <= i < |Distinct(xs)| ==> Distinct(xs)[i] in xs
    decreases |xs|
  {
    if xs != [] {
      var n := |xs| - 1;
      DistinctFromInput(xs[..n]);
      assert forall y :: y in xs[..n] ==> y in xs;
    }
  }

  /** `pd.unique` keeps the order of first appearance: an earlier label
      first appears earlier in `xs`. */
  lemma {:induction false} DistinctFirstAppearanceOrder<T>(xs: seq<T>)
    ensures forall i, j :: 0 <= i < j < |Distinct(xs)| ==>
      Distinct(xs)[i] in xs && Distinct(xs)[j] in xs &&
      FirstIndex(xs, Distinct(xs)[i]) < FirstIndex(xs, Distinct(xs)[j])
    decreases |xs|
  {
    DistinctFromInput(xs);
    if xs != [] {
      var n := |xs| - 1;
      DistinctFirstAppearanceOrder(xs[..n]);
      DistinctFromInput(xs[..n]);
      forall i, j | 0 <= i < j < |Distinct(xs)|
        ensures FirstIndex(xs, Distinct(xs)[i]) < FirstIndex(xs, Distinct(xs)[j])
      {
        var d := Distinct(xs[..n]);
        if j < |d| {
          assert d[i] in xs[..n] && d[j] in xs[..n];
          assert FirstIndex(xs[..n], d[i]) < FirstIndex(xs[..n], d[j]);
        }
        OrderStep(xs, i, j);
      }
    }
  }

  /** One step of the induction above: appending a value keeps the first
      appearances of the earlier labels and puts a new label last. */
  lemma OrderStep<T>(xs: seq<T>, i: nat, j: nat)
    requires xs != [] && i < j < |Distinct(xs)|
    requires var n, d := |xs| - 1, Distinct(xs[..|xs| - 1]); j < |d| ==>
      d[i] in xs[..n] && d[j] in xs[..n] && FirstIndex(xs[..n], d[i]) < FirstIndex(xs[..n], d[j])
    requires Distinct(xs)[i] in xs && Distinct(xs)[j] in xs
    ensures FirstIndex(xs, Distinct(xs)[i]) < FirstIndex(xs, Distinct(xs)[j])
  {
    var n := |xs| - 1;
    var d, e := Distinct(xs[..n]), Distinct(xs);
    assert i < |d| && e[i] == d[i];
    FirstIndexOfPrefix(xs, n, d[i]);
    if j < |d| {
      assert e[j] == d[j];
      FirstIndexOfPrefix(xs, n, d[j]);
    } else {
      assert e[j] == xs[n] && xs[n] !in d;
      NewLabelFirstAtEnd(xs);
    }
  }

  /** A value not seen before the last position first appears there. */
  lemma NewLabelFirstAtEnd<T>(xs: seq<T>)
    requires xs != [] && xs[|xs| - 1] !in Distinct(xs[..|xs| - 1])
    ensures FirstIndex(xs, xs[|xs| - 1]) == |xs| - 1
  {
    var n := |xs| - 1;
    var d := Distinct(xs[..n]);
    forall m | 0 <= m < n ensures xs[m] != xs[n] {
      assert xs[..n][m] == xs[m] && xs[..n][m] in d;
    }
  }

  /** The pairs `(labels[i], i)`: `enumerate`, with each pair flipped. */
  function Positions<T>(labels: seq<T>): (ps: seq<(T, nat)>)
    ensures |ps| == |labels|
    ensures forall i :: 0 <= i < |labels| ==> ps[i] == (labels[i], i)
  {
    seq(|labels|, i requires 0 <= i < |labels| => (labels[i], i))
  }

  /** The map from each label to its position in `labels` (analysis.py:75-76). */
  function IndexMap<T>(labels: seq<T>): map<T, nat> {
    DictOf(Positions(labels))
  }

  /** For labels without duplicates the index map is a bijection between the
      labels and 0 .. |labels| - 1, inverse to indexing into `labels`: label
      `labels[i]` maps to `i`, and every key is a label. */
  lemma IndexMapBijection<T>(labels: seq<T>)
    requires NoDuplicates(labels)
    ensures forall i :: 0 <= i < |labels| ==> labels[i] in IndexMap(labels) && IndexMap(labels)[labels[i]] == i
    ensures forall x :: x in IndexMap(labels) ==> IndexMap(labels)[x] < |labels| && labels[IndexMap(labels)[x]] == x
  {
    var ps := Positions(labels);
    DictOfSpec(ps);
    forall i | 0 <= i < |labels| ensures labels[i] in IndexMap(labels) && IndexMap(labels)[labels[i]] == i {
      assert ps[i] == (labels[i], i);
      forall j | i < j < |ps| ensures ps[j].0 != ps[i].0 { }
    }
  }

  /** `Series.map(m)` on a column whose every entry is a key of `m`. */
  function MapColumn<K, V>(m: map<K, V>, col: seq<K>): (r: seq<V>)
    requires forall i :: 0 <= i < |col| ==> col[i] in m
    ensures |r| == |col|
  {
    seq(|col|, i requires 0 <= i < |col| => m[col[i]])
  }

  /** Mapping a column of labels through the index map gives, for each entry,
      a position of `labels` that holds that entry. */
  lemma IndexColumn<T>(labels: seq<T>, col: seq<T>)
    requires NoDuplicates(labels)
    requires forall i :: 0 <= i < |col| ==> col[i] in labels
    ensures forall i :: 0 <= i < |col| ==> col[i] in IndexMap(labels)
    ensures forall i :: 0 <= i < |col| ==>
      MapColumn(IndexMap(labels), col)[i] < |labels| && labels[MapColumn(IndexMap(labels), col)[i]] == col[i]
  {
    IndexMapBijection(labels);
    forall i | 0 <= i < |col| ensures col[i] in IndexMap(labels) {
      var j :| 0 <= j < |labels| && labels[j] == col[i];
    }
  }
}
