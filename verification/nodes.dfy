/**
 * Node numbering: addresses sorted as Python sorts strings, numbered
 * consecutively from a base (1 for the congress-bills files, 0 for the
 * directed files).
 */
module Nodes {

  import Ordering

  /** The sorted address list holds no address twice. */
  lemma {:induction false} LabelsDistinct(s: set<string>, i: nat, j: nat)
    requires i < j < |s|
    ensures Ordering.SortStrings(s)[i] != Ordering.SortStrings(s)[j]
  {
    Ordering.SortStringsAscending(s, i, j);
    Ordering.StrLtIrreflexive(Ordering.SortStrings(s)[i]);
  }

  /**
   * `{a: i + base for i, a in enumerate(sorted(s))}`: every address of `s`
   * is numbered (`NodeIdAt` gives the numbers).
   */
  function NodeIds(s: set<string>, base: nat): (ids: map<string, nat>)
    ensures ids.Keys == s
  {
    var labels := Ordering.SortStrings(s);
    LabelsUnique(s);
    LabelsComplete(s);
    map i | 0 <= i < |labels| :: labels[i] := i + base
  }

  /** The address on line `i` of the label list gets `i + base`. */
  lemma {:induction false} NodeIdAt(s: set<string>, base: nat, i: nat)
    requires i < |s|
    ensures NodeIds(s, base)[Ordering.SortStrings(s)[i]] == i + base
  {
    LabelsUnique(s);
  }

  /** No two lines of the label list hold the same address. */
  lemma {:induction false} LabelsUnique(s: set<string>)
    ensures forall i, j | 0 <= i < j < |Ordering.SortStrings(s)| ::
      Ordering.SortStrings(s)[i] != Ordering.SortStrings(s)[j]
  {
    forall i, j | 0 <= i < j < |Ordering.SortStrings(s)|
      ensures Ordering.SortStrings(s)[i] != Ordering.SortStrings(s)[j]
    {
      LabelsDistinct(s, i, j);
    }
  }

  /** Every address has a line in the label list. */
  lemma {:induction false} LabelsComplete(s: set<string>)
    ensures forall x | x in s :: x in Ordering.SortStrings(s)
  {
    forall x | x in s
      ensures x in Ordering.SortStrings(s)
    {
      Ordering.SortStringsHas(s, x);
    }
  }

  /**
   * Each address's id lies in `[base, base + |s|)` and is its line in the
   * label list, counted from `base`.
   */
  lemma {:induction false} NodeIdLabel(s: set<string>, base: nat, x: string)
    requires x in s
    ensures base <= NodeIds(s, base)[x] < base + |s|
    ensures Ordering.SortStrings(s)[NodeIds(s, base)[x] - base] == x
  {
    var labels := Ordering.SortStrings(s);
    Ordering.SortStringsHas(s, x);
    var i :| 0 <= i < |labels| && labels[i] == x;
    NodeIdAt(s, base, i);
  }

  /** Distinct addresses get distinct ids. */
  lemma {:induction false} NodeIdsInjective(s: set<string>, base: nat, x: string, y: string)
    requires x in s && y in s && x != y
    ensures NodeIds(s, base)[x] != NodeIds(s, base)[y]
  {
    NodeIdLabel(s, base, x);
    NodeIdLabel(s, base, y);
  }

  /** Ids ascend with the addresses: the numbering is monotone. */
  lemma {:induction false} NodeIdsMonotone(s: set<string>, base: nat, x: string, y: string)
    requires x in s && y in s
    ensures Ordering.StrLt(x, y) <==> NodeIds(s, base)[x] < NodeIds(s, base)[y]
  {
    var ids := NodeIds(s, base);
    var labels := Ordering.SortStrings(s);
    NodeIdLabel(s, base, x);
    NodeIdLabel(s, base, y);
    var i, j := ids[x] - base, ids[y] - base;
    assert labels[i] == x && labels[j] == y;
    Ordering.StrLtIrreflexive(x);
    if i < j {
      Ordering.SortStringsAscending(s, i, j);
    } else if j < i {
      Ordering.SortStringsAscending(s, j, i);
      if Ordering.StrLt(x, y) {
        Ordering.StrLtTransitive(x, y, x);
      }
    }
  }

  /** The ids of `xs`, in order. */
  function IdsOf(xs: seq<string>, ids: map<string, nat>): (r: seq<nat>)
    requires forall i | 0 <= i < |xs| :: xs[i] in ids
    ensures |r| == |xs|
    ensures forall i | 0 <= i < |xs| :: r[i] == ids[xs[i]]
  {
    seq(|xs|, i requires 0 <= i < |xs| => ids[xs[i]])
  }

  /**
   * `r` is how a hyperedge over `t` is written: strictly ascending ids, each
   * in range, naming exactly the members of `t` through the label list.
   */
  ghost predicate BlockOf(r: seq<nat>, s: set<string>, base: nat, t: set<string>) {
    && (forall p, q | 0 <= p < q < |r| :: r[p] < r[q])
    && (forall p | 0 <= p < |r| :: base <= r[p] < base + |s| && Ordering.SortStrings(s)[r[p] - base] in t)
    && (forall x | x in t :: exists p | 0 <= p < |r| :: Ordering.SortStrings(s)[r[p] - base] == x)
  }

  /** `ids` numbers every member of `t` by its line in `labels`, counted from `base`. */
  ghost predicate Numbers(ids: map<string, nat>, labels: seq<string>, base: nat, t: set<string>) {
    forall x | x in t :: x in ids && base <= ids[x] < base + |labels| && labels[ids[x] - base] == x
  }

  lemma {:induction false} NodeIdsNumber(s: set<string>, base: nat, t: set<string>)
    requires t <= s
    ensures Numbers(NodeIds(s, base), Ordering.SortStrings(s), base, t)
  {
    forall x | x in t
      ensures base <= NodeIds(s, base)[x] < base + |s|
      ensures Ordering.SortStrings(s)[NodeIds(s, base)[x] - base] == x
    {
      NodeIdLabel(s, base, x);
    }
  }

  /** The ids of a subset, taken in sorted order, form its block. */
  lemma {:induction false} SortedIds(s: set<string>, base: nat, t: set<string>)
    requires t <= s
    ensures BlockOf(IdsOf(Ordering.SortStrings(t), NodeIds(s, base)), s, base, t)
  {
    var xs := Ordering.SortStrings(t);
    var ids := NodeIds(s, base);
    var r := IdsOf(xs, ids);
    NodeIdsNumber(s, base, t);
    SortedIdsAscend(s, base, t, xs, r);
    SortedIdsNamed(ids, Ordering.SortStrings(s), base, t, xs, r);
    SortedIdsCover(ids, Ordering.SortStrings(s), base, t, xs, r);
    assert BlockOf(r, s, base, t);
  }

  lemma {:induction false} SortedIdsAscend(s: set<string>, base: nat, t: set<string>, xs: seq<string>, r: seq<nat>)
    requires t <= s && xs == Ordering.SortStrings(t) && r == IdsOf(xs, NodeIds(s, base))
    ensures forall p, q | 0 <= p < q < |r| :: r[p] < r[q]
  {
    forall p, q | 0 <= p < q < |r|
      ensures r[p] < r[q]
    {
      Ordering.SortStringsAscending(t, p, q);
      NodeIdsMonotone(s, base, xs[p], xs[q]);
    }
  }

  lemma {:induction false} SortedIdsNamed(ids: map<string, nat>, labels: seq<string>, base: nat, t: set<string>, xs: seq<string>, r: seq<nat>)
    requires Numbers(ids, labels, base, t) && xs == Ordering.SortStrings(t)
    requires forall i | 0 <= i < |xs| :: xs[i] in ids
    requires r == IdsOf(xs, ids)
    ensures forall p | 0 <= p < |r| :: base <= r[p] < base + |labels| && labels[r[p] - base] in t
  {
    forall p | 0 <= p < |r|
      ensures base <= r[p] < base + |labels| && labels[r[p] - base] in t
    {
      assert xs[p] in t;
    }
  }

  lemma {:induction false} SortedIdsCover(ids: map<string, nat>, labels: seq<string>, base: nat, t: set<string>, xs: seq<string>, r: seq<nat>)
    requires Numbers(ids, labels, base, t) && xs == Ordering.SortStrings(t)
    requires forall i | 0 <= i < |xs| :: xs[i] in ids
    requires r == IdsOf(xs, ids)
    ensures forall x | x in t :: exists p | 0 <= p < |r| :: base <= r[p] && labels[r[p] - base] == x
  {
    forall x | x in t
      ensures exists p | 0 <= p < |r| :: base <= r[p] && labels[r[p] - base] == x
    {
      Ordering.SortStringsHas(t, x);
      var p :| 0 <= p < |xs| && xs[p] == x;
      assert r[p] == ids[x];
    }
  }
}
