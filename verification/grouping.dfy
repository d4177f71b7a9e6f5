/**
 * `defaultdict(set)` filled by `d[key].add(member)` over a sequence of
 * (key, member) pairs, and Python `dict` built by assigning items one at a
 * time.
 */
module Grouping {

  /**
   * The grouping loop: each pair adds its member to its key's set, creating
   * the set on first use.
   */
  function Group<K, V>(ps: seq<(K, V)>): (m: map<K, set<V>>)
    ensures forall k | k in m :: m[k] != {}
    ensures forall k | k in m :: forall v | v in m[k] :: (k, v) in ps
    ensures forall i | 0 <= i < |ps| :: ps[i].0 in m && ps[i].1 in m[ps[i].0]
  {
    if ps == [] then map[]
    else
      var m := Group(ps[..|ps| - 1]);
      var (k, v) := ps[|ps| - 1];
      assert forall i | 0 <= i < |ps| - 1 :: ps[..|ps| - 1][i] == ps[i];
      m[k := (if k in m then m[k] else {}) + {v}]
  }

  /** Keys and members of the grouping are exactly the pairs of the input. */
  lemma {:induction false} GroupMembers<K, V>(ps: seq<(K, V)>, k: K, v: V)
    ensures (k in Group(ps) && v in Group(ps)[k]) <==> (k, v) in ps
  {
  }

  /** A key is present exactly when some pair carries it. */
  lemma {:induction false} GroupKeys<K, V>(ps: seq<(K, V)>)
    ensures Group(ps).Keys == set i | 0 <= i < |ps| :: ps[i].0
  {
    var m := Group(ps);
    forall k | k in m
      ensures k in set i | 0 <= i < |ps| :: ps[i].0
    {
      var v :| v in m[k];
      var i :| 0 <= i < |ps| && ps[i] == (k, v);
    }
  }

  /**
   * The grouping depends on the set of pairs alone: not on their order or
   * their repetition.
   */
  lemma {:induction false} GroupSamePairs<K, V>(ps: seq<(K, V)>, qs: seq<(K, V)>)
    requires forall p | p in ps :: p in qs
    requires forall q | q in qs :: q in ps
    ensures Group(ps) == Group(qs)
  {
    var a, b := Group(ps), Group(qs);
    forall k | k in a
      ensures k in b && a[k] == b[k]
    {
      var v :| v in a[k];
      assert (k, v) in qs;
      forall u | u in a[k]
        ensures u in b[k]
      {
        assert (k, u) in qs;
        var j :| 0 <= j < |qs| && qs[j] == (k, u);
      }
      forall u | u in b[k]
        ensures u in a[k]
      {
        assert (k, u) in ps;
        var j :| 0 <= j < |ps| && ps[j] == (k, u);
      }
    }
    forall k | k in b
      ensures k in a
    {
      var v :| v in b[k];
      assert (k, v) in ps;
      var j :| 0 <= j < |ps| && ps[j] == (k, v);
    }
  }

  /** Grouping a permutation of the pairs gives the same grouping. */
  lemma {:induction false} GroupPermutation<K, V>(ps: seq<(K, V)>, qs: seq<(K, V)>)
    requires multiset(ps) == multiset(qs)
    ensures Group(ps) == Group(qs)
  {
    forall p | p in ps
      ensures p in qs
    {
      assert p in multiset(ps);
    }
    forall q | q in qs
      ensures q in ps
    {
      assert q in multiset(qs);
    }
    GroupSamePairs(ps, qs);
  }

  /** The injectivity `GroupRename` needs: `f` does not merge two keys of `ps`. */
  ghost predicate InjectiveOnKeys<K, V, L>(ps: seq<(K, V)>, f: K -> L) {
    forall i, j | 0 <= i < |ps| && 0 <= j < |ps| :: f(ps[i].0) == f(ps[j].0) ==> ps[i].0 == ps[j].0
  }

  /**
   * Renaming keys by a map that is one-to-one on them renames the groups and
   * keeps every member set.
   */
  lemma {:induction false} GroupRename<K, V, L>(ps: seq<(K, V)>, f: K -> L)
    requires InjectiveOnKeys(ps, f)
    ensures var g, h := Group(ps), Group(RenameKeys(ps, f));
      && (forall k | k in g :: f(k) in h && h[f(k)] == g[k])
      && (forall l | l in h :: exists k | k in g :: f(k) == l)
  {
    var g, h := Group(ps), Group(RenameKeys(ps, f));
    forall k | k in g
      ensures f(k) in h && h[f(k)] == g[k]
    {
      GroupRenameAt(ps, f, k);
    }
    GroupRenameNoNewKeys(ps, f);
  }

  lemma {:induction false} GroupRenameAt<K, V, L>(ps: seq<(K, V)>, f: K -> L, k: K)
    requires InjectiveOnKeys(ps, f)
    requires k in Group(ps)
    ensures f(k) in Group(RenameKeys(ps, f))
    ensures Group(RenameKeys(ps, f))[f(k)] == Group(ps)[k]
  {
    RenameKeepsMembers(ps, f, k);
    RenameAddsNoMembers(ps, f, k);
  }

  lemma {:induction false} RenameKeepsMembers<K, V, L>(ps: seq<(K, V)>, f: K -> L, k: K)
    requires k in Group(ps)
    ensures f(k) in Group(RenameKeys(ps, f))
    ensures forall u | u in Group(ps)[k] :: u in Group(RenameKeys(ps, f))[f(k)]
  {
    var qs := RenameKeys(ps, f);
    forall u | u in Group(ps)[k]
      ensures f(k) in Group(qs) && u in Group(qs)[f(k)]
    {
      var j :| 0 <= j < |ps| && ps[j] == (k, u);
      assert qs[j] == (f(k), u);
    }
    var v :| v in Group(ps)[k];
  }

  lemma {:induction false} RenameAddsNoMembers<K, V, L>(ps: seq<(K, V)>, f: K -> L, k: K)
    requires InjectiveOnKeys(ps, f)
    requires k in Group(ps)
    requires f(k) in Group(RenameKeys(ps, f))
    ensures forall u | u in Group(RenameKeys(ps, f))[f(k)] :: u in Group(ps)[k]
  {
    var v :| v in Group(ps)[k];
    var i :| 0 <= i < |ps| && ps[i] == (k, v);
    forall u | u in Group(RenameKeys(ps, f))[f(k)]
      ensures u in Group(ps)[k]
    {
      RenameAddsNoMember(ps, f, i, u);
    }
  }

  lemma {:induction false} RenameAddsNoMember<K, V, L>(ps: seq<(K, V)>, f: K -> L, i: nat, u: V)
    requires InjectiveOnKeys(ps, f)
    requires i < |ps|
    requires f(ps[i].0) in Group(RenameKeys(ps, f)) && u in Group(RenameKeys(ps, f))[f(ps[i].0)]
    ensures (ps[i].0, u) in ps
  {
    var qs := RenameKeys(ps, f);
    var j :| 0 <= j < |qs| && qs[j] == (f(ps[i].0), u);
    assert qs[j] == (f(ps[j].0), ps[j].1);
    assert ps[j].0 == ps[i].0;
    assert ps[j] == (ps[i].0, u);
  }

  lemma {:induction false} GroupRenameNoNewKeys<K, V, L>(ps: seq<(K, V)>, f: K -> L)
    ensures forall l | l in Group(RenameKeys(ps, f)) :: exists k | k in Group(ps) :: f(k) == l
  {
    forall l | l in Group(RenameKeys(ps, f))
      ensures exists k | k in Group(ps) :: f(k) == l
    {
      RenameNoNewKey(ps, f, l);
    }
  }

  lemma {:induction false} RenameNoNewKey<K, V, L>(ps: seq<(K, V)>, f: K -> L, l: L)
    requires l in Group(RenameKeys(ps, f))
    ensures exists k | k in Group(ps) :: f(k) == l
  {
    var qs := RenameKeys(ps, f);
    var j := PairOfKey(qs, l);
    assert qs[j] == (f(ps[j].0), ps[j].1);
    assert ps[j].0 in Group(ps);
  }

  /** An index of a pair that carries the key `k` of the grouping. */
  ghost function PairOfKey<K, V>(ps: seq<(K, V)>, k: K): (j: nat)
    requires k in Group(ps)
    ensures j < |ps| && ps[j].0 == k
  {
    var v :| v in Group(ps)[k];
    var j :| 0 <= j < |ps| && ps[j] == (k, v);
    j
  }

  /** Every pair with its key renamed. */
  function RenameKeys<K, V, L>(ps: seq<(K, V)>, f: K -> L): (qs: seq<(L, V)>)
    ensures |qs| == |ps|
    ensures forall i | 0 <= i < |ps| :: qs[i] == (f(ps[i].0), ps[i].1)
  {
    seq(|ps|, i requires 0 <= i < |ps| => (f(ps[i].0), ps[i].1))
  }

  /** The keys of a sequence of items, in order. */
  function KeysOf<K, V>(items: seq<(K, V)>): (ks: seq<K>)
    ensures |ks| == |items|
    ensures forall i | 0 <= i < |items| :: ks[i] == items[i].0
  {
    seq(|items|, i requires 0 <= i < |items| => items[i].0)
  }

  /** No key occurs twice. */
  predicate DistinctKeys<K(==), V>(items: seq<(K, V)>) {
    forall i, j | 0 <= i < j < |items| :: items[i].0 != items[j].0
  }

  /** Index of the first item with key `k`. */
  function FirstIndex<K(==), V>(items: seq<(K, V)>, k: K): (i: nat)
    requires exists j | 0 <= j < |items| :: items[j].0 == k
    ensures i < |items| && items[i].0 == k
    ensures forall j | 0 <= j < i :: items[j].0 != k
  {
    if items[0].0 == k then 0
    else
      assert exists j | 0 <= j < |items[1..]| :: items[1..][j].0 == k by {
        var j :| 0 <= j < |items| && items[j].0 == k;
        assert items[1..][j - 1].0 == k;
      }
      1 + FirstIndex(items[1..], k)
  }

  /** `d[k] = v` on a dict listed as its items in insertion order. */
  function Assign<K(==), V>(d: seq<(K, V)>, k: K, v: V): (r: seq<(K, V)>)
    ensures |r| == |d| || |r| == |d| + 1
  {
    if exists j | 0 <= j < |d| :: d[j].0 == k then d[FirstIndex(d, k) := (k, v)]
    else d + [(k, v)]
  }

  /**
   * `for k, v in items: d[k] = v`, starting from an empty dict. A key keeps
   * the position of its first assignment and the value of its last.
   */
  function DictOf<K(==), V>(items: seq<(K, V)>): (d: seq<(K, V)>)
    ensures DistinctKeys(d)
    ensures |d| <= |items|
  {
    if items == [] then []
    else
      var d := DictOf(items[..|items| - 1]);
      var (k, v) := items[|items| - 1];
      AssignDistinct(d, k, v);
      Assign(d, k, v)
  }

  lemma {:induction false} AssignDistinct<K, V>(d: seq<(K, V)>, k: K, v: V)
    requires DistinctKeys(d)
    ensures DistinctKeys(Assign(d, k, v))
  {
  }

  /** The first occurrence of each element, in order of first occurrence. */
  function Distinct<T(==)>(xs: seq<T>): (r: seq<T>)
    ensures forall i | 0 <= i < |r| :: r[i] in xs
    ensures forall i | 0 <= i < |xs| :: xs[i] in r
    ensures forall i, j | 0 <= i < j < |r| :: r[i] != r[j]
  {
    if xs == [] then []
    else
      var init := Distinct(xs[..|xs| - 1]);
      var x := xs[|xs| - 1];
      assert xs == xs[..|xs| - 1] + [x];
      if x in init then init else init + [x]
  }

  /** The value of the last item with key `k`. */
  function LastValue<K(==), V>(items: seq<(K, V)>, k: K): V
    requires exists i | 0 <= i < |items| :: items[i].0 == k
  {
    var n := |items| - 1;
    if items[n].0 == k then items[n].1
    else
      assert exists i | 0 <= i < n :: items[..n][i].0 == k by {
        var i :| 0 <= i < |items| && items[i].0 == k;
        assert items[..n][i].0 == k;
      }
      LastValue(items[..n], k)
  }

  /** Building a dict item by item lists every key once, in order of first occurrence. */
  lemma {:induction false} DictOfKeys<K, V>(items: seq<(K, V)>)
    ensures KeysOf(DictOf(items)) == Distinct(KeysOf(items))
  {
    if items != [] {
      var n := |items| - 1;
      var init := items[..n];
      var (k, v) := items[n];
      DictOfKeys(init);
      var d0 := DictOf(init);
      var ks := KeysOf(items);
      assert ks[..n] == KeysOf(init);
      assert ks[n] == k;
      var prior := Distinct(KeysOf(init));
      assert Distinct(ks) == if k in prior then prior else prior + [k];
      AssignKeys(d0, k, v);
      assert DictOf(items) == Assign(d0, k, v);
    }
  }

  /** The dict has a key exactly when some item carries it. */
  lemma {:induction false} DictOfHasKey<K, V>(items: seq<(K, V)>, k: K)
    ensures (exists j | 0 <= j < |DictOf(items)| :: DictOf(items)[j].0 == k)
      <==> (exists i | 0 <= i < |items| :: items[i].0 == k)
  {
    DictOfKeys(items);
    var ks, dk := KeysOf(items), KeysOf(DictOf(items));
    if j :| 0 <= j < |dk| && dk[j] == k {
      assert k in Distinct(ks);
      var i :| 0 <= i < |ks| && ks[i] == k;
    }
    if i :| 0 <= i < |ks| && items[i].0 == k {
      assert ks[i] == k;
      assert k in Distinct(ks);
      var j :| 0 <= j < |dk| && dk[j] == k;
    }
  }

  lemma {:induction false} AssignKeys<K, V>(d: seq<(K, V)>, k: K, v: V)
    ensures KeysOf(Assign(d, k, v)) == if k in KeysOf(d) then KeysOf(d) else KeysOf(d) + [k]
  {
    if exists j | 0 <= j < |d| :: d[j].0 == k {
      var p := FirstIndex(d, k);
      assert KeysOf(d)[p] == k;
    } else {
      assert KeysOf(d + [(k, v)]) == KeysOf(d) + [k];
    }
  }

  /** `e`'s key occurs in `items` and `e` holds the value of its last occurrence. */
  ghost predicate HoldsLast<K, V>(items: seq<(K, V)>, e: (K, V)) {
    (exists i | 0 <= i < |items| :: items[i].0 == e.0) && e.1 == LastValue(items, e.0)
  }

  /** Every key of the built dict holds the value of that key's last item. */
  lemma {:induction false} DictOfValues<K, V>(items: seq<(K, V)>)
    ensures forall j | 0 <= j < |DictOf(items)| :: HoldsLast(items, DictOf(items)[j])
  {
    if items != [] {
      var n := |items| - 1;
      var init := items[..n];
      var (k, v) := items[n];
      DictOfValues(init);
      var d0 := DictOf(init);
      var d := DictOf(items);
      assert d == Assign(d0, k, v);
      forall j | 0 <= j < |d|
        ensures HoldsLast(items, d[j])
      {
        AssignAt(d0, k, v, j);
        if d[j] == (k, v) {
          assert items[n].0 == d[j].0;
        } else {
          assert d[j] == d0[j] && d0[j].0 != k;
          assert HoldsLast(init, d0[j]);
          var i :| 0 <= i < |init| && init[i].0 == d0[j].0;
          assert items[i].0 == d[j].0;
          assert LastValue(items, d[j].0) == LastValue(init, d[j].0);
        }
      }
    }
  }

  lemma {:induction false} AssignAt<K, V>(d: seq<(K, V)>, k: K, v: V, j: nat)
    requires DistinctKeys(d)
    requires j < |Assign(d, k, v)|
    ensures var r := Assign(d, k, v);
      r[j] == (k, v) || (j < |d| && r[j] == d[j] && d[j].0 != k)
  {
  }
}
