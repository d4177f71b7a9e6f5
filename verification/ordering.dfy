/**
 * Strict total orders, sorted listings of finite sets, and the lexicographic
 * order Python uses for `str` (comparison code point by code point).
 *
 * `sorted(some_set)` in the source becomes `SortSet(s, lt)`: the unique
 * strictly ascending sequence whose elements are exactly `s`.
 */
module Ordering {

  import Seq

  /** `lt` is irreflexive, transitive and connected on the elements of `s`. */
  ghost predicate StrictTotalOn<T>(lt: (T, T) -> bool, s: set<T>) {
    && (forall x | x in s :: !lt(x, x))
    && (forall x, y, z | x in s && y in s && z in s :: lt(x, y) && lt(y, z) ==> lt(x, z))
    && (forall x, y | x in s && y in s :: x != y ==> lt(x, y) || lt(y, x))
  }

  /** Every element strictly precedes every later element. */
  ghost predicate SortedBy<T>(lt: (T, T) -> bool, xs: seq<T>) {
    forall i, j | 0 <= i < j < |xs| :: lt(xs[i], xs[j])
  }

  predicate IsMinOf<T>(lt: (T, T) -> bool, m: T, s: set<T>) {
    m in s && forall y | y in s && y != m :: lt(m, y)
  }

  lemma {:induction false} StrictTotalOnSubset<T>(lt: (T, T) -> bool, s: set<T>, t: set<T>)
    requires StrictTotalOn(lt, s)
    requires t <= s
    ensures StrictTotalOn(lt, t)
  {
  }

  /** A non-empty finite set has a least element under a strict total order. */
  lemma {:induction false} MinExists<T>(lt: (T, T) -> bool, s: set<T>)
    requires StrictTotalOn(lt, s)
    requires s != {}
    ensures exists m :: IsMinOf(lt, m, s)
    decreases |s|
  {
    var x :| x in s;
    if s == {x} {
      assert IsMinOf(lt, x, s);
    } else {
      var rest := s - {x};
      StrictTotalOnSubset(lt, s, rest);
      MinExists(lt, rest);
      var m :| IsMinOf(lt, m, rest);
      if lt(m, x) {
        assert IsMinOf(lt, m, s);
      } else {
        assert IsMinOf(lt, x, s);
      }
    }
  }

  /**
   * The ascending listing of a finite set: Python's `sorted(s)` for a set of
   * distinct values. `SortSetSorted` states the order.
   */
  function SortSet<T>(s: set<T>, lt: (T, T) -> bool): (r: seq<T>)
    requires StrictTotalOn(lt, s)
    ensures |r| == |s|
    ensures forall i | 0 <= i < |r| :: r[i] in s
    ensures forall x | x in s :: x in r
    decreases |s|
  {
    if s == {} then []
    else
      MinExists(lt, s);
      var m :| IsMinOf(lt, m, s);
      StrictTotalOnSubset(lt, s, s - {m});
      [m] + SortSet(s - {m}, lt)
  }

  /** The listing strictly ascends: each element is the least of those left. */
  lemma {:induction false} SortSetSorted<T>(s: set<T>, lt: (T, T) -> bool)
    requires StrictTotalOn(lt, s)
    ensures SortedBy(lt, SortSet(s, lt))
    decreases |s|
  {
    if s != {} {
      var r := SortSet(s, lt);
      var m := r[0];
      assert IsMinOf(lt, m, s) && r[1..] == SortSet(s - {m}, lt);
      StrictTotalOnSubset(lt, s, s - {m});
      SortSetSorted(s - {m}, lt);
      forall i, j | 0 <= i < j < |r|
        ensures lt(r[i], r[j])
      {
        if i > 0 {
          assert r[i] == r[1..][i - 1] && r[j] == r[1..][j - 1];
        } else {
          assert r[j] == r[1..][j - 1];
        }
      }
    }
  }

  /** A strictly sorted sequence has no repeated element. */
  lemma {:induction false} SortedDistinct<T>(lt: (T, T) -> bool, xs: seq<T>, i: int, j: int)
    requires StrictTotalOn(lt, set x | x in xs)
    requires SortedBy(lt, xs)
    requires 0 <= i < |xs| && 0 <= j < |xs| && i != j
    ensures xs[i] != xs[j]
  {
    if i < j {
      assert lt(xs[i], xs[j]);
    } else {
      assert lt(xs[j], xs[i]);
    }
  }

  lemma {:induction false} EmptyIffNoMember<T>(a: seq<T>)
    ensures a == [] <==> forall x :: x !in a
  {
    if a != [] {
      assert a[0] in a;
    }
  }

  /** The head of a strictly sorted sequence precedes every other element. */
  lemma {:induction false} SortedHead<T>(lt: (T, T) -> bool, xs: seq<T>, x: T)
    requires SortedBy(lt, xs)
    requires x in xs
    ensures x == xs[0] || lt(xs[0], x)
  {
    var i :| 0 <= i < |xs| && xs[i] == x;
    if i > 0 {
      assert lt(xs[0], xs[i]);
    }
  }

  /**
   * Two strictly sorted sequences with the same elements are equal: the
   * sorted listing of a set is unique, so it depends on the set alone.
   */
  lemma {:induction false} SortedUnique<T>(lt: (T, T) -> bool, a: seq<T>, b: seq<T>)
    requires StrictTotalOn(lt, set x | x in a)
    requires SortedBy(lt, a) && SortedBy(lt, b)
    requires forall x :: x in a <==> x in b
    ensures a == b
    decreases |a|
  {
    if b == [] {
      EmptyIffNoMember(a);
    } else {
      assert b[0] in a;
      assert a[0] in b;
      SortedHead(lt, a, b[0]);
      SortedHead(lt, b, a[0]);
      assert a[0] == b[0];
      var a', b' := a[1..], b[1..];
      forall x
        ensures x in a' <==> x in b'
      {
        if x in a' {
          var i :| 0 < i < |a| && a[i] == x;
          assert lt(a[0], x);
          assert x in b;
          SortedHead(lt, b, x);
        }
        if x in b' {
          var j :| 0 < j < |b| && b[j] == x;
          assert lt(b[0], x);
          assert x in a;
          SortedHead(lt, a, x);
        }
      }
      StrictTotalOnSubset(lt, set x | x in a, set x | x in a');
      SortedUnique(lt, a', b');
      assert a == [a[0]] + a' && b == [b[0]] + b';
    }
  }

  /**
   * Renaming the elements of a set by a map that carries one strict order into
   * another commutes with sorting: the listing of the renamed set `t` is the
   * renamed listing.
   */
  lemma {:induction false} SortSetRename<T, U>(s: set<T>, lt: (T, T) -> bool, f: T -> U, t: set<U>, lu: (U, U) -> bool)
    requires StrictTotalOn(lt, s)
    requires StrictTotalOn(lu, t)
    requires forall x | x in s :: f(x) in t
    requires forall y | y in t :: exists x | x in s :: f(x) == y
    requires forall x, y | x in s && y in s :: lt(x, y) ==> lu(f(x), f(y))
    ensures SortSet(t, lu) == Seq.Map(f, SortSet(s, lt))
  {
    var r := SortSet(s, lt);
    var a := SortSet(t, lu);
    var b := Seq.Map(f, r);
    SortSetSorted(s, lt);
    SortSetSorted(t, lu);
    RenameSorted(s, lt, f, lu, r);
    RenameSameMembers(s, f, t, r, a);
    SortedUnique(lu, a, b);
  }

  /** Renaming a sorted listing by an order-carrying map keeps it sorted. */
  lemma {:induction false} RenameSorted<T, U>(s: set<T>, lt: (T, T) -> bool, f: T -> U, lu: (U, U) -> bool, r: seq<T>)
    requires SortedBy(lt, r)
    requires forall i | 0 <= i < |r| :: r[i] in s
    requires forall x, y | x in s && y in s :: lt(x, y) ==> lu(f(x), f(y))
    ensures SortedBy(lu, Seq.Map(f, r))
  {
    var b := Seq.Map(f, r);
    forall i, j | 0 <= i < j < |b|
      ensures lu(b[i], b[j])
    {
      assert lt(r[i], r[j]);
    }
  }

  /** The renamed listing of `s` and the listing `a` of `t` hold the same elements. */
  lemma {:induction false} RenameSameMembers<T, U>(s: set<T>, f: T -> U, t: set<U>, r: seq<T>, a: seq<U>)
    requires forall i | 0 <= i < |r| :: r[i] in s
    requires forall x | x in s :: x in r
    requires forall i | 0 <= i < |a| :: a[i] in t
    requires forall y | y in t :: y in a
    requires forall x | x in s :: f(x) in t
    requires forall y | y in t :: exists x | x in s :: f(x) == y
    ensures (set y | y in a) == t
    ensures forall y :: y in a <==> y in Seq.Map(f, r)
  {
    var b := Seq.Map(f, r);
    forall y | y in a
      ensures y in b
    {
      var x :| x in s && f(x) == y;
      var i :| 0 <= i < |r| && r[i] == x;
      assert b[i] == y;
    }
    forall y | y in b
      ensures y in a
    {
      var i :| 0 <= i < |b| && b[i] == y;
      assert r[i] in s;
    }
  }

  /** Python's `<` on two `str` values: code point order, a proper prefix first. */
  predicate StrLt(a: string, b: string)
    decreases |a|
  {
    if |a| == 0 then |b| > 0
    else if |b| == 0 then false
    else if a[0] != b[0] then a[0] < b[0]
    else StrLt(a[1..], b[1..])
  }

  lemma {:induction false} StrLtIrreflexive(a: string)
    ensures !StrLt(a, a)
    decreases |a|
  {
    if |a| > 0 {
      StrLtIrreflexive(a[1..]);
    }
  }

  lemma {:induction false} StrLtTransitive(a: string, b: string, c: string)
    requires StrLt(a, b) && StrLt(b, c)
    ensures StrLt(a, c)
    decreases |a|
  {
    if |a| > 0 && a[0] == b[0] && b[0] == c[0] {
      StrLtTransitive(a[1..], b[1..], c[1..]);
    }
  }

  lemma {:induction false} StrLtConnected(a: string, b: string)
    requires a != b
    ensures StrLt(a, b) || StrLt(b, a)
    decreases |a|
  {
    if |a| > 0 && |b| > 0 && a[0] == b[0] {
      assert a == [a[0]] + a[1..] && b == [b[0]] + b[1..];
      StrLtConnected(a[1..], b[1..]);
    }
  }

  /** Python's string order is a strict total order on any set of strings. */
  lemma {:induction false} StrLtStrictTotal(s: set<string>)
    ensures StrictTotalOn(StrLt, s)
  {
    forall x | x in s
      ensures !StrLt(x, x)
    {
      StrLtIrreflexive(x);
    }
    forall x, y, z | x in s && y in s && z in s && StrLt(x, y) && StrLt(y, z)
      ensures StrLt(x, z)
    {
      StrLtTransitive(x, y, z);
    }
    forall x, y | x in s && y in s && x != y
      ensures StrLt(x, y) || StrLt(y, x)
    {
      StrLtConnected(x, y);
    }
  }

  predicate IntLt(a: int, b: int) {
    a < b
  }

  lemma {:induction false} IntLtStrictTotal(s: set<int>)
    ensures StrictTotalOn(IntLt, s)
  {
  }

  /** The least string of a non-empty set under Python's string order. */
  function LeastString(s: set<string>): (m: string)
    requires s != {}
    ensures m in s
    ensures forall y {:trigger StrLt(m, y)} | y in s && y != m :: StrLt(m, y)
  {
    StrLtStrictTotal(s);
    MinExists(StrLt, s);
    var m :| m in s && forall y {:trigger StrLt(m, y)} | y in s && y != m :: StrLt(m, y);
    m
  }

  /**
   * `sorted(...)` of a set of strings; `SortStringsHas` states that nothing
   * is lost and `SortStringsAscending` states the order.
   */
  function SortStrings(s: set<string>): (r: seq<string>)
    ensures |r| == |s|
    ensures forall i | 0 <= i < |r| :: r[i] in s
  {
    ListingLength(s);
    Listing(s)
  }

  /** The strings of `s`, by repeatedly taking the least. */
  function Listing(s: set<string>): (r: seq<string>)
    ensures forall i | 0 <= i < |r| :: r[i] in s
    decreases |s|
  {
    if s == {} then []
    else
      var m := LeastString(s);
      var rest := Listing(s - {m});
      assert forall i | 1 <= i <= |rest| :: ([m] + rest)[i] == rest[i - 1];
      [m] + rest
  }

  lemma {:induction false} ListingLength(s: set<string>)
    ensures |Listing(s)| == |s|
    decreases |s|
  {
    if s != {} {
      ListingLength(s - {LeastString(s)});
    }
  }

  /** Every member of the set appears in its sorted list. */
  lemma {:induction false} SortStringsHas(s: set<string>, x: string)
    requires x in s
    ensures x in SortStrings(s)
  {
    ListingHas(s, x);
  }

  lemma {:induction false} ListingHas(s: set<string>, x: string)
    requires x in s
    ensures x in Listing(s)
    decreases |s|
  {
    var m := LeastString(s);
    assert Listing(s) == [m] + Listing(s - {m});
    if x != m {
      ListingHas(s - {m}, x);
    }
  }

  /** The sorted strings strictly ascend. */
  lemma {:induction false} SortStringsAscending(s: set<string>, i: nat, j: nat)
    requires i < j < |s|
    ensures StrLt(SortStrings(s)[i], SortStrings(s)[j])
  {
    ListingLength(s);
    ListingAscending(s, i, j);
  }

  lemma {:induction false} ListingAscending(s: set<string>, i: nat, j: nat)
    requires i < j < |Listing(s)|
    ensures StrLt(Listing(s)[i], Listing(s)[j])
    decreases |s|
  {
    var m := LeastString(s);
    var rest := Listing(s - {m});
    var r := Listing(s);
    assert r == [m] + rest;
    assert r[j] == rest[j - 1];
    if i == 0 {
      assert rest[j - 1] in s - {m};
    } else {
      assert r[i] == rest[i - 1];
      ListingAscending(s - {m}, i - 1, j - 1);
    }
  }

  /** `sorted(...)` of a set of integers. */
  function SortInts(s: set<int>): (r: seq<int>)
    ensures |r| == |s|
    ensures forall x :: x in r <==> x in s
    ensures forall i, j | 0 <= i < j < |r| :: r[i] < r[j]
  {
    IntLtStrictTotal(s);
    SortSetSorted(s, IntLt);
    SortSet(s, IntLt)
  }
}

/** Small sequence helpers shared by the other modules. */
module Seq {

  function Map<T, U>(f: T -> U, xs: seq<T>): (r: seq<U>)
    ensures |r| == |xs|
    ensures forall i | 0 <= i < |xs| :: r[i] == f(xs[i])
  {
    seq(|xs|, i requires 0 <= i < |xs| => f(xs[i]))
  }

  /** `sum(xs)`. */
  function Sum(xs: seq<int>): int {
    if xs == [] then 0 else Sum(xs[..|xs| - 1]) + xs[|xs| - 1]
  }

  /** The pieces one after another. */
  function Flatten<T>(xss: seq<seq<T>>): seq<T> {
    if xss == [] then [] else Flatten(xss[..|xss| - 1]) + xss[|xss| - 1]
  }

  /** The length of every piece. */
  function Lengths<T>(xss: seq<seq<T>>): (ns: seq<nat>)
    ensures |ns| == |xss|
    ensures forall i | 0 <= i < |xss| :: ns[i] == |xss[i]|
  {
    seq(|xss|, i requires 0 <= i < |xss| => |xss[i]|)
  }

  lemma {:induction false} SumAppend(a: seq<int>, b: seq<int>)
    ensures Sum(a + b) == Sum(a) + Sum(b)
    decreases |b|
  {
    if b != [] {
      var n := |b| - 1;
      SumAppend(a, b[..n]);
      assert (a + b)[..|a + b| - 1] == a + b[..n];
    } else {
      assert a + b == a;
    }
  }

  lemma {:induction false} FlattenAppend<T>(a: seq<seq<T>>, b: seq<seq<T>>)
    ensures Flatten(a + b) == Flatten(a) + Flatten(b)
    decreases |b|
  {
    if b != [] {
      var n := |b| - 1;
      FlattenAppend(a, b[..n]);
      assert (a + b)[..|a + b| - 1] == a + b[..n];
    } else {
      assert a + b == a;
    }
  }

  /** The flattened sequence is as long as the pieces' lengths add up to. */
  lemma {:induction false} FlattenLength<T>(xss: seq<seq<T>>)
    ensures |Flatten(xss)| == Sum(Lengths(xss))
  {
    if xss != [] {
      var n := |xss| - 1;
      FlattenLength(xss[..n]);
      assert Lengths(xss)[..n] == Lengths(xss[..n]);
    }
  }

  /** Every element of the flattened sequence is an element of some piece. */
  lemma {:induction false} FlattenIn<T>(xss: seq<seq<T>>, p: nat)
    requires p < |Flatten(xss)|
    ensures exists j, q | 0 <= j < |xss| && 0 <= q < |xss[j]| :: Flatten(xss)[p] == xss[j][q]
  {
    var n := |xss| - 1;
    var init := Flatten(xss[..n]);
    assert Flatten(xss) == init + xss[n];
    if p < |init| {
      FlattenIn(xss[..n], p);
      var j, q :| 0 <= j < n && 0 <= q < |xss[..n][j]| && init[p] == xss[..n][j][q];
      assert xss[..n][j] == xss[j];
    } else {
      assert Flatten(xss)[p] == xss[n][p - |init|];
    }
  }

  /**
   * Piece `j` sits in the flattened sequence right after the pieces before
   * it: at offset `Sum(Lengths(xss)[..j])`.
   */
  lemma {:induction false} FlattenAt<T>(xss: seq<seq<T>>, j: nat)
    requires j < |xss|
    ensures var lo := Sum(Lengths(xss)[..j]);
      && 0 <= lo && lo + |xss[j]| <= |Flatten(xss)|
      && Flatten(xss)[lo..lo + |xss[j]|] == xss[j]
  {
    var before, after := xss[..j], xss[j + 1..];
    assert xss == before + [xss[j]] + after;
    FlattenAppend(before + [xss[j]], after);
    FlattenAppend(before, [xss[j]]);
    assert [xss[j]][..0] == [];
    assert Flatten([xss[j]]) == xss[j];
    FlattenLength(before);
    assert Lengths(xss)[..j] == Lengths(before);
    var lo := |Flatten(before)|;
    assert Flatten(xss) == Flatten(before) + xss[j] + Flatten(after);
    assert Flatten(xss)[lo..lo + |xss[j]|] == xss[j];
  }
}
