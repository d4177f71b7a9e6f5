/**
 * The directed temporal hypergraph of the DHyperNodeTPP converter: traders
 * numbered from 0 by their raw addresses, and either one hyperedge per fill
 * (maker to taker) or one hyperedge per time window (sellers to buyers),
 * written as `idx:ids` rows.
 */
module Directed {

  import opened Common
  import opened Fills
  import Ordering
  import Grouping
  import Nodes
  import Seq
  import Text

  /** A directed hyperedge: left (source) ids, right (target) ids and a time. */
  datatype DirectedEdge = DirectedEdge(left: seq<nat>, right: seq<nat>, time: int)

  /** Every raw maker and taker address of the fills. */
  function Wallets(fills: seq<Fill>): (w: set<string>)
    ensures forall i | 0 <= i < |fills| :: fills[i].maker in w && fills[i].taker in w
    ensures forall a | a in w :: exists i | 0 <= i < |fills| :: a == fills[i].maker || a == fills[i].taker
  {
    (set i | 0 <= i < |fills| :: fills[i].maker) + (set i | 0 <= i < |fills| :: fills[i].taker)
  }

  /** `create_node_mapping`: the sorted raw addresses numbered from 0. */
  function NodeMapping(fills: seq<Fill>): (ids: map<string, nat>)
    ensures ids.Keys == Wallets(fills)
  {
    Nodes.NodeIds(Wallets(fills), 0)
  }

  /** Every fill's maker and taker have an id. */
  predicate Known(fills: seq<Fill>, ids: map<string, nat>) {
    forall i | 0 <= i < |fills| :: fills[i].maker in ids && fills[i].taker in ids
  }

  lemma {:induction false} NodeMappingKnown(fills: seq<Fill>)
    ensures Known(fills, NodeMapping(fills))
  {
  }

  /**
   * The mapping is a bijection from the addresses onto `0..n-1` that keeps
   * their order: ids lie in range, follow the string order both ways, and
   * the address on line `k` of the sorted list has id `k`.
   */
  lemma {:induction false} NodeMappingOrder(fills: seq<Fill>, x: string, y: string)
    requires x in Wallets(fills) && y in Wallets(fills)
    ensures 0 <= NodeMapping(fills)[x] < |Wallets(fills)|
    ensures Ordering.StrLt(x, y) <==> NodeMapping(fills)[x] < NodeMapping(fills)[y]
    ensures x != y ==> NodeMapping(fills)[x] != NodeMapping(fills)[y]
  {
    var w := Wallets(fills);
    Nodes.NodeIdLabel(w, 0, x);
    Nodes.NodeIdsMonotone(w, 0, x, y);
    if x != y {
      Nodes.NodeIdsInjective(w, 0, x, y);
    }
  }

  lemma {:induction false} NodeMappingOnto(fills: seq<Fill>, k: nat)
    requires k < |Wallets(fills)|
    ensures var a := Ordering.SortStrings(Wallets(fills))[k];
      a in Wallets(fills) && NodeMapping(fills)[a] == k
  {
    Nodes.NodeIdAt(Wallets(fills), 0, k);
  }

  /** `transaction_based_hypergraph`: one edge per fill, maker to taker. */
  function TransactionEdges(fills: seq<Fill>, ids: map<string, nat>): (es: seq<DirectedEdge>)
    requires Known(fills, ids)
    ensures |es| == |fills|
    ensures forall i | 0 <= i < |fills| :: |es[i].left| == 1 && |es[i].right| == 1
  {
    seq(|fills|, i requires 0 <= i < |fills| =>
      DirectedEdge([ids[fills[i].maker]], [ids[fills[i].taker]], fills[i].timestamp))
  }

  /**
   * Edge `i` of transaction mode names fill `i`'s maker on the left and its
   * taker on the right (read back through the sorted address list) and
   * carries the fill's timestamp.
   */
  lemma {:induction false} TransactionEdge(fills: seq<Fill>, i: nat)
    requires i < |fills|
    ensures var e := TransactionEdges(fills, NodeMapping(fills))[i];
      var labels := Ordering.SortStrings(Wallets(fills));
      && e.left[0] < |labels| && labels[e.left[0]] == fills[i].maker
      && e.right[0] < |labels| && labels[e.right[0]] == fills[i].taker
      && e.time == fills[i].timestamp
  {
    var w := Wallets(fills);
    Nodes.NodeIdLabel(w, 0, fills[i].maker);
    Nodes.NodeIdLabel(w, 0, fills[i].taker);
  }

  /** The id of a fill's seller and buyer, by the `makerAssetId == "0"` rule. */
  function SellerId(f: Fill, ids: map<string, nat>): nat
    requires f.maker in ids && f.taker in ids
  {
    ids[RawSeller(f)]
  }

  function BuyerId(f: Fill, ids: map<string, nat>): nat
    requires f.maker in ids && f.taker in ids
  {
    ids[RawBuyer(f)]
  }

  /** `(window, seller id)` for every fill, in order. */
  function SellerPairs(fills: seq<Fill>, ids: map<string, nat>, w: int): (ps: seq<(int, nat)>)
    requires Known(fills, ids) && w != 0
    ensures |ps| == |fills|
    ensures forall i | 0 <= i < |fills| ::
      ps[i] == (WindowStart(fills[i].timestamp, w), SellerId(fills[i], ids))
  {
    seq(|fills|, i requires 0 <= i < |fills| =>
      (WindowStart(fills[i].timestamp, w), SellerId(fills[i], ids)))
  }

  /** `(window, buyer id)` for every fill, in order. */
  function BuyerPairs(fills: seq<Fill>, ids: map<string, nat>, w: int): (ps: seq<(int, nat)>)
    requires Known(fills, ids) && w != 0
    ensures |ps| == |fills|
    ensures forall i | 0 <= i < |fills| ::
      ps[i] == (WindowStart(fills[i].timestamp, w), BuyerId(fills[i], ids))
  {
    seq(|fills|, i requires 0 <= i < |fills| =>
      (WindowStart(fills[i].timestamp, w), BuyerId(fills[i], ids)))
  }

  /** The windows that hold at least one fill: the keys of `windows`. */
  function Windows(fills: seq<Fill>, w: int): set<int>
    requires w != 0
  {
    set i | 0 <= i < |fills| :: WindowStart(fills[i].timestamp, w)
  }

  /** `windows[t][side]`, which the `defaultdict` makes empty for a new window. */
  function Members(m: map<int, set<nat>>, t: int): set<nat> {
    if t in m then m[t] else {}
  }

  /** `sorted(...)` of a set of ids. */
  function SortIds(s: set<nat>): (r: seq<nat>)
    ensures |r| == |s|
    ensures forall x :: x in r <==> x in s
    ensures forall i, j | 0 <= i < j < |r| :: r[i] < r[j]
  {
    var r := Ordering.SortInts(s);
    assert forall i | 0 <= i < |r| :: r[i] in s;
    r
  }

  /** The edge of window `t`: its sorted sellers to its sorted buyers. */
  function WindowEdge(t: int, sellers: map<int, set<nat>>, buyers: map<int, set<nat>>): DirectedEdge {
    DirectedEdge(SortIds(Members(sellers, t)), SortIds(Members(buyers, t)), t)
  }

  /** `x` is the edge of a window of `ts` that has a seller and a buyer. */
  ghost predicate FullWindowEdge(ts: seq<int>, sellers: map<int, set<nat>>, buyers: map<int, set<nat>>, x: DirectedEdge) {
    x.time in ts && x == WindowEdge(x.time, sellers, buyers) && x.left != [] && x.right != []
  }

  /** Every edge is the edge of a window of `ts` that has a seller and a buyer. */
  ghost predicate EmitsOnlyFull(ts: seq<int>, sellers: map<int, set<nat>>, buyers: map<int, set<nat>>, es: seq<DirectedEdge>) {
    forall k | 0 <= k < |es| :: FullWindowEdge(ts, sellers, buyers, es[k])
  }

  /** Every window of `ts` with a seller and a buyer has an edge. */
  ghost predicate EmitsEveryFull(ts: seq<int>, sellers: map<int, set<nat>>, buyers: map<int, set<nat>>, es: seq<DirectedEdge>) {
    forall t | t in ts :: Members(sellers, t) != {} && Members(buyers, t) != {} ==>
      exists k | 0 <= k < |es| :: es[k].time == t
  }

  /**
   * The emission loop over the windows in order: an edge for each window
   * with at least one seller and one buyer, and no other edge.
   */
  function Emit(ts: seq<int>, sellers: map<int, set<nat>>, buyers: map<int, set<nat>>): (es: seq<DirectedEdge>)
    ensures |es| <= |ts|
    ensures EmitsOnlyFull(ts, sellers, buyers, es)
    ensures EmitsEveryFull(ts, sellers, buyers, es)
  {
    if ts == [] then []
    else
      var e := WindowEdge(ts[0], sellers, buyers);
      var rest := Emit(ts[1..], sellers, buyers);
      EmitStep(ts, sellers, buyers, rest);
      if e.left != [] && e.right != [] then [e] + rest else rest
  }

  /** One step of the loop keeps both halves of `Emit`'s contract. */
  lemma {:induction false} EmitStep(ts: seq<int>, sellers: map<int, set<nat>>, buyers: map<int, set<nat>>, rest: seq<DirectedEdge>)
    requires ts != []
    requires EmitsOnlyFull(ts[1..], sellers, buyers, rest) && EmitsEveryFull(ts[1..], sellers, buyers, rest)
    ensures var e := WindowEdge(ts[0], sellers, buyers);
      var es := if e.left != [] && e.right != [] then [e] + rest else rest;
      EmitsOnlyFull(ts, sellers, buyers, es) && EmitsEveryFull(ts, sellers, buyers, es)
  {
    var e := WindowEdge(ts[0], sellers, buyers);
    var full := e.left != [] && e.right != [];
    var es := if full then [e] + rest else rest;
    EmitStepOnly(ts, sellers, buyers, rest, e, full, es);
    EmitStepEvery(ts, sellers, buyers, rest, e, full, es);
  }

  lemma {:induction false} EmitStepOnly(ts: seq<int>, sellers: map<int, set<nat>>, buyers: map<int, set<nat>>, rest: seq<DirectedEdge>,
                                        e: DirectedEdge, full: bool, es: seq<DirectedEdge>)
    requires ts != [] && e == WindowEdge(ts[0], sellers, buyers)
    requires full == (e.left != [] && e.right != [])
    requires es == if full then [e] + rest else rest
    requires EmitsOnlyFull(ts[1..], sellers, buyers, rest)
    ensures EmitsOnlyFull(ts, sellers, buyers, es)
  {
    forall r | 0 <= r < |rest|
      ensures FullWindowEdge(ts, sellers, buyers, rest[r])
    {
      FullWindowEdgeWiden(ts, sellers, buyers, rest[r]);
    }
    if full {
      FirstWindowEdge(ts, sellers, buyers);
      forall k | 0 <= k < |es|
        ensures FullWindowEdge(ts, sellers, buyers, es[k])
      {
        if k > 0 {
          assert es[k] == rest[k - 1];
        }
      }
    }
  }

  /** The first window's edge, when it has both sides, is a full window edge. */
  lemma {:induction false} FirstWindowEdge(ts: seq<int>, sellers: map<int, set<nat>>, buyers: map<int, set<nat>>)
    requires ts != []
    requires WindowEdge(ts[0], sellers, buyers).left != [] && WindowEdge(ts[0], sellers, buyers).right != []
    ensures FullWindowEdge(ts, sellers, buyers, WindowEdge(ts[0], sellers, buyers))
  {
  }

  /** An edge of a window of `ts[1..]` is an edge of a window of `ts`. */
  lemma {:induction false} FullWindowEdgeWiden(ts: seq<int>, sellers: map<int, set<nat>>, buyers: map<int, set<nat>>, x: DirectedEdge)
    requires ts != [] && FullWindowEdge(ts[1..], sellers, buyers, x)
    ensures FullWindowEdge(ts, sellers, buyers, x)
  {
    var i :| 0 <= i < |ts[1..]| && ts[1..][i] == x.time;
    assert ts[i + 1] == x.time;
  }

  lemma {:induction false} EmitStepEvery(ts: seq<int>, sellers: map<int, set<nat>>, buyers: map<int, set<nat>>, rest: seq<DirectedEdge>,
                                         e: DirectedEdge, full: bool, es: seq<DirectedEdge>)
    requires ts != [] && e == WindowEdge(ts[0], sellers, buyers)
    requires full == (e.left != [] && e.right != [])
    requires es == if full then [e] + rest else rest
    requires EmitsEveryFull(ts[1..], sellers, buyers, rest)
    ensures EmitsEveryFull(ts, sellers, buyers, es)
  {
    forall t | t in ts && Members(sellers, t) != {} && Members(buyers, t) != {}
      ensures exists k | 0 <= k < |es| :: es[k].time == t
    {
      if t == ts[0] {
        var a :| a in Members(sellers, t);
        var b :| b in Members(buyers, t);
        assert a in e.left && b in e.right;
        assert es[0].time == t;
      } else {
        var i :| 0 <= i < |ts| && ts[i] == t;
        assert ts[1..][i - 1] == t;
        var r :| 0 <= r < |rest| && rest[r].time == t;
        var k := if full then r + 1 else r;
        assert es[k] == rest[r];
      }
    }
  }

  /** One edge per window, with no window dropped. */
  function EmitFull(ts: seq<int>, sellers: map<int, set<nat>>, buyers: map<int, set<nat>>): (es: seq<DirectedEdge>)
    ensures |es| == |ts|
  {
    seq(|ts|, k requires 0 <= k < |ts| => WindowEdge(ts[k], sellers, buyers))
  }

  /** Every window of `ts` has at least one seller and one buyer. */
  predicate Full(ts: seq<int>, sellers: map<int, set<nat>>, buyers: map<int, set<nat>>) {
    forall k | 0 <= k < |ts| :: Members(sellers, ts[k]) != {} && Members(buyers, ts[k]) != {}
  }

  /** When every window has both sides, the guard drops nothing. */
  lemma {:induction false} EmitAll(ts: seq<int>, sellers: map<int, set<nat>>, buyers: map<int, set<nat>>)
    requires Full(ts, sellers, buyers)
    ensures Emit(ts, sellers, buyers) == EmitFull(ts, sellers, buyers)
    decreases |ts|
  {
    if ts != [] {
      var t := ts[0];
      assert Full(ts[1..], sellers, buyers) by {
        assert forall k | 0 <= k < |ts[1..]| :: ts[1..][k] == ts[k + 1];
      }
      EmitAll(ts[1..], sellers, buyers);
      var e := WindowEdge(t, sellers, buyers);
      assert e.left != [] && e.right != [] by {
        var a :| a in Members(sellers, t);
        var b :| b in Members(buyers, t);
        assert a in e.left && b in e.right;
      }
      EmitFullCons(ts, sellers, buyers);
    }
  }

  lemma {:induction false} EmitFullCons(ts: seq<int>, sellers: map<int, set<nat>>, buyers: map<int, set<nat>>)
    requires ts != []
    ensures EmitFull(ts, sellers, buyers)
      == [WindowEdge(ts[0], sellers, buyers)] + EmitFull(ts[1..], sellers, buyers)
  {
  }

  /** The windows' sellers and buyers, grouped as the `defaultdict` does. */
  function SellersByWindow(fills: seq<Fill>, ids: map<string, nat>, w: int): map<int, set<nat>>
    requires Known(fills, ids) && w != 0
  {
    Grouping.Group(SellerPairs(fills, ids, w))
  }

  function BuyersByWindow(fills: seq<Fill>, ids: map<string, nat>, w: int): map<int, set<nat>>
    requires Known(fills, ids) && w != 0
  {
    Grouping.Group(BuyerPairs(fills, ids, w))
  }

  /**
   * `time_window_based_hypergraph`. A zero window divides by zero on the
   * first fill; with no fills nothing is divided and the result is empty.
   */
  function TimeWindowEdges(fills: seq<Fill>, ids: map<string, nat>, w: int): (r: Result<seq<DirectedEdge>>)
    requires Known(fills, ids)
    ensures r.Err? <==> w == 0 && fills != []
    ensures r.Err? ==> r.error == ZeroWindow
  {
    if w == 0 then
      if fills == [] then Ok([]) else Err(ZeroWindow)
    else
      Ok(Emit(Ordering.SortInts(Windows(fills, w)), SellersByWindow(fills, ids, w), BuyersByWindow(fills, ids, w)))
  }

  /** A seller id is in a window's group exactly when some fill of that window has it. */
  lemma {:induction false} SellerMember(fills: seq<Fill>, ids: map<string, nat>, w: int, t: int, x: nat)
    requires Known(fills, ids) && w != 0
    ensures x in Members(SellersByWindow(fills, ids, w), t) <==>
      exists i | 0 <= i < |fills| :: WindowStart(fills[i].timestamp, w) == t && SellerId(fills[i], ids) == x
  {
    var ps := SellerPairs(fills, ids, w);
    Grouping.GroupMembers(ps, t, x);
    if (t, x) in ps {
      var i :| 0 <= i < |ps| && ps[i] == (t, x);
    }
    if i :| 0 <= i < |fills| && WindowStart(fills[i].timestamp, w) == t && SellerId(fills[i], ids) == x {
      assert ps[i] == (t, x);
    }
  }

  /** A buyer id is in a window's group exactly when some fill of that window has it. */
  lemma {:induction false} BuyerMember(fills: seq<Fill>, ids: map<string, nat>, w: int, t: int, x: nat)
    requires Known(fills, ids) && w != 0
    ensures x in Members(BuyersByWindow(fills, ids, w), t) <==>
      exists i | 0 <= i < |fills| :: WindowStart(fills[i].timestamp, w) == t && BuyerId(fills[i], ids) == x
  {
    var ps := BuyerPairs(fills, ids, w);
    Grouping.GroupMembers(ps, t, x);
    if (t, x) in ps {
      var i :| 0 <= i < |ps| && ps[i] == (t, x);
    }
    if i :| 0 <= i < |fills| && WindowStart(fills[i].timestamp, w) == t && BuyerId(fills[i], ids) == x {
      assert ps[i] == (t, x);
    }
  }

  /** Every window holding a fill has a seller and a buyer, so the guard keeps it. */
  lemma {:induction false} WindowsFull(fills: seq<Fill>, ids: map<string, nat>, w: int, t: int)
    requires Known(fills, ids) && w != 0
    requires t in Windows(fills, w)
    ensures Members(SellersByWindow(fills, ids, w), t) != {}
    ensures Members(BuyersByWindow(fills, ids, w), t) != {}
  {
    var i :| 0 <= i < |fills| && WindowStart(fills[i].timestamp, w) == t;
    SellerMember(fills, ids, w, t, SellerId(fills[i], ids));
    BuyerMember(fills, ids, w, t, BuyerId(fills[i], ids));
  }

  /**
   * The `sellers and buyers` guard never drops a window: edge `k` is the
   * edge of the `k`-th window in ascending order.
   */
  lemma {:induction false} TimeWindowShape(fills: seq<Fill>, ids: map<string, nat>, w: int)
    requires Known(fills, ids) && w != 0
    ensures TimeWindowEdges(fills, ids, w).value == EmitFull(
      Ordering.SortInts(Windows(fills, w)), SellersByWindow(fills, ids, w), BuyersByWindow(fills, ids, w))
  {
    var ts := Ordering.SortInts(Windows(fills, w));
    var sellers, buyers := SellersByWindow(fills, ids, w), BuyersByWindow(fills, ids, w);
    forall k | 0 <= k < |ts|
      ensures Members(sellers, ts[k]) != {} && Members(buyers, ts[k]) != {}
    {
      WindowsFull(fills, ids, w, ts[k]);
    }
    EmitAll(ts, sellers, buyers);
  }

  /**
   * Edges come in strictly increasing window time, each window of a fill
   * has an edge, and every edge's time is the window of some fill.
   */
  lemma {:induction false} TimeWindowTimes(fills: seq<Fill>, ids: map<string, nat>, w: int, j: nat, k: nat)
    requires Known(fills, ids) && w != 0
    requires j < k < |TimeWindowEdges(fills, ids, w).value|
    ensures TimeWindowEdges(fills, ids, w).value[j].time < TimeWindowEdges(fills, ids, w).value[k].time
  {
    TimeWindowShape(fills, ids, w);
  }

  lemma {:induction false} TimeWindowCovers(fills: seq<Fill>, ids: map<string, nat>, w: int, t: int)
    requires Known(fills, ids) && w != 0
    ensures (exists k | 0 <= k < |TimeWindowEdges(fills, ids, w).value| ::
        TimeWindowEdges(fills, ids, w).value[k].time == t)
      <==> (exists i | 0 <= i < |fills| :: WindowStart(fills[i].timestamp, w) == t)
  {
    TimeWindowShape(fills, ids, w);
    var ts := Ordering.SortInts(Windows(fills, w));
    var sellers, buyers := SellersByWindow(fills, ids, w), BuyersByWindow(fills, ids, w);
    EmitFullTimes(ts, sellers, buyers);
    TimesCover(EmitFull(ts, sellers, buyers), ts, Windows(fills, w), t);
    if i :| 0 <= i < |fills| && WindowStart(fills[i].timestamp, w) == t {
      assert t in Windows(fills, w);
    }
  }

  /** Edge `k` of `EmitFull` carries the `k`-th time. */
  lemma {:induction false} EmitFullTimes(ts: seq<int>, sellers: map<int, set<nat>>, buyers: map<int, set<nat>>)
    ensures forall k | 0 <= k < |ts| :: EmitFull(ts, sellers, buyers)[k].time == ts[k]
  {
  }

  /** Edges carrying the times of a listing of `ws` have exactly the times in `ws`. */
  lemma {:induction false} TimesCover(es: seq<DirectedEdge>, ts: seq<int>, ws: set<int>, t: int)
    requires |es| == |ts| && forall k | 0 <= k < |ts| :: es[k].time == ts[k]
    requires forall x :: x in ts <==> x in ws
    ensures (exists k | 0 <= k < |es| :: es[k].time == t) <==> t in ws
  {
    if t in ws {
      var k :| 0 <= k < |ts| && ts[k] == t;
      assert es[k].time == t;
    }
  }

  /**
   * Edge `k`'s left list is non-empty, strictly ascending and holds exactly
   * the sellers of the fills in its window; its right list likewise holds
   * the buyers.
   */
  lemma {:induction false} TimeWindowMembers(fills: seq<Fill>, ids: map<string, nat>, w: int, k: nat, x: nat)
    requires Known(fills, ids) && w != 0
    requires k < |TimeWindowEdges(fills, ids, w).value|
    ensures var e := TimeWindowEdges(fills, ids, w).value[k];
      && e.left != [] && e.right != []
      && (forall p, q | 0 <= p < q < |e.left| :: e.left[p] < e.left[q])
      && (forall p, q | 0 <= p < q < |e.right| :: e.right[p] < e.right[q])
      && (x in e.left <==> exists i | 0 <= i < |fills| ::
            WindowStart(fills[i].timestamp, w) == e.time && SellerId(fills[i], ids) == x)
      && (x in e.right <==> exists i | 0 <= i < |fills| ::
            WindowStart(fills[i].timestamp, w) == e.time && BuyerId(fills[i], ids) == x)
  {
    TimeWindowShape(fills, ids, w);
    var ts := Ordering.SortInts(Windows(fills, w));
    SellerMember(fills, ids, w, ts[k], x);
    BuyerMember(fills, ids, w, ts[k], x);
    WindowsFull(fills, ids, w, ts[k]);
    var e := TimeWindowEdges(fills, ids, w).value[k];
    var a :| a in Members(SellersByWindow(fills, ids, w), ts[k]);
    var b :| b in Members(BuyersByWindow(fills, ids, w), ts[k]);
    assert a in e.left && b in e.right;
  }

  /** One `idx:ids` row of the left or right file. */
  function Row(idx: nat, ids: seq<nat>): (row: string)
    ensures Text.NatStr(idx) <= row
  {
    Text.NatStr(idx) + ":" + Text.Join(Seq.Map(Text.NatStr, ids), ',')
  }

  /** The left rows, the right rows and the time rows, all numbered from 0. */
  datatype Output = Output(left: seq<string>, right: seq<string>, times: seq<string>)

  /**
   * One time row: `idx`, a tab, and `float(time)`, which Python writes as the
   * integer followed by `.0`. It reads back as its index and its time.
   */
  function TimeRow(idx: nat, time: int): (row: string)
    ensures ParseTimeRow(row) == Some((idx, time))
  {
    var head, tail := Text.NatStr(idx), Text.IntStr(time) + ".0";
    NumberAvoids(head, '\t');
    WholeFloatText(time);
    RowHalves(head, tail, '\t');
    Text.NatStrRoundTrip(idx);
    head + "\t" + tail
  }

  /** Reads `[-]digits.0` back as an integer, if it has that shape. */
  function ReadWholeFloat(s: string): Option<int> {
    if !Text.EndsWith(s, ".0") then None
    else
      var body := s[..|s| - 2];
      if body != [] && body[0] == '-' && ValidNumber(body[1..]) then Some(-(Text.DigitsValue(body[1..]) as int))
      else if ValidNumber(body) then Some(Text.DigitsValue(body))
      else None
  }

  /** Reads an `idx<TAB>time` row back, if it has that shape. */
  function ParseTimeRow(row: string): Option<(nat, int)> {
    var fields := Text.Split(row, {'\t'});
    if |fields| != 2 || !ValidNumber(fields[0]) then None
    else
      match ReadWholeFloat(fields[1])
      case None => None
      case Some(t) => Some((Text.DigitsValue(fields[0]), t))
  }

  /** `float(time)`'s text holds no tab and reads back as `time`. */
  lemma {:induction false} WholeFloatText(time: int)
    ensures Text.NoneIn(Text.IntStr(time) + ".0", {'\t'})
    ensures ReadWholeFloat(Text.IntStr(time) + ".0") == Some(time)
  {
    var body := Text.IntStr(time);
    var s := body + ".0";
    forall k | 0 <= k < |s|
      ensures s[k] != '\t'
    {
      if k < |body| {
        IntTextChar(time, k);
      }
    }
    assert s[..|s| - 2] == body;
    assert s[|s| - 2..] == ".0";
    ReadIntText(time);
  }

  /** The text of an integer is digits after an optional minus sign. */
  lemma {:induction false} IntTextChar(time: int, k: nat)
    requires k < |Text.IntStr(time)|
    ensures Text.IntStr(time)[k] in Text.Digits || Text.IntStr(time)[k] == '-'
  {
    if time < 0 && k > 0 {
      assert Text.IntStr(time)[k] == Text.NatStr(-time)[k - 1];
    }
  }

  /** The two branches of `ReadWholeFloat` read an integer's text back. */
  lemma {:induction false} ReadIntText(time: int)
    ensures var body := Text.IntStr(time);
      if time < 0 then
        body != [] && body[0] == '-' && ValidNumber(body[1..]) && -(Text.DigitsValue(body[1..]) as int) == time
      else
        !(body != [] && body[0] == '-') && ValidNumber(body) && Text.DigitsValue(body) == time
  {
    var body := Text.IntStr(time);
    if time >= 0 {
      Text.NatStrRoundTrip(time);
      assert body[0] in Text.Digits;
    } else {
      Text.NatStrRoundTrip(-time);
      assert body[1..] == Text.NatStr(-time);
    }
  }

  /** The contents of the three files `write_hypergraph_files` writes. */
  function Write(es: seq<DirectedEdge>): (o: Output)
    ensures |o.left| == |o.right| == |o.times| == |es|
  {
    Output(
      seq(|es|, i requires 0 <= i < |es| => Row(i, es[i].left)),
      seq(|es|, i requires 0 <= i < |es| => Row(i, es[i].right)),
      seq(|es|, i requires 0 <= i < |es| => TimeRow(i, es[i].time)))
  }

  /** Reads an `idx:ids` row back, if it has that shape. */
  function ParseRow(row: string): (r: Option<(nat, seq<nat>)>) {
    var halves := Text.Split(row, {':'});
    if |halves| != 2 || !ValidNumber(halves[0]) then None
    else
      var pieces := Text.Split(halves[1], {','});
      if forall k | 0 <= k < |pieces| :: ValidNumber(pieces[k]) then
        Some((Text.DigitsValue(halves[0]), seq(|pieces|, k requires 0 <= k < |pieces| && ValidNumber(pieces[k]) => Text.DigitsValue(pieces[k]))))
      else None
  }

  predicate ValidNumber(s: string) {
    s != [] && Text.AllIn(s, 0, |s|, Text.Digits)
  }

  /** Decimal text holds no `:` and no `,`. */
  lemma {:induction false} NumberAvoids(s: string, c: char)
    requires Text.AllIn(s, 0, |s|, Text.Digits) && c !in Text.Digits
    ensures Text.NoneIn(s, {c})
  {
  }

  /** Joining pieces free of `cs` with a separator outside `cs` gives text free of `cs`. */
  lemma {:induction false} JoinAvoids(parts: seq<string>, sep: char, cs: set<char>)
    requires sep !in cs
    requires forall k | 0 <= k < |parts| :: Text.NoneIn(parts[k], cs)
    ensures Text.NoneIn(Text.Join(parts, sep), cs)
    decreases |parts|
  {
    if |parts| > 1 {
      var init := parts[..|parts| - 1];
      JoinAvoids(init, sep, cs);
      var a, b := Text.Join(init, sep) + [sep], parts[|parts| - 1];
      assert Text.Join(parts, sep) == a + b;
      assert forall k | 0 <= k < |a + b| :: (a + b)[k] == if k < |a| then a[k] else b[k - |a|];
    }
  }

  /** The decimal texts of the ids. */
  function Numbers(ids: seq<nat>): (ns: seq<string>)
    ensures |ns| == |ids|
    ensures forall k | 0 <= k < |ids| :: ns[k] == Text.NatStr(ids[k])
  {
    Seq.Map(Text.NatStr, ids)
  }

  /** A row reads back as its index and its ids, whenever it lists at least one id. */
  lemma {:induction false} RowRoundTrip(idx: nat, ids: seq<nat>)
    requires ids != []
    ensures ParseRow(Row(idx, ids)) == Some((idx, ids))
  {
    var ns := Numbers(ids);
    assert Seq.Map(Text.NatStr, ids) == ns;
    var j := Text.Join(ns, ',');
    var head := Text.NatStr(idx);
    forall k | 0 <= k < |ns|
      ensures Text.NoneIn(ns[k], {','}) && Text.NoneIn(ns[k], {':'})
    {
      NumberAvoids(ns[k], ',');
      NumberAvoids(ns[k], ':');
    }
    JoinAvoids(ns, ',', {':'});
    NumberAvoids(head, ':');
    RowHalves(head, j, ':');
    Text.SplitJoin(ns, ',');
    Text.NatStrRoundTrip(idx);
    ReadNumbers(ids, ns);
    ParseRowOf(Row(idx, ids), head, j, ns, idx, ids);
  }

  /** `ParseRow` on a row whose two halves and whose id pieces are known. */
  lemma {:induction false} ParseRowOf(row: string, head: string, j: string, ns: seq<string>, idx: nat, ids: seq<nat>)
    requires Text.Split(row, {':'}) == [head, j]
    requires ValidNumber(head) && Text.DigitsValue(head) == idx
    requires Text.Split(j, {','}) == ns
    requires forall k | 0 <= k < |ns| :: ValidNumber(ns[k])
    requires seq(|ns|, k requires 0 <= k < |ns| && ValidNumber(ns[k]) => Text.DigitsValue(ns[k])) == ids
    ensures ParseRow(row) == Some((idx, ids))
  {
  }

  /** A row splits on its separator into the text before it and the text after it. */
  lemma {:induction false} RowHalves(head: string, j: string, sep: char)
    requires Text.NoneIn(head, {sep}) && Text.NoneIn(j, {sep})
    ensures Text.Split(head + [sep] + j, {sep}) == [head, j]
  {
    var parts := [head, j];
    assert parts[..1] == [head];
    assert Text.Join(parts, sep) == head + [sep] + j;
    Text.SplitJoin(parts, sep);
  }

  /** Reading the decimal texts back gives the ids. */
  lemma {:induction false} ReadNumbers(ids: seq<nat>, ns: seq<string>)
    requires ns == Numbers(ids)
    ensures forall k | 0 <= k < |ns| :: ValidNumber(ns[k])
    ensures seq(|ns|, k requires 0 <= k < |ns| && ValidNumber(ns[k]) => Text.DigitsValue(ns[k])) == ids
  {
    forall k | 0 <= k < |ns|
      ensures ValidNumber(ns[k]) && Text.DigitsValue(ns[k]) == ids[k]
    {
      Text.NatStrRoundTrip(ids[k]);
    }
  }

  /**
   * Row `i` of each output file begins with `i`: the left and right rows
   * read back as `i` and edge `i`'s ids.
   */
  lemma {:induction false} WriteRows(es: seq<DirectedEdge>, i: nat)
    requires i < |es|
    requires es[i].left != [] && es[i].right != []
    ensures ParseRow(Write(es).left[i]) == Some((i, es[i].left))
    ensures ParseRow(Write(es).right[i]) == Some((i, es[i].right))
    ensures Text.StartsWith(Write(es).times[i], Text.NatStr(i) + "\t")
  {
    RowRoundTrip(i, es[i].left);
    RowRoundTrip(i, es[i].right);
    var t := Write(es).times[i];
    var p := Text.NatStr(i) + "\t";
    assert t == p + (Text.IntStr(es[i].time) + ".0");
    assert t[..|p|] == p;
  }
}
