/**
 * The undirected temporal hypergraph: one hyperedge per
 * (market, outcome token, UTC day, side), holding the lower-cased addresses
 * of the traders on that side, listed in ascending key order.
 *
 * The three builders of the source (`build_hypergraph_from_fills` for one
 * market, `build_hypergraph` and the aggregation inside
 * `generate_unified_hypergraph` across markets, `build_per_market_hypergraph`
 * without a market component) share one definition, `Build`, over fills
 * tagged with the market component of their keys.
 */
module Undirected {

  import opened Common
  import opened Fills
  import opened Grouping
  import Ordering
  import Seq

  /**
   * A hyperedge key `(market, outcome_token, day_start, side)`. Per-market
   * keys are the triple `(outcome_token, day_start, side)`, written here
   * with `market == None`.
   */
  datatype EdgeKey = EdgeKey(market: Option<string>, outcome: string, dayStart: int, side: Side)

  datatype Hyperedge = Hyperedge(key: EdgeKey, traders: set<string>)

  /** The hyperedge list and the set of all traders, as the builders return them. */
  datatype Hypergraph = Hypergraph(edges: seq<Hyperedge>, traders: set<string>)

  /** A classified fill with the market component its keys get. */
  datatype Tagged = Tagged(market: Option<string>, trade: Trade)

  /** Market components compare as strings; the absent component never meets a present one. */
  predicate MarketLt(a: Option<string>, b: Option<string>) {
    match (a, b)
    case (None, Some(_)) => true
    case (Some(x), Some(y)) => Ordering.StrLt(x, y)
    case _ => false
  }

  /** The sort key `(day_start, market, outcome, side)`, compared as a Python tuple. */
  predicate KeyLt(a: EdgeKey, b: EdgeKey) {
    if a.dayStart != b.dayStart then a.dayStart < b.dayStart
    else if a.market != b.market then MarketLt(a.market, b.market)
    else if a.outcome != b.outcome then Ordering.StrLt(a.outcome, b.outcome)
    else SideLt(a.side, b.side)
  }

  lemma {:induction false} StrLtFacts(a: string, b: string, c: string)
    ensures !Ordering.StrLt(a, a)
    ensures Ordering.StrLt(a, b) && Ordering.StrLt(b, c) ==> Ordering.StrLt(a, c)
    ensures a != b ==> Ordering.StrLt(a, b) || Ordering.StrLt(b, a)
  {
    Ordering.StrLtIrreflexive(a);
    if Ordering.StrLt(a, b) && Ordering.StrLt(b, c) {
      Ordering.StrLtTransitive(a, b, c);
    }
    if a != b {
      Ordering.StrLtConnected(a, b);
    }
  }

  lemma {:induction false} SideLtFacts(a: Side, b: Side)
    ensures !SideLt(a, a)
    ensures a != b ==> SideLt(a, b) != SideLt(b, a)
  {
    BuyBeforeSell();
  }

  lemma {:induction false} KeyLtFacts(a: EdgeKey, b: EdgeKey, c: EdgeKey)
    ensures !KeyLt(a, a)
    ensures KeyLt(a, b) && KeyLt(b, c) ==> KeyLt(a, c)
    ensures a != b ==> KeyLt(a, b) || KeyLt(b, a)
  {
    StrLtFacts(a.outcome, b.outcome, c.outcome);
    StrLtFacts(b.outcome, a.outcome, c.outcome);
    if a.market.Some? && b.market.Some? && c.market.Some? {
      StrLtFacts(a.market.value, b.market.value, c.market.value);
    }
    if a.market.Some? && b.market.Some? {
      StrLtFacts(b.market.value, a.market.value, a.market.value);
    }
    SideLtFacts(a.side, b.side);
    SideLtFacts(b.side, c.side);
    SideLtFacts(a.side, c.side);
  }

  /** The key order is a strict total order, so sorting the keys is well defined. */
  lemma {:induction false} KeyLtStrictTotal(s: set<EdgeKey>)
    ensures Ordering.StrictTotalOn(KeyLt, s)
  {
    forall a, b, c | a in s && b in s && c in s
      ensures !KeyLt(a, a)
      ensures KeyLt(a, b) && KeyLt(b, c) ==> KeyLt(a, c)
      ensures a != b ==> KeyLt(a, b) || KeyLt(b, a)
    {
      KeyLtFacts(a, b, c);
    }
  }

  /** `sorted(keys)` under the key order. */
  function SortKeys(s: set<EdgeKey>): (r: seq<EdgeKey>)
    ensures |r| == |s|
    ensures forall i | 0 <= i < |r| :: r[i] in s
    ensures forall k | k in s :: k in r
  {
    KeyLtStrictTotal(s);
    Ordering.SortSet(s, KeyLt)
  }

  /** The sorted keys strictly ascend. */
  lemma {:induction false} SortKeysAscending(s: set<EdgeKey>)
    ensures forall i, j | 0 <= i < j < |SortKeys(s)| :: KeyLt(SortKeys(s)[i], SortKeys(s)[j])
  {
    KeyLtStrictTotal(s);
    Ordering.SortSetSorted(s, KeyLt);
  }

  /** The two (key, trader) additions one fill makes: its buyer and its seller. */
  function Contributions(t: Tagged): (ps: seq<(EdgeKey, string)>)
    ensures |ps| == 2
  {
    var c := t.trade;
    [(EdgeKey(t.market, c.outcome, c.dayStart, Buy), c.buyer),
     (EdgeKey(t.market, c.outcome, c.dayStart, Sell), c.seller)]
  }

  /** The additions of all fills, in input order. */
  function Pairs(ts: seq<Tagged>): (ps: seq<(EdgeKey, string)>)
    ensures |ps| == 2 * |ts|
  {
    if ts == [] then [] else Pairs(ts[..|ts| - 1]) + Contributions(ts[|ts| - 1])
  }

  /** A pair is added exactly when one of the fills contributes it. */
  lemma {:induction false} PairsMembers(ts: seq<Tagged>, p: (EdgeKey, string))
    ensures p in Pairs(ts) <==> exists i | 0 <= i < |ts| :: p in Contributions(ts[i])
  {
    if ts != [] {
      var n := |ts| - 1;
      PairsMembers(ts[..n], p);
      if p in Pairs(ts[..n]) {
        var i :| 0 <= i < n && p in Contributions(ts[..n][i]);
        assert ts[i] == ts[..n][i];
      }
      if i :| 0 <= i < |ts| && p in Contributions(ts[i]) {
        if i < n {
          assert ts[..n][i] == ts[i];
        }
      }
    }
  }

  /** The hyperedges for `keys`, each with its group. */
  function Edges(keys: seq<EdgeKey>, m: map<EdgeKey, set<string>>): (es: seq<Hyperedge>)
    requires forall i | 0 <= i < |keys| :: keys[i] in m
    ensures |es| == |keys|
    ensures forall i | 0 <= i < |keys| :: es[i] == Hyperedge(keys[i], m[keys[i]])
  {
    seq(|keys|, i requires 0 <= i < |keys| => Hyperedge(keys[i], m[keys[i]]))
  }

  /** Edge keys strictly ascend in the `(day_start, market, outcome, side)` order. */
  ghost predicate Ascending(es: seq<Hyperedge>) {
    forall i, j | 0 <= i < j < |es| :: KeyLt(es[i].key, es[j].key)
  }

  /**
   * The grouping loop followed by the sort: every key's trader set, edges in
   * ascending key order (`BuildAscending`), and every buyer and seller in
   * `traders`. No edge is empty.
   */
  function Build(ts: seq<Tagged>): (g: Hypergraph)
    ensures forall j | 0 <= j < |g.edges| :: g.edges[j].traders != {}
  {
    var ps := Pairs(ts);
    var m := Group(ps);
    Hypergraph(Edges(SortKeys(m.Keys), m), TradersOf(ps))
  }

  /** The edges are listed in strictly ascending key order. */
  lemma {:induction false} BuildAscending(ts: seq<Tagged>)
    ensures Ascending(Build(ts).edges)
  {
    var m := Group(Pairs(ts));
    SortKeysAscending(m.Keys);
  }

  /** Every trader some addition names. */
  function TradersOf(ps: seq<(EdgeKey, string)>): set<string> {
    set p | p in ps :: p.1
  }

  /** Additions naming the same traders position by position name the same trader set. */
  lemma {:induction false} SameTraders(ps: seq<(EdgeKey, string)>, qs: seq<(EdgeKey, string)>)
    requires |ps| == |qs|
    requires forall i | 0 <= i < |ps| :: ps[i].1 == qs[i].1
    ensures TradersOf(ps) == TradersOf(qs)
  {
    forall a | a in TradersOf(ps)
      ensures a in TradersOf(qs)
    {
      var p :| p in ps && p.1 == a;
      var i :| 0 <= i < |ps| && ps[i] == p;
      assert qs[i] in qs;
    }
    forall a | a in TradersOf(qs)
      ensures a in TradersOf(ps)
    {
      var q :| q in qs && q.1 == a;
      var i :| 0 <= i < |qs| && qs[i] == q;
      assert ps[i] in ps;
    }
  }

  /** Some edge of `g` has key `k` and holds trader `a`. */
  ghost predicate EdgeHas(g: Hypergraph, k: EdgeKey, a: string) {
    exists j | 0 <= j < |g.edges| :: g.edges[j].key == k && a in g.edges[j].traders
  }

  /**
   * Soundness and completeness of membership: an edge holds a trader exactly
   * when some fill adds that trader under that edge's key.
   */
  lemma {:induction false} BuildMembers(ts: seq<Tagged>, k: EdgeKey, a: string)
    ensures EdgeHas(Build(ts), k, a) <==> exists i | 0 <= i < |ts| :: (k, a) in Contributions(ts[i])
  {
    PairsMembers(ts, (k, a));
    GroupMembers(Pairs(ts), k, a);
    BuildEdgeHas(ts, k, a);
  }

  /** The edges of `Build(ts)` are exactly the groups of its additions. */
  lemma {:induction false} BuildEdgeHas(ts: seq<Tagged>, k: EdgeKey, a: string)
    ensures var m := Group(Pairs(ts));
      EdgeHas(Build(ts), k, a) <==> k in m && a in m[k]
  {
    var m := Group(Pairs(ts));
    var g := Build(ts);
    assert g.edges == Edges(SortKeys(m.Keys), m);
    EdgesHas(SortKeys(m.Keys), m, k, a);
  }

  /** Listing every key of `m` once lists every group of `m`. */
  lemma {:induction false} EdgesHas(keys: seq<EdgeKey>, m: map<EdgeKey, set<string>>, k: EdgeKey, a: string)
    requires forall i | 0 <= i < |keys| :: keys[i] in m
    requires forall l | l in m :: l in keys
    ensures var es := Edges(keys, m);
      (exists j | 0 <= j < |es| :: es[j].key == k && a in es[j].traders) <==> k in m && a in m[k]
  {
    var es := Edges(keys, m);
    if k in m && a in m[k] {
      var j :| 0 <= j < |keys| && keys[j] == k;
      assert es[j] == Hyperedge(k, m[k]);
    }
  }

  /** Each fill's buyer is in its `'BUY'` edge and its seller in its `'SELL'` edge. */
  lemma {:induction false} FillPlaced(ts: seq<Tagged>, i: nat)
    requires i < |ts|
    ensures var c := ts[i].trade;
      && EdgeHas(Build(ts), EdgeKey(ts[i].market, c.outcome, c.dayStart, Buy), c.buyer)
      && EdgeHas(Build(ts), EdgeKey(ts[i].market, c.outcome, c.dayStart, Sell), c.seller)
  {
    var c := ts[i].trade;
    var cs := Contributions(ts[i]);
    assert cs[0] == (EdgeKey(ts[i].market, c.outcome, c.dayStart, Buy), c.buyer);
    assert cs[1] == (EdgeKey(ts[i].market, c.outcome, c.dayStart, Sell), c.seller);
    BuildMembers(ts, cs[0].0, cs[0].1);
    BuildMembers(ts, cs[1].0, cs[1].1);
  }

  /** No two edges share a key. */
  lemma {:induction false} BuildKeysDistinct(ts: seq<Tagged>, i: nat, j: nat)
    requires i < j < |Build(ts).edges|
    ensures Build(ts).edges[i].key != Build(ts).edges[j].key
  {
    var es := Build(ts).edges;
    BuildAscending(ts);
    KeyLtFacts(es[i].key, es[i].key, es[i].key);
  }

  /** `all_traders` is the union of the edges' trader sets. */
  lemma {:induction false} BuildTraders(ts: seq<Tagged>, a: string)
    ensures a in Build(ts).traders <==> exists j | 0 <= j < |Build(ts).edges| :: a in Build(ts).edges[j].traders
  {
    var ps := Pairs(ts);
    var m := Group(ps);
    var keys := SortKeys(m.Keys);
    var g := Build(ts);
    assert g.edges == Edges(keys, m);
    if a in g.traders {
      var p :| p in ps && p.1 == a;
      GroupMembers(ps, p.0, a);
      var j :| 0 <= j < |keys| && keys[j] == p.0;
      assert a in g.edges[j].traders;
    }
    if j :| 0 <= j < |g.edges| && a in g.edges[j].traders {
      var k := keys[j];
      GroupMembers(ps, k, a);
    }
  }

  /**
   * One fill is enough for a buyers' edge and a sellers' edge, and for a
   * trader.
   */
  lemma {:induction false} BuildNonEmpty(ts: seq<Tagged>)
    requires ts != []
    ensures |Build(ts).edges| >= 2 && Build(ts).traders != {}
  {
    var ps := Pairs(ts);
    var m := Group(ps);
    var n := |ts| - 1;
    assert Pairs(ts) == Pairs(ts[..n]) + Contributions(ts[n]);
    var kb, ks := ps[2 * n].0, ps[2 * n + 1].0;
    assert kb.side == Buy && ks.side == Sell;
    assert kb in m && ks in m;
    TwoMembers(m.Keys, kb, ks);
    assert ps[2 * n].1 in TradersOf(ps);
  }

  lemma {:induction false} TwoMembers<T>(s: set<T>, a: T, b: T)
    requires a in s && b in s && a != b
    ensures |s| >= 2
  {
    var rest := s - {a};
    assert s == rest + {a};
    assert rest == (rest - {b}) + {b};
  }

  /** Edge times never decrease, and the buyers' edge precedes the sellers' edge of a group. */
  lemma {:induction false} BuildTimeOrder(ts: seq<Tagged>, i: nat, j: nat)
    requires i < j < |Build(ts).edges|
    ensures var a, b := Build(ts).edges[i].key, Build(ts).edges[j].key;
      && a.dayStart <= b.dayStart
      && (a.dayStart == b.dayStart && a.market == b.market && a.outcome == b.outcome ==> a.side == Buy && b.side == Sell)
  {
    var a, b := Build(ts).edges[i].key, Build(ts).edges[j].key;
    BuildAscending(ts);
    assert KeyLt(a, b);
    BuyBeforeSell();
  }

  /**
   * The builder depends only on the multiset of fills: reordering the fills
   * changes neither the edges nor the trader set.
   */
  lemma {:induction false} BuildPermutation(ts: seq<Tagged>, us: seq<Tagged>)
    requires multiset(ts) == multiset(us)
    ensures Build(ts) == Build(us)
  {
    var ps, qs := Pairs(ts), Pairs(us);
    forall p | p in ps
      ensures p in qs
    {
      PairsMembers(ts, p);
      PairsMembers(us, p);
      var i :| 0 <= i < |ts| && p in Contributions(ts[i]);
      assert ts[i] in multiset(us);
      var j :| 0 <= j < |us| && us[j] == ts[i];
    }
    forall q | q in qs
      ensures q in ps
    {
      PairsMembers(ts, q);
      PairsMembers(us, q);
      var i :| 0 <= i < |us| && q in Contributions(us[i]);
      assert us[i] in multiset(ts);
      var j :| 0 <= j < |ts| && ts[j] == us[i];
    }
    GroupSamePairs(ps, qs);
    assert TradersOf(ps) == TradersOf(qs);
  }

  /** `market_slug or 'market'`: an absent or empty slug becomes `'market'`. */
  function MarketName(slug: Option<string>): (name: string)
    ensures name != []
    ensures slug.Some? && slug.value != [] ==> name == slug.value
    ensures slug.None? || slug.value == [] ==> name == "market"
  {
    if slug.Some? && slug.value != [] then slug.value else "market"
  }

  /** `classify_trade` applied to every fill, in order. */
  function Trades(fills: seq<Fill>): (cs: seq<Trade>)
    ensures |cs| == |fills|
    ensures forall i | 0 <= i < |fills| :: cs[i] == Classify(fills[i])
  {
    seq(|fills|, i requires 0 <= i < |fills| => Classify(fills[i]))
  }

  /** Every trade tagged with the same market component. */
  function Tag(market: Option<string>, cs: seq<Trade>): (ts: seq<Tagged>)
    ensures |ts| == |cs|
    ensures forall i | 0 <= i < |cs| :: ts[i] == Tagged(market, cs[i])
  {
    seq(|cs|, i requires 0 <= i < |cs| => Tagged(market, cs[i]))
  }

  /** The fills of every market, each tagged with its slug, market after market. */
  function TagAll(markets: seq<(string, seq<Fill>)>): seq<Tagged> {
    if markets == [] then []
    else
      var (slug, fills) := markets[|markets| - 1];
      TagAll(markets[..|markets| - 1]) + Tag(Some(slug), Trades(fills))
  }

  /**
   * `build_hypergraph_from_fills(fills, market_slug)`: every key names the
   * market `market_slug or 'market'`, the edges ascend, and there are edges
   * exactly when there are fills.
   */
  function BuildFromFills(fills: seq<Fill>, slug: Option<string>): (g: Hypergraph)
    ensures Ascending(g.edges)
    ensures g.edges == [] <==> fills == []
    ensures forall j | 0 <= j < |g.edges| :: g.edges[j].key.market == Some(MarketName(slug))
  {
    var ts := Tag(Some(MarketName(slug)), Trades(fills));
    BuildAscending(ts);
    BuildEmpty(ts);
    BuildMarkets(ts, Some(MarketName(slug)));
    Build(ts)
  }

  /**
   * `build_hypergraph(fills_by_market)`, given the dict's items: the edges
   * ascend, and there are edges exactly when some market has a fill.
   * `UnifiedMarketsSeparate` says which traders each edge holds.
   */
  function BuildUnified(markets: seq<(string, seq<Fill>)>): (g: Hypergraph)
    ensures Ascending(g.edges)
    ensures g.edges == [] <==> forall m | 0 <= m < |markets| :: markets[m].1 == []
  {
    var ts := TagAll(markets);
    BuildAscending(ts);
    BuildEmpty(ts);
    TagAllEmpty(markets);
    Build(ts)
  }

  /**
   * `build_per_market_hypergraph(market_slug, fills)`: no key names a market,
   * the edges ascend, and there are edges exactly when there are fills.
   */
  function BuildPerMarket(fills: seq<Fill>): (g: Hypergraph)
    ensures Ascending(g.edges)
    ensures g.edges == [] <==> fills == []
    ensures forall j | 0 <= j < |g.edges| :: g.edges[j].key.market == None
  {
    var ts := Tag(None, Trades(fills));
    BuildAscending(ts);
    BuildEmpty(ts);
    BuildMarkets(ts, None);
    Build(ts)
  }

  /** No fills, no edges; a fill always makes edges. */
  lemma {:induction false} BuildEmpty(ts: seq<Tagged>)
    ensures Build(ts).edges == [] <==> ts == []
  {
    if ts == [] {
      assert Pairs(ts) == [];
      assert Group(Pairs(ts)).Keys == {};
    } else {
      BuildNonEmpty(ts);
    }
  }

  /** Fills all tagged with one market component give keys with that component only. */
  lemma {:induction false} BuildMarkets(ts: seq<Tagged>, mk: Option<string>)
    requires forall i | 0 <= i < |ts| :: ts[i].market == mk
    ensures forall j | 0 <= j < |Build(ts).edges| :: Build(ts).edges[j].key.market == mk
  {
    var es := Build(ts).edges;
    forall j | 0 <= j < |es|
      ensures es[j].key.market == mk
    {
      var k := es[j].key;
      var a :| a in es[j].traders;
      BuildMembers(ts, k, a);
      var i :| 0 <= i < |ts| && (k, a) in Contributions(ts[i]);
      ContributionMarket(ts[i], k, a);
    }
  }

  /** The tagged fills run out exactly when every market has none. */
  lemma {:induction false} TagAllEmpty(markets: seq<(string, seq<Fill>)>)
    ensures TagAll(markets) == [] <==> forall m | 0 <= m < |markets| :: markets[m].1 == []
  {
    if TagAll(markets) != [] {
      TagAllOrigin(markets, 0);
    }
    if exists m | 0 <= m < |markets| :: markets[m].1 != [] {
      var m :| 0 <= m < |markets| && markets[m].1 != [];
      TagAllHas(markets, m, 0);
    }
  }

  /** Each tagged fill of `TagAll(markets)` is some fill of some market, classified and tagged with that market's slug. */
  lemma {:induction false} TagAllOrigin(markets: seq<(string, seq<Fill>)>, i: nat)
    requires i < |TagAll(markets)|
    ensures exists m, j | 0 <= m < |markets| && 0 <= j < |markets[m].1| ::
      TagAll(markets)[i] == Tagged(Some(markets[m].0), Classify(markets[m].1[j]))
  {
    var n := |markets| - 1;
    var prior := TagAll(markets[..n]);
    var last := Tag(Some(markets[n].0), Trades(markets[n].1));
    assert TagAll(markets) == prior + last;
    if i < |prior| {
      TagAllOrigin(markets[..n], i);
      var m, j :| 0 <= m < n && 0 <= j < |markets[..n][m].1| &&
        prior[i] == Tagged(Some(markets[..n][m].0), Classify(markets[..n][m].1[j]));
      assert markets[..n][m] == markets[m];
    } else {
      var j := i - |prior|;
      assert TagAll(markets)[i] == last[j];
      assert last[j] == Tagged(Some(markets[n].0), Classify(markets[n].1[j]));
    }
  }

  /** Conversely, every fill of every market appears in `TagAll(markets)`, classified and tagged with its slug. */
  lemma {:induction false} TagAllHas(markets: seq<(string, seq<Fill>)>, m: nat, j: nat)
    requires m < |markets| && j < |markets[m].1|
    ensures Tagged(Some(markets[m].0), Classify(markets[m].1[j])) in TagAll(markets)
  {
    var n := |markets| - 1;
    var prior := TagAll(markets[..n]);
    var last := Tag(Some(markets[n].0), Trades(markets[n].1));
    assert TagAll(markets) == prior + last;
    if m < n {
      assert markets[..n][m] == markets[m];
      TagAllHas(markets[..n], m, j);
    } else {
      assert last[j] == Tagged(Some(markets[n].0), Classify(markets[n].1[j]));
    }
  }

  /** Some fill of a market whose slug is `k`'s market adds trader `a` under key `k`. */
  ghost predicate MarketAdds(markets: seq<(string, seq<Fill>)>, k: EdgeKey, a: string) {
    exists m, j | 0 <= m < |markets| && 0 <= j < |markets[m].1| ::
      k.market == Some(markets[m].0) && (k, a) in Contributions(Tagged(k.market, Classify(markets[m].1[j])))
  }

  /**
   * Unified keys carry the market slug: an edge keyed with market `s` holds a
   * trader exactly when a fill of a market whose slug is `s` names that trader
   * under that key, so the same outcome token in two markets never shares an
   * edge.
   */
  lemma {:induction false} UnifiedMarketsSeparate(markets: seq<(string, seq<Fill>)>, k: EdgeKey, a: string)
    ensures EdgeHas(BuildUnified(markets), k, a) <==> MarketAdds(markets, k, a)
  {
    BuildMembers(TagAll(markets), k, a);
    if EdgeHas(BuildUnified(markets), k, a) {
      UnifiedSound(markets, k, a);
    }
    if MarketAdds(markets, k, a) {
      UnifiedComplete(markets, k, a);
    }
  }

  lemma {:induction false} UnifiedSound(markets: seq<(string, seq<Fill>)>, k: EdgeKey, a: string)
    requires exists i | 0 <= i < |TagAll(markets)| :: (k, a) in Contributions(TagAll(markets)[i])
    ensures MarketAdds(markets, k, a)
  {
    var ts := TagAll(markets);
    var i :| 0 <= i < |ts| && (k, a) in Contributions(ts[i]);
    ContributionMarket(ts[i], k, a);
    TagAllOrigin(markets, i);
    var m, j :| 0 <= m < |markets| && 0 <= j < |markets[m].1| &&
      ts[i] == Tagged(Some(markets[m].0), Classify(markets[m].1[j]));
    assert k.market == Some(markets[m].0);
  }

  lemma {:induction false} UnifiedComplete(markets: seq<(string, seq<Fill>)>, k: EdgeKey, a: string)
    requires MarketAdds(markets, k, a)
    ensures exists i | 0 <= i < |TagAll(markets)| :: (k, a) in Contributions(TagAll(markets)[i])
  {
    var ts := TagAll(markets);
    var m, j :| 0 <= m < |markets| && 0 <= j < |markets[m].1| &&
      k.market == Some(markets[m].0) && (k, a) in Contributions(Tagged(k.market, Classify(markets[m].1[j])));
    TagAllHas(markets, m, j);
    var i :| 0 <= i < |ts| && ts[i] == Tagged(Some(markets[m].0), Classify(markets[m].1[j]));
    assert (k, a) in Contributions(ts[i]);
  }

  lemma {:induction false} ContributionMarket(t: Tagged, k: EdgeKey, a: string)
    requires (k, a) in Contributions(t)
    ensures k.market == t.market
  {
  }

  lemma {:induction false} TagAllSingle(slug: string, fills: seq<Fill>)
    ensures TagAll([(slug, fills)]) == Tag(Some(slug), Trades(fills))
  {
    assert [(slug, fills)][..0] == [];
    assert TagAll([(slug, fills)]) == [] + Tag(Some(slug), Trades(fills));
  }

  /** One market's items build the same hypergraph as that market alone. */
  lemma {:induction false} UnifiedSingle(slug: string, fills: seq<Fill>)
    requires slug != []
    ensures BuildUnified([(slug, fills)]) == BuildFromFills(fills, Some(slug))
  {
    TagAllSingle(slug, fills);
  }

  function DropMarket(k: EdgeKey): EdgeKey {
    k.(market := None)
  }

  function DropEdgeMarket(e: Hyperedge): Hyperedge {
    e.(key := DropMarket(e.key))
  }

  /** Pair `2i` is trade `i`'s buyer and pair `2i + 1` its seller. */
  lemma {:induction false} PairsAt(market: Option<string>, cs: seq<Trade>)
    ensures var ps := Pairs(Tag(market, cs));
      forall i | 0 <= i < |cs| ::
        ps[2 * i] == Contributions(Tagged(market, cs[i]))[0] &&
        ps[2 * i + 1] == Contributions(Tagged(market, cs[i]))[1]
  {
    if cs != [] {
      var n := |cs| - 1;
      var ts := Tag(market, cs);
      assert ts[..n] == Tag(market, cs[..n]);
      PairsAt(market, cs[..n]);
      assert Pairs(ts) == Pairs(ts[..n]) + Contributions(ts[n]);
    }
  }

  /** The per-market additions are the unified additions with the market dropped. */
  lemma {:induction false} PairsDropMarket(slug: string, cs: seq<Trade>)
    ensures Pairs(Tag(None, cs)) == RenameKeys(Pairs(Tag(Some(slug), cs)), DropMarket)
    ensures forall i | 0 <= i < |Pairs(Tag(Some(slug), cs))| :: Pairs(Tag(Some(slug), cs))[i].0.market == Some(slug)
  {
    var ps, qs := Pairs(Tag(Some(slug), cs)), Pairs(Tag(None, cs));
    PairsAt(None, cs);
    PairsAt(Some(slug), cs);
    forall i | 0 <= i < |ps|
      ensures qs[i] == (DropMarket(ps[i].0), ps[i].1)
      ensures ps[i].0.market == Some(slug)
    {
      var h := i / 2;
      var bought, sold := Contributions(Tagged(Some(slug), cs[h])), Contributions(Tagged(None, cs[h]));
      if i == 2 * h {
        assert ps[i] == bought[0] && qs[i] == sold[0];
      } else {
        assert i == 2 * h + 1;
        assert ps[i] == bought[1] && qs[i] == sold[1];
      }
    }
  }

  /** Dropping the market component keeps the order of keys from one market. */
  lemma {:induction false} DropMarketKeepsOrder(s: set<EdgeKey>, slug: string)
    requires forall k | k in s :: k.market == Some(slug)
    ensures forall x, y | x in s && y in s :: KeyLt(x, y) ==> KeyLt(DropMarket(x), DropMarket(y))
  {
  }

  /** The market's groups, renamed, are the per-market groups. */
  lemma {:induction false} PerMarketGroups(slug: string, cs: seq<Trade>)
    ensures var g, h := Group(Pairs(Tag(Some(slug), cs))), Group(Pairs(Tag(None, cs)));
      && (forall k | k in g :: k.market == Some(slug) && DropMarket(k) in h && h[DropMarket(k)] == g[k])
      && (forall l | l in h :: exists k | k in g :: DropMarket(k) == l)
  {
    PairsDropMarket(slug, cs);
    OneMarketGroups(slug, Pairs(Tag(Some(slug), cs)));
  }

  /** Grouping additions that all name one market, then dropping the market, loses nothing. */
  lemma {:induction false} OneMarketGroups(slug: string, ps: seq<(EdgeKey, string)>)
    requires forall i | 0 <= i < |ps| :: ps[i].0.market == Some(slug)
    ensures var g, h := Group(ps), Group(RenameKeys(ps, DropMarket));
      && (forall k | k in g :: k.market == Some(slug) && DropMarket(k) in h && h[DropMarket(k)] == g[k])
      && (forall l | l in h :: exists k | k in g :: DropMarket(k) == l)
  {
    assert InjectiveOnKeys(ps, DropMarket);
    GroupRename(ps, DropMarket);
    var g := Group(ps);
    forall k | k in g
      ensures k.market == Some(slug)
    {
      var v :| v in g[k];
      GroupMembers(ps, k, v);
      var i :| 0 <= i < |ps| && ps[i] == (k, v);
    }
  }

  /** Sorting the renamed keys lists the renamed sorted keys. */
  lemma {:induction false} SortDropMarket(slug: string, g: set<EdgeKey>, h: set<EdgeKey>)
    requires forall k | k in g :: k.market == Some(slug) && DropMarket(k) in h
    requires forall l | l in h :: exists k | k in g :: DropMarket(k) == l
    ensures SortKeys(h) == Seq.Map(DropMarket, SortKeys(g))
  {
    KeyLtStrictTotal(g);
    KeyLtStrictTotal(h);
    DropMarketKeepsOrder(g, slug);
    Ordering.SortSetRename(g, KeyLt, DropMarket, h, KeyLt);
  }

  /** Renaming the keys of the listed edges renames the edges. */
  lemma {:induction false} EdgesDropMarket(ku: seq<EdgeKey>, g: map<EdgeKey, set<string>>, h: map<EdgeKey, set<string>>)
    requires forall i | 0 <= i < |ku| :: ku[i] in g && DropMarket(ku[i]) in h && h[DropMarket(ku[i])] == g[ku[i]]
    ensures Edges(Seq.Map(DropMarket, ku), h) == Seq.Map(DropEdgeMarket, Edges(ku, g))
  {
    var a, b := Edges(Seq.Map(DropMarket, ku), h), Seq.Map(DropEdgeMarket, Edges(ku, g));
    assert |a| == |b|;
    forall i | 0 <= i < |a|
      ensures a[i] == b[i]
    {
    }
  }

  /** The additions of both builders name the same traders. */
  lemma {:induction false} PerMarketTraders(slug: string, cs: seq<Trade>)
    ensures TradersOf(Pairs(Tag(None, cs))) == TradersOf(Pairs(Tag(Some(slug), cs)))
  {
    PairsDropMarket(slug, cs);
    SameTraders(Pairs(Tag(None, cs)), Pairs(Tag(Some(slug), cs)));
  }

  /** A single market's per-market edges are its unified edges with the market component dropped. */
  lemma {:induction false} OneMarketDropped(slug: string, fills: seq<Fill>)
    ensures BuildPerMarket(fills).edges == Seq.Map(DropEdgeMarket, BuildUnified([(slug, fills)]).edges)
    ensures BuildPerMarket(fills).traders == BuildUnified([(slug, fills)]).traders
  {
    var cs := Trades(fills);
    TagAllSingle(slug, fills);
    DropEdges(slug, cs);
    PerMarketTraders(slug, cs);
  }

  /** Tagging with no market instead of one slug drops the market from every edge and keeps the order. */
  lemma {:induction false} DropEdges(slug: string, cs: seq<Trade>)
    ensures Build(Tag(None, cs)).edges == Seq.Map(DropEdgeMarket, Build(Tag(Some(slug), cs)).edges)
  {
    PerMarketGroups(slug, cs);
    var g, h := Group(Pairs(Tag(Some(slug), cs))), Group(Pairs(Tag(None, cs)));
    SortDropMarket(slug, g.Keys, h.Keys);
    EdgesDropMarket(SortKeys(g.Keys), g, h);
  }

  /** The edges of `es` keyed with market `mk`, in their order. */
  function MarketEdges(es: seq<Hyperedge>, mk: Option<string>): (fs: seq<Hyperedge>)
    ensures forall e :: e in fs <==> e in es && e.key.market == mk
  {
    if es == [] then []
    else
      var n := |es| - 1;
      assert es == es[..n] + [es[n]];
      MarketEdges(es[..n], mk) + (if es[n].key.market == mk then [es[n]] else [])
  }

  /** Keeping some of the edges keeps their order. */
  lemma {:induction false} MarketEdgesAscending(es: seq<Hyperedge>, mk: Option<string>)
    requires Ascending(es)
    ensures Ascending(MarketEdges(es, mk))
  {
    if es != [] {
      var n := |es| - 1;
      assert Ascending(es[..n]);
      MarketEdgesAscending(es[..n], mk);
      var prior := MarketEdges(es[..n], mk);
      if es[n].key.market == mk {
        var fs := prior + [es[n]];
        assert MarketEdges(es, mk) == fs;
        forall i, j | 0 <= i < j < |fs|
          ensures KeyLt(fs[i].key, fs[j].key)
        {
          if j == |prior| {
            assert fs[i] in es[..n];
            var p :| 0 <= p < n && es[p] == fs[i];
          }
        }
      }
    }
  }

  predicate EdgeLt(e: Hyperedge, f: Hyperedge) {
    KeyLt(e.key, f.key)
  }

  /** An ascending edge list is sorted by `EdgeLt`, a strict total order on its edges. */
  lemma {:induction false} AscendingSorted(es: seq<Hyperedge>)
    requires Ascending(es)
    ensures Ordering.SortedBy(EdgeLt, es)
    ensures Ordering.StrictTotalOn(EdgeLt, set e | e in es)
  {
    forall x, y, z | x in es && y in es && z in es
      ensures !EdgeLt(x, x)
      ensures EdgeLt(x, y) && EdgeLt(y, z) ==> EdgeLt(x, z)
    {
      KeyLtFacts(x.key, y.key, z.key);
    }
    forall x, y | x in es && y in es && x != y
      ensures EdgeLt(x, y) || EdgeLt(y, x)
    {
      var i :| 0 <= i < |es| && es[i] == x;
      var j :| 0 <= j < |es| && es[j] == y;
    }
  }

  /** An edge of `Build(ts)` is a key of the grouping together with its whole group. */
  lemma {:induction false} BuildEdgeIn(ts: seq<Tagged>, e: Hyperedge)
    ensures var m := Group(Pairs(ts));
      e in Build(ts).edges <==> e.key in m && e.traders == m[e.key]
  {
    var m := Group(Pairs(ts));
    SortedEdgeIn(m, e);
  }

  lemma {:induction false} SortedEdgeIn(m: map<EdgeKey, set<string>>, e: Hyperedge)
    ensures e in Edges(SortKeys(m.Keys), m) <==> e.key in m && e.traders == m[e.key]
  {
    var keys := SortKeys(m.Keys);
    var es := Edges(keys, m);
    if e in es {
      var j :| 0 <= j < |es| && es[j] == e;
    }
    if e.key in m && e.traders == m[e.key] {
      var j :| 0 <= j < |keys| && keys[j] == e.key;
      assert es[j] == e;
    }
  }

  /** Additions restricted to one market group into the restriction of the groups. */
  lemma {:induction false} RestrictGroups(ps: seq<(EdgeKey, string)>, qs: seq<(EdgeKey, string)>, mk: Option<string>, k: EdgeKey)
    requires forall p :: p in qs <==> p in ps && p.0.market == mk
    ensures k in Group(qs) <==> k in Group(ps) && k.market == mk
    ensures k in Group(qs) ==> Group(qs)[k] == Group(ps)[k]
  {
    RestrictKeys(ps, qs, mk, k);
    if k in Group(qs) {
      RestrictValues(ps, qs, mk, k);
    }
  }

  lemma {:induction false} RestrictKeys(ps: seq<(EdgeKey, string)>, qs: seq<(EdgeKey, string)>, mk: Option<string>, k: EdgeKey)
    requires forall p :: p in qs <==> p in ps && p.0.market == mk
    ensures k in Group(qs) <==> k in Group(ps) && k.market == mk
  {
    var g, h := Group(ps), Group(qs);
    if k in h {
      var v :| v in h[k];
      RestrictMember(ps, qs, mk, k, v);
    }
    if k in g && k.market == mk {
      var v :| v in g[k];
      RestrictMember(ps, qs, mk, k, v);
    }
  }

  lemma {:induction false} RestrictValues(ps: seq<(EdgeKey, string)>, qs: seq<(EdgeKey, string)>, mk: Option<string>, k: EdgeKey)
    requires forall p :: p in qs <==> p in ps && p.0.market == mk
    requires k in Group(qs) && k in Group(ps)
    ensures Group(qs)[k] == Group(ps)[k]
  {
    forall v
      ensures v in Group(qs)[k] <==> v in Group(ps)[k]
    {
      RestrictMember(ps, qs, mk, k, v);
    }
  }

  lemma {:induction false} RestrictMember(ps: seq<(EdgeKey, string)>, qs: seq<(EdgeKey, string)>, mk: Option<string>, k: EdgeKey, v: string)
    requires (k, v) in qs <==> (k, v) in ps && k.market == mk
    ensures (k in Group(qs) && v in Group(qs)[k]) <==> (k in Group(ps) && v in Group(ps)[k] && k.market == mk)
  {
    GroupMembers(qs, k, v);
    GroupMembers(ps, k, v);
  }

  /**
   * Building from the additions of one market lists exactly the edges of the
   * full build keyed with that market, in the same order.
   */
  lemma {:induction false} BuildRestrict(ts: seq<Tagged>, us: seq<Tagged>, mk: Option<string>)
    requires forall p :: p in Pairs(us) <==> p in Pairs(ts) && p.0.market == mk
    ensures Build(us).edges == MarketEdges(Build(ts).edges, mk)
  {
    var a, b := Build(ts).edges, Build(us).edges;
    var f := MarketEdges(a, mk);
    forall e
      ensures e in f <==> e in b
    {
      BuildEdgeIn(ts, e);
      BuildEdgeIn(us, e);
      RestrictGroups(Pairs(ts), Pairs(us), mk, e.key);
    }
    BuildAscending(ts);
    BuildAscending(us);
    MarketEdgesAscending(a, mk);
    AscendingSorted(f);
    AscendingSorted(b);
    Ordering.SortedUnique(EdgeLt, f, b);
  }

  /** With distinct slugs, the unified additions keyed with market `m`'s slug are market `m`'s additions. */
  lemma {:induction false} MarketPairs(markets: seq<(string, seq<Fill>)>, m: nat, p: (EdgeKey, string))
    requires DistinctKeys(markets) && m < |markets|
    ensures p in Pairs(Tag(Some(markets[m].0), Trades(markets[m].1))) <==>
      p in Pairs(TagAll(markets)) && p.0.market == Some(markets[m].0)
  {
    if p in Pairs(Tag(Some(markets[m].0), Trades(markets[m].1))) {
      MarketPairsKept(markets, m, p);
    }
    if p in Pairs(TagAll(markets)) && p.0.market == Some(markets[m].0) {
      MarketPairsOwn(markets, m, p);
    }
  }

  lemma {:induction false} MarketPairsKept(markets: seq<(string, seq<Fill>)>, m: nat, p: (EdgeKey, string))
    requires m < |markets|
    requires p in Pairs(Tag(Some(markets[m].0), Trades(markets[m].1)))
    ensures p in Pairs(TagAll(markets)) && p.0.market == Some(markets[m].0)
  {
    var ts, us := TagAll(markets), Tag(Some(markets[m].0), Trades(markets[m].1));
    PairsMembers(us, p);
    var j :| 0 <= j < |us| && p in Contributions(us[j]);
    ContributionMarket(us[j], p.0, p.1);
    TagAllHas(markets, m, j);
    var i :| 0 <= i < |ts| && ts[i] == us[j];
    PairsMembers(ts, p);
  }

  lemma {:induction false} MarketPairsOwn(markets: seq<(string, seq<Fill>)>, m: nat, p: (EdgeKey, string))
    requires DistinctKeys(markets) && m < |markets|
    requires p in Pairs(TagAll(markets)) && p.0.market == Some(markets[m].0)
    ensures p in Pairs(Tag(Some(markets[m].0), Trades(markets[m].1)))
  {
    var ts, us := TagAll(markets), Tag(Some(markets[m].0), Trades(markets[m].1));
    PairsMembers(ts, p);
    var i :| 0 <= i < |ts| && p in Contributions(ts[i]);
    ContributionMarket(ts[i], p.0, p.1);
    TagAllOrigin(markets, i);
    var m', j :| 0 <= m' < |markets| && 0 <= j < |markets[m'].1| &&
      ts[i] == Tagged(Some(markets[m'].0), Classify(markets[m'].1[j]));
    SlugIndex(markets, m, m');
    assert us[j] == ts[i];
    PairsMembers(us, p);
  }

  /** Distinct slugs name their market uniquely. */
  lemma {:induction false} SlugIndex(markets: seq<(string, seq<Fill>)>, m: nat, m': nat)
    requires DistinctKeys(markets) && m < |markets| && m' < |markets|
    requires markets[m].0 == markets[m'].0
    ensures m == m'
  {
  }

  /**
   * `build_per_market_hypergraph(slug, fills_by_market[slug])` is the part of
   * `build_hypergraph(fills_by_market)` keyed with `slug`, with the market
   * component dropped: the same trader sets in the same order, and its
   * traders are exactly those of these edges.
   */
  lemma {:induction false} PerMarketIsUnifiedDropped(markets: seq<(string, seq<Fill>)>, m: nat, a: string)
    requires DistinctKeys(markets) && m < |markets|
    ensures var own := MarketEdges(BuildUnified(markets).edges, Some(markets[m].0));
      && BuildPerMarket(markets[m].1).edges == Seq.Map(DropEdgeMarket, own)
      && (a in BuildPerMarket(markets[m].1).traders <==> exists j | 0 <= j < |own| :: a in own[j].traders)
  {
    var slug, fills := markets[m].0, markets[m].1;
    var ts, us := TagAll(markets), Tag(Some(slug), Trades(fills));
    forall p
      ensures p in Pairs(us) <==> p in Pairs(ts) && p.0.market == Some(slug)
    {
      MarketPairs(markets, m, p);
    }
    BuildRestrict(ts, us, Some(slug));
    OneMarketDropped(slug, fills);
    TagAllSingle(slug, fills);
    BuildTraders(us, a);
  }
}
