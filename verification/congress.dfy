/**
 * The congress-bills file set `write_hypergraph_files` writes for an
 * undirected hypergraph, and the two entry points that feed it:
 *
 *   node-labels  the trader addresses in sorted order; line `i` (from 1)
 *                holds the address with node id `i`;
 *   nverts       one line per hyperedge, its number of members;
 *   simplices    the members' ids, hyperedge after hyperedge, each block in
 *                sorted-address order;
 *   times        one line per hyperedge, its UTC day start.
 *
 * The files are modelled as their sequences of lines; the writing itself and
 * the directory layout are not modelled.
 */
module Congress {

  import opened Common
  import Ordering
  import Seq
  import Nodes
  import opened Text
  import opened Fills
  import opened Grouping
  import opened Undirected

  /** The contents of the four files, one entry per line. */
  datatype Files = Files(labels: seq<string>, nverts: seq<nat>, simplices: seq<nat>, times: seq<int>)

  /** The statistics dictionary `write_hypergraph_files` returns, with `markets_count` when the unified generator adds it. */
  datatype Stats = Stats(nodes: nat, hyperedges: nat, totalVertexOccurrences: int, marketsCount: Option<nat>)

  /** Every member of every edge has a node id, so `trader_to_id[trader]` never fails. */
  predicate Covered(edges: seq<Hyperedge>, all: set<string>) {
    forall j | 0 <= j < |edges| :: edges[j].traders <= all
  }

  /** The simplices block of one edge: its members' ids in sorted-address order. */
  function Block(e: Hyperedge, ids: map<string, nat>): (b: seq<nat>)
    requires e.traders <= ids.Keys
    ensures |b| == |e.traders|
  {
    Nodes.IdsOf(Ordering.SortStrings(e.traders), ids)
  }

  function Blocks(edges: seq<Hyperedge>, all: set<string>): (bs: seq<seq<nat>>)
    requires Covered(edges, all)
    ensures |bs| == |edges|
    ensures forall j | 0 <= j < |edges| :: bs[j] == Block(edges[j], Nodes.NodeIds(all, 1))
  {
    var ids := Nodes.NodeIds(all, 1);
    seq(|edges|, j requires 0 <= j < |edges| => Block(edges[j], ids))
  }

  /**
   * The lists `write_hypergraph_files` builds. The four sequences stay aligned:
   * one `nverts` and one `times` line per edge, and as many simplices as the
   * `nverts` lines add up to.
   */
  function Write(edges: seq<Hyperedge>, all: set<string>): (f: Files)
    requires Covered(edges, all)
    ensures |f.labels| == |all|
    ensures |f.nverts| == |edges| && |f.times| == |edges|
    ensures Seq.Sum(f.nverts) == |f.simplices|
  {
    var bs := Blocks(edges, all);
    Seq.FlattenLength(bs);
    Files(
      Ordering.SortStrings(all),
      Seq.Lengths(bs),
      Seq.Flatten(bs),
      seq(|edges|, j requires 0 <= j < |edges| => edges[j].key.dayStart))
  }

  /** Line `j` of `nverts` is edge `j`'s member count and line `j` of `times` its day start. */
  lemma {:induction false} WriteLines(edges: seq<Hyperedge>, all: set<string>, j: nat)
    requires Covered(edges, all)
    requires j < |edges|
    ensures Write(edges, all).nverts[j] == |edges[j].traders|
    ensures Write(edges, all).times[j] == edges[j].key.dayStart
  {
  }

  /**
   * Line `i + 1` of the labels file is the address with node id `i + 1`; the
   * lines ascend, and every trader has one.
   */
  lemma {:induction false} WriteLabels(edges: seq<Hyperedge>, all: set<string>, i: nat, x: string)
    requires Covered(edges, all)
    requires i < |all|
    ensures var f := Write(edges, all);
      f.labels[i] in all && Nodes.NodeIds(all, 1)[f.labels[i]] == i + 1
    ensures x in all <==> x in Write(edges, all).labels
  {
    Nodes.NodeIdAt(all, 1, i);
    if x in all {
      Ordering.SortStringsHas(all, x);
    }
  }

  /** The labels file lists the addresses in strictly ascending order. */
  lemma {:induction false} WriteLabelsAscend(edges: seq<Hyperedge>, all: set<string>, i: nat, j: nat)
    requires Covered(edges, all)
    requires i < j < |all|
    ensures Ordering.StrLt(Write(edges, all).labels[i], Write(edges, all).labels[j])
  {
    Ordering.SortStringsAscending(all, i, j);
  }

  /**
   * Edge `j`'s block starts right after the blocks of the edges before it
   * and is that edge's block alone (`BlockShape` says what it holds).
   */
  lemma {:induction false} WriteBlock(edges: seq<Hyperedge>, all: set<string>, j: nat)
    requires Covered(edges, all)
    requires j < |edges|
    ensures var f := Write(edges, all);
      var lo := Seq.Sum(f.nverts[..j]);
      && 0 <= lo && lo + f.nverts[j] <= |f.simplices|
      && f.simplices[lo..lo + f.nverts[j]] == Blocks(edges, all)[j]
  {
    WriteParts(edges, all);
    Placement(Blocks(edges, all), j);
  }

  /** Piece `j` of `bs` sits in `Flatten(bs)` after the pieces before it. */
  lemma {:induction false} Placement(bs: seq<seq<nat>>, j: nat)
    requires j < |bs|
    ensures var lo := Seq.Sum(Seq.Lengths(bs)[..j]);
      && 0 <= lo && lo + Seq.Lengths(bs)[j] <= |Seq.Flatten(bs)|
      && Seq.Flatten(bs)[lo..lo + Seq.Lengths(bs)[j]] == bs[j]
  {
    Seq.FlattenAt(bs, j);
  }

  lemma {:induction false} WriteParts(edges: seq<Hyperedge>, all: set<string>)
    requires Covered(edges, all)
    ensures Write(edges, all).nverts == Seq.Lengths(Blocks(edges, all))
    ensures Write(edges, all).simplices == Seq.Flatten(Blocks(edges, all))
  {
  }

  /**
   * Edge `j`'s block is strictly ascending, each id in `1..n` and naming one
   * of its members through the labels file, and every member is named.
   */
  lemma {:induction false} BlockShape(edges: seq<Hyperedge>, all: set<string>, j: nat)
    requires Covered(edges, all)
    requires j < |edges|
    ensures Nodes.BlockOf(Blocks(edges, all)[j], all, 1, edges[j].traders)
  {
    Nodes.SortedIds(all, 1, edges[j].traders);
  }

  /** Every line of the simplices file is a node id in `1..n`. */
  lemma {:induction false} SimplicesInRange(edges: seq<Hyperedge>, all: set<string>, p: nat)
    requires Covered(edges, all)
    requires p < |Write(edges, all).simplices|
    ensures 1 <= Write(edges, all).simplices[p] <= |all|
  {
    var bs := Blocks(edges, all);
    var ids := Nodes.NodeIds(all, 1);
    assert Write(edges, all).simplices == Seq.Flatten(bs);
    Seq.FlattenIn(bs, p);
    var j, q :| 0 <= j < |bs| && 0 <= q < |bs[j]| && Seq.Flatten(bs)[p] == bs[j][q];
    var xs := Ordering.SortStrings(edges[j].traders);
    assert bs[j][q] == ids[xs[q]];
    Nodes.NodeIdLabel(all, 1, xs[q]);
  }

  /** The two integrity assertions at the end of the writer in `generate_hypergraph.py`. */
  function Check(f: Files): (r: Result<Files>)
    ensures r.Ok? <==> |f.nverts| == |f.times| && Seq.Sum(f.nverts) == |f.simplices|
    ensures r.Ok? ==> r.value == f
    ensures r.Err? ==> r.error.IntegrityAssertion?
  {
    if |f.nverts| != |f.times| then Err(IntegrityAssertion("nverts and times must have same length"))
    else if Seq.Sum(f.nverts) != |f.simplices| then Err(IntegrityAssertion("sum of nverts must equal simplices length"))
    else Ok(f)
  }

  /** The writer's own output always passes its integrity assertions. */
  lemma {:induction false} WriteIntegrity(edges: seq<Hyperedge>, all: set<string>)
    requires Covered(edges, all)
    ensures Check(Write(edges, all)) == Ok(Write(edges, all))
  {
  }

  /** The statistics of `hypergraph_utils.py`'s writer. */
  function WriteStats(edges: seq<Hyperedge>, all: set<string>): (s: Stats)
    requires Covered(edges, all)
    ensures s.nodes == |all| && s.hyperedges == |edges|
    ensures s.totalVertexOccurrences == |Write(edges, all).simplices|
    ensures s.marketsCount.None?
  {
    var f := Write(edges, all);
    Stats(|f.labels|, |edges|, Seq.Sum(f.nverts), None)
  }

  /** The builders' output can always be written: every edge member is in `all_traders`. */
  lemma {:induction false} BuildCovered(ts: seq<Tagged>)
    ensures Covered(Build(ts).edges, Build(ts).traders)
  {
    var g := Build(ts);
    forall j, a | 0 <= j < |g.edges| && a in g.edges[j].traders
      ensures a in g.traders
    {
      BuildTraders(ts, a);
    }
  }

  const FillsPrefix: string := "fills_"
  const FillsSuffix: string := ".json"

  /** `filename.startswith('fills_') and filename.endswith('.json')`. */
  predicate IsFillsFile(name: string) {
    StartsWith(name, FillsPrefix) && EndsWith(name, FillsSuffix)
  }

  /** `filename[6:-5]`: the prefix and suffix cannot overlap, so the slug is what lies between them. */
  function SlugOf(name: string): (slug: string)
    requires IsFillsFile(name)
    ensures FillsPrefix + slug + FillsSuffix == name
  {
    FillsNameLong(name);
    var n := |name|;
    assert name == name[..6] + name[6..n - 5] + name[n - 5..];
    name[6..n - 5]
  }

  /** `"fills_"` ends in `_` and `".json"` holds none, so the two cannot overlap. */
  lemma {:induction false} FillsNameLong(name: string)
    requires IsFillsFile(name)
    ensures |name| >= |FillsPrefix| + |FillsSuffix|
  {
    var n := |name|;
    assert name[..6][5] == '_';
    assert forall k | n - 5 <= k < n :: name[k] == name[n - 5..][k - (n - 5)];
    assert forall k | 0 <= k < 5 :: FillsSuffix[k] != '_';
  }

  /** The slug of `"fills_" + s + ".json"` is `s`. */
  lemma {:induction false} SlugRoundTrip(s: string)
    ensures IsFillsFile(FillsPrefix + s + FillsSuffix)
    ensures SlugOf(FillsPrefix + s + FillsSuffix) == s
  {
    var name := FillsPrefix + s + FillsSuffix;
    assert name[..6] == FillsPrefix;
    assert name[|name| - 5..] == FillsSuffix;
    var t := SlugOf(name);
    assert |t| == |s|;
    assert name[6..6 + |s|] == s && name[6..6 + |t|] == t;
  }

  /** The fills files of a directory listing, in listing order, each with its slug. */
  function MarketFiles(listing: seq<(string, seq<Fill>)>): (items: seq<(string, seq<Fill>)>)
    ensures |items| <= |listing|
    ensures items == [] <==> forall i | 0 <= i < |listing| :: !IsFillsFile(listing[i].0)
  {
    if listing == [] then []
    else
      var n := |listing| - 1;
      var prior := MarketFiles(listing[..n]);
      assert forall i | 0 <= i < n :: listing[..n][i] == listing[i];
      var (name, fills) := listing[n];
      if IsFillsFile(name) then prior + [(SlugOf(name), fills)] else prior
  }

  /** Every fills file of the listing is loaded under its slug. */
  lemma {:induction false} MarketFilesComplete(listing: seq<(string, seq<Fill>)>, i: nat)
    requires i < |listing| && IsFillsFile(listing[i].0)
    ensures (SlugOf(listing[i].0), listing[i].1) in MarketFiles(listing)
  {
    var n := |listing| - 1;
    if i < n {
      MarketFilesComplete(listing[..n], i);
      assert listing[..n][i] == listing[i];
    }
  }

  /** Everything loaded comes from a fills file named after its slug. */
  lemma {:induction false} MarketFilesSound(listing: seq<(string, seq<Fill>)>, p: (string, seq<Fill>))
    requires p in MarketFiles(listing)
    ensures (FillsPrefix + p.0 + FillsSuffix, p.1) in listing
  {
    var n := |listing| - 1;
    var prior := MarketFiles(listing[..n]);
    if p in prior {
      MarketFilesSound(listing[..n], p);
    } else {
      assert p == (SlugOf(listing[n].0), listing[n].1);
    }
  }

  /**
   * `load_raw_fills`: the dict from slug to fills, its items in insertion
   * order (a slug read twice keeps its first place and its last fills).
   */
  function LoadRawFills(listing: seq<(string, seq<Fill>)>): (markets: seq<(string, seq<Fill>)>)
    ensures DistinctKeys(markets)
    ensures markets == [] <==> forall i | 0 <= i < |listing| :: !IsFillsFile(listing[i].0)
  {
    var items := MarketFiles(listing);
    DictOfEmpty(items);
    DictOf(items)
  }

  lemma {:induction false} DictOfEmpty<K, V>(items: seq<(K, V)>)
    ensures DictOf(items) == [] <==> items == []
  {
    if items != [] {
      DictOfKeys(items);
      assert KeysOf(items)[0] in Distinct(KeysOf(items));
    }
  }

  /** Each slug of the listing is a key of the loaded dict, and only those. */
  lemma {:induction false} LoadRawFillsKeys(listing: seq<(string, seq<Fill>)>, slug: string)
    ensures (exists j | 0 <= j < |LoadRawFills(listing)| :: LoadRawFills(listing)[j].0 == slug)
      <==> (exists i | 0 <= i < |listing| :: listing[i].0 == FillsPrefix + slug + FillsSuffix)
  {
    assert LoadRawFills(listing) == DictOf(MarketFiles(listing));
    DictOfHasKey(MarketFiles(listing), slug);
    MarketFilesSlugs(listing, slug);
  }

  /** A slug is loaded exactly when the listing has a file named after it. */
  lemma {:induction false} MarketFilesSlugs(listing: seq<(string, seq<Fill>)>, slug: string)
    ensures (exists k | 0 <= k < |MarketFiles(listing)| :: MarketFiles(listing)[k].0 == slug)
      <==> (exists i | 0 <= i < |listing| :: listing[i].0 == FillsPrefix + slug + FillsSuffix)
  {
    var items := MarketFiles(listing);
    if k :| 0 <= k < |items| && items[k].0 == slug {
      MarketFilesSound(listing, items[k]);
    }
    if i :| 0 <= i < |listing| && listing[i].0 == FillsPrefix + slug + FillsSuffix {
      SlugRoundTrip(slug);
      MarketFilesComplete(listing, i);
    }
  }

  /**
   * `generate_market_hypergraph`: `ValueError` for a file without fills;
   * otherwise the single-market build, written under the slug. A non-empty
   * market has at least a buyers' and a sellers' edge and at least one node.
   */
  function GenerateMarket(path: string, fills: seq<Fill>, slug: string): (r: Result<(Files, Stats)>)
    ensures r.Err? <==> fills == []
    ensures r.Err? ==> r.error == NoFillsFound(path)
    ensures r.Ok? ==> r.value.1.hyperedges >= 2 && r.value.1.nodes >= 1
    ensures r.Ok? ==> |r.value.0.nverts| == |r.value.0.times| == r.value.1.hyperedges
    ensures r.Ok? ==> r.value.1.nodes == |r.value.0.labels| && r.value.1.totalVertexOccurrences == |r.value.0.simplices|
  {
    if fills == [] then Err(NoFillsFound(path))
    else
      var ts := Tag(Some(MarketName(Some(slug))), Trades(fills));
      var g := BuildFromFills(fills, Some(slug));
      BuildCovered(ts);
      BuildNonEmpty(ts);
      Ok((Write(g.edges, g.traders), WriteStats(g.edges, g.traders)))
  }

  /**
   * `generate_unified_hypergraph`: `ValueError` when the directory holds no
   * fills file; otherwise the unified build over the loaded markets, with
   * `markets_count` the number of distinct slugs.
   */
  function GenerateUnified(dir: string, listing: seq<(string, seq<Fill>)>): (r: Result<(Files, Stats)>)
    ensures r.Err? <==> forall i | 0 <= i < |listing| :: !IsFillsFile(listing[i].0)
    ensures r.Err? ==> r.error == NoFillsFiles(dir)
    ensures r.Ok? ==> r.value.1.marketsCount == Some(|LoadRawFills(listing)|)
    ensures r.Ok? ==> r.value.1.nodes == |r.value.0.labels| && r.value.1.totalVertexOccurrences == |r.value.0.simplices|
    ensures r.Ok? ==> r.value.1.hyperedges == |r.value.0.nverts| == |r.value.0.times|
  {
    var markets := LoadRawFills(listing);
    if markets == [] then Err(NoFillsFiles(dir))
    else
      var ts := TagAll(markets);
      var g := BuildUnified(markets);
      BuildCovered(ts);
      var s := WriteStats(g.edges, g.traders);
      Ok((Write(g.edges, g.traders), s.(marketsCount := Some(|markets|))))
  }
}
