/**
 * The pure parts of the Polymarket data processor: reading market and event
 * slugs out of URLs, normalising Gamma's list fields, picking the token ids
 * and outcomes of a market, and merging the two sides of a fill query into
 * one list without duplicates, in timestamp order.
 */
module Processor {

  import opened Common
  import opened Text
  import Fills
  import Grouping

  /** The characters `re.split(r"[/?#]", ...)` cuts at. */
  const UrlSeps: set<char> := {'/', '?', '#'}

  const Host: string := "polymarket.com"
  const EventsMarker: string := "/events/"

  /** The last element of a non-empty sequence (`xs[-1]`). */
  function Last<T>(xs: seq<T>): T
    requires xs != []
  {
    xs[|xs| - 1]
  }

  /** The text holds the host name, so splitting it at URL separators keeps a non-empty piece. */
  lemma {:induction false} HostKeepsPiece(t: string)
    requires Contains(t, Host)
    ensures NonEmpty(Split(t, UrlSeps)) != []
  {
    var i := FindFirst(t, Host).value;
    assert t[i..i + |Host|] == Host;
    assert t[i] == t[i..i + |Host|][0] == 'p';
    SplitKeepsPiece(t, UrlSeps, i);
  }

  /**
   * `[p for p in re.split(r"[/?#]", t) if p][-1]`: a non-empty piece of the
   * split holding no separator, and every piece after it is empty.
   */
  function LastSegment(t: string): (r: string)
    requires Contains(t, Host)
    ensures var parts := Split(t, UrlSeps);
      && r != [] && NoneIn(r, UrlSeps)
      && exists k | 0 <= k < |parts| :: parts[k] == r && forall j | k < j < |parts| :: parts[j] == []
  {
    HostKeepsPiece(t);
    NonEmptyLast(Split(t, UrlSeps));
    Last(NonEmpty(Split(t, UrlSeps)))
  }

  /** The last non-empty piece sits after every other non-empty piece. */
  lemma {:induction false} NonEmptyLast(parts: seq<string>)
    requires NonEmpty(parts) != []
    ensures exists k | 0 <= k < |parts| ::
      parts[k] == Last(NonEmpty(parts)) && forall j | k < j < |parts| :: parts[j] == []
    decreases |parts|
  {
    var n := |parts| - 1;
    var init := parts[..n];
    if parts[n] == [] {
      assert NonEmpty(parts) == NonEmpty(init);
      NonEmptyLast(init);
      var k :| 0 <= k < |init| && init[k] == Last(NonEmpty(init)) && forall j | k < j < |init| :: init[j] == [];
      assert parts[k] == init[k];
      assert forall j | k < j < |parts| :: parts[j] == [] by {
        forall j | k < j < |parts|
          ensures parts[j] == []
        {
          if j < n {
            assert parts[j] == init[j];
          }
        }
      }
    } else {
      assert Last(NonEmpty(parts)) == parts[n];
    }
  }

  /** `parse_market_slug`: the last path segment of a Polymarket URL, else the stripped text. */
  function ParseMarketSlug(text: string): (r: string)
    ensures !Contains(Strip(text), Host) ==> r == Strip(text)
    ensures Contains(Strip(text), Host) ==> r != [] && NoneIn(r, UrlSeps)
  {
    var t := Strip(text);
    if Contains(t, Host) then LastSegment(t) else t
  }

  /**
   * The slug part of an event URL: the text after the first `/events/` up to
   * the next one, cut at the first `?`, then at the first `#`, then without
   * trailing slashes. So it is a prefix of the text after the first
   * `/events/`, free of `?` and `#`, and not ending in `/`.
   */
  function EventPart(t: string): (r: string)
    requires Contains(t, EventsMarker)
    ensures var i := FindFirst(t, EventsMarker).value;
      && StartsWith(t[i + |EventsMarker|..], r)
      && NoneIn(r, {'?', '#'})
      && (r == [] || r[|r| - 1] != '/')
  {
    SplitOnSecond(t, EventsMarker);
    var parts := SplitOn(t, EventsMarker);
    var i := FindFirst(t, EventsMarker).value;
    var rest := t[i + |EventsMarker|..];
    assert StartsWith(rest, parts[1]);
    Cuts(rest, parts[1]);
    TrimEnd(Split(Split(parts[1], {'?'})[0], {'#'})[0], {'/'})
  }

  /** `parse_event_slug`. */
  function ParseEventSlug(text: string): (r: string)
    ensures !Contains(Strip(text), Host) ==> r == Strip(text)
  {
    var t := Strip(text);
    if Contains(t, Host) then
      if Contains(t, EventsMarker) then
        SplitOnSecond(t, EventsMarker);
        var parts := SplitOn(t, EventsMarker);
        if |parts| > 1 then EventPart(t)
        else LastSegment(t)
      else LastSegment(t)
    else t
  }

  /**
   * With `/events/` in a Polymarket URL the `len(parts) > 1` test always
   * passes and the result is the event part.
   */
  lemma {:induction false} EventSlugFromMarker(text: string)
    requires Contains(Strip(text), Host) && Contains(Strip(text), EventsMarker)
    ensures ParseEventSlug(text) == EventPart(Strip(text))
  {
    SplitOnSecond(Strip(text), EventsMarker);
  }

  /** Cutting a prefix `a` of `rest` at `?`, then `#`, then dropping trailing `/`. */
  lemma {:induction false} Cuts(rest: string, a: string)
    requires StartsWith(rest, a)
    ensures var r := TrimEnd(Split(Split(a, {'?'})[0], {'#'})[0], {'/'});
      && StartsWith(rest, r)
      && NoneIn(r, {'?', '#'})
      && (r == [] || r[|r| - 1] != '/')
  {
    var b := Split(a, {'?'})[0];
    var c := Split(b, {'#'})[0];
    var r := TrimEnd(c, {'/'});
    SplitFirst(a, {'?'});
    SplitFirst(b, {'#'});
    PrefixTrans(rest, a, b);
    PrefixTrans(rest, b, c);
    PrefixTrans(rest, c, r);
    PrefixTrans(b, c, r);
    PrefixAvoids(b, r, {'?'});
    PrefixAvoids(c, r, {'#'});
  }

  /** A prefix of a text free of `cs` is free of `cs`. */
  lemma {:induction false} PrefixAvoids(s: string, p: string, cs: set<char>)
    requires StartsWith(s, p) && NoneIn(s, cs)
    ensures NoneIn(p, cs)
  {
    forall k | 0 <= k < |p|
      ensures p[k] !in cs
    {
      assert p[k] == s[..|p|][k];
    }
  }

  lemma {:induction false} PrefixTrans(s: string, p: string, q: string)
    requires StartsWith(s, p) && StartsWith(p, q)
    ensures StartsWith(s, q)
  {
    assert s[..|q|] == s[..|p|][..|q|];
  }

  /** Without `/events/`, an event URL falls back to the market rule. */
  lemma {:induction false} EventSlugFallback(text: string)
    requires !Contains(Strip(text), EventsMarker)
    ensures ParseEventSlug(text) == ParseMarketSlug(text)
  {
  }

  /** The JSON values Gamma's fields can hold, as far as the processor looks at them. */
  datatype Value = Null | Str(text: string) | Int(n: int) | List(items: seq<Value>) | Other

  /**
   * `_ensure_list`. JSON decoding of a bracketed string is the parameter
   * `decode`, which gives `None` on text that is not a valid JSON array.
   */
  function EnsureList(x: Value, decode: string -> Option<seq<Value>>): (r: Result<seq<Value>>)
    ensures x.Null? ==> r == Ok([])
    ensures x.List? ==> r == Ok(x.items)
    ensures x.Str? && Bracketed(Strip(x.text)) ==>
      r == match decode(Strip(x.text)) case Some(v) => Ok(v) case None => Err(JsonDecode(Strip(x.text)))
    ensures x.Str? && !Bracketed(Strip(x.text)) ==> r == Ok([x])
    ensures x.Int? || x.Other? ==> r == Ok([x])
  {
    match x
    case Null => Ok([])
    case List(items) => Ok(items)
    case Str(s) =>
      var t := Strip(s);
      if Bracketed(t) then
        match decode(t)
        case Some(v) => Ok(v)
        case None => Err(JsonDecode(t))
      else Ok([x])
    case _ => Ok([x])
  }

  /** Normalising a normalised list again gives it back unchanged. */
  lemma {:induction false} EnsureListIdempotent(x: Value, decode: string -> Option<seq<Value>>)
    requires EnsureList(x, decode).Ok?
    ensures EnsureList(List(EnsureList(x, decode).value), decode) == EnsureList(x, decode)
  {
  }

  /** `s.startswith("[") and s.endswith("]")`. */
  predicate Bracketed(s: string) {
    StartsWith(s, "[") && EndsWith(s, "]")
  }

  /** The fields of a Gamma market object that `extract_market_ids` reads; absent fields are `Null`. */
  datatype Market = Market(conditionId: Value, clobTokenIds: Value, outcomes: Value)

  datatype MarketIds = MarketIds(conditionId: Value, tokenIds: seq<string>, outcomes: seq<string>)

  /** `[str(x) for x in xs]`, with Python's `str` as the parameter `render`. */
  function Render(xs: seq<Value>, render: Value -> string): (r: seq<string>)
    ensures |r| == |xs|
  {
    seq(|xs|, i requires 0 <= i < |xs| => render(xs[i]))
  }

  /**
   * `extract_market_ids`: both lists are normalised before the token count
   * is checked, and missing outcomes default to `["Yes", "No"]`.
   */
  function ExtractMarketIds(m: Market, decode: string -> Option<seq<Value>>, render: Value -> string): (r: Result<MarketIds>)
    ensures r.Ok? ==> |r.value.tokenIds| == 2 && r.value.conditionId == m.conditionId
    ensures r.Err? ==> r.error.JsonDecode? || (r.error.TokenCount? && r.error.count != 2)
  {
    match EnsureList(m.clobTokenIds, decode)
    case Err(e) => Err(e)
    case Ok(tokens) =>
      match EnsureList(m.outcomes, decode)
      case Err(e) => Err(e)
      case Ok(outs) =>
        var tokenIds := Render(tokens, render);
        var outcomes := Render(outs, render);
        if |tokenIds| != 2 then Err(TokenCount(|tokenIds|))
        else
          var chosen := if |outcomes| != 2 && outcomes == [] then ["Yes", "No"] else outcomes;
          Ok(MarketIds(m.conditionId, tokenIds, chosen))
  }

  /**
   * When both fields decode, the call fails exactly when there are not two
   * token ids, and the outcomes are replaced only when there are none.
   */
  lemma {:induction false} ExtractMarketIdsCases(m: Market, decode: string -> Option<seq<Value>>, render: Value -> string)
    requires EnsureList(m.clobTokenIds, decode).Ok? && EnsureList(m.outcomes, decode).Ok?
    ensures var tokens := EnsureList(m.clobTokenIds, decode).value;
      var outs := EnsureList(m.outcomes, decode).value;
      var r := ExtractMarketIds(m, decode, render);
      && (r.Err? <==> |tokens| != 2)
      && (r.Err? ==> r.error == TokenCount(|tokens|))
      && (r.Ok? ==> r.value.tokenIds == Render(tokens, render))
      && (r.Ok? && outs == [] ==> r.value.outcomes == ["Yes", "No"])
      && (r.Ok? && outs != [] ==> r.value.outcomes == Render(outs, render))
  {
  }

  /** A decoding failure of either field is passed on, token ids first. */
  lemma {:induction false} ExtractMarketIdsDecodeError(m: Market, decode: string -> Option<seq<Value>>, render: Value -> string)
    ensures EnsureList(m.clobTokenIds, decode).Err? ==>
      ExtractMarketIds(m, decode, render) == Err(EnsureList(m.clobTokenIds, decode).error)
    ensures EnsureList(m.clobTokenIds, decode).Ok? && EnsureList(m.outcomes, decode).Err? ==>
      ExtractMarketIds(m, decode, render) == Err(EnsureList(m.outcomes, decode).error)
  {
  }

  /** `(row["id"], row)` for every fill row. */
  function ById(rows: seq<Fills.Fill>): (items: seq<(string, Fills.Fill)>)
    ensures |items| == |rows|
    ensures forall i | 0 <= i < |rows| :: items[i] == (rows[i].id, rows[i])
  {
    seq(|rows|, i requires 0 <= i < |rows| => (rows[i].id, rows[i]))
  }

  /** The values of a dict listed as its items, in insertion order. */
  function Values<K, V>(d: seq<(K, V)>): (vs: seq<V>)
    ensures |vs| == |d|
    ensures forall j | 0 <= j < |d| :: vs[j] == d[j].1
  {
    seq(|d|, j requires 0 <= j < |d| => d[j].1)
  }

  /** `by_id[row["id"]] = row` over the rows, then `list(by_id.values())`. */
  function DedupById(rows: seq<Fills.Fill>): (fills: seq<Fills.Fill>)
    ensures |fills| <= |rows|
    ensures forall j | 0 <= j < |fills| :: fills[j] in rows
  {
    var d := Grouping.DictOf(ById(rows));
    DictValuesFromRows(rows, d);
    Values(d)
  }

  /** Every value of the dict is one of the input rows. */
  lemma {:induction false} DictValuesFromRows(rows: seq<Fills.Fill>, d: seq<(string, Fills.Fill)>)
    requires d == Grouping.DictOf(ById(rows))
    ensures forall j | 0 <= j < |d| :: d[j].1 in rows
  {
    forall j | 0 <= j < |d|
      ensures d[j].1 in rows
    {
      KeyOfValue(rows, d, j);
    }
  }

  /** No row after `rows[m]` has its id: `rows[m]` is the last row with that id. */
  predicate LastWithId(rows: seq<Fills.Fill>, m: nat)
    requires m < |rows|
  {
    forall n | m < n < |rows| :: rows[n].id != rows[m].id
  }

  /** The kept rows have pairwise distinct ids. */
  lemma {:induction false} DedupDistinct(rows: seq<Fills.Fill>, j: nat, k: nat)
    requires j < k < |DedupById(rows)|
    ensures DedupById(rows)[j].id != DedupById(rows)[k].id
  {
    var d := Grouping.DictOf(ById(rows));
    KeyOfValue(rows, d, j);
    KeyOfValue(rows, d, k);
  }

  /** An id is kept exactly when some input row carries it. */
  lemma {:induction false} DedupKeepsIds(rows: seq<Fills.Fill>, id: string)
    ensures (exists k | 0 <= k < |DedupById(rows)| :: DedupById(rows)[k].id == id)
      <==> (exists i | 0 <= i < |rows| :: rows[i].id == id)
  {
    var items := ById(rows);
    var d := Grouping.DictOf(items);
    var fills := DedupById(rows);
    Grouping.DictOfHasKey(items, id);
    if k :| 0 <= k < |fills| && fills[k].id == id {
      KeyOfValue(rows, d, k);
      assert d[k].0 == id;
      var i :| 0 <= i < |items| && items[i].0 == id;
      assert rows[i].id == id;
    }
    if i :| 0 <= i < |rows| && rows[i].id == id {
      assert items[i].0 == id;
      var k :| 0 <= k < |d| && d[k].0 == id;
      KeyOfValue(rows, d, k);
      assert fills[k].id == id;
    }
  }

  /** The row kept for an id is the last input row with that id. */
  lemma {:induction false} DedupKeepsLast(rows: seq<Fills.Fill>, j: nat)
    requires j < |DedupById(rows)|
    ensures exists m | 0 <= m < |rows| :: rows[m] == DedupById(rows)[j] && LastWithId(rows, m)
  {
    KeyOfValue(rows, Grouping.DictOf(ById(rows)), j);
  }

  /** Every value of the dict is the last row whose id is its key. */
  lemma {:induction false} KeyOfValue(rows: seq<Fills.Fill>, d: seq<(string, Fills.Fill)>, j: nat)
    requires d == Grouping.DictOf(ById(rows)) && j < |d|
    ensures d[j].1.id == d[j].0
    ensures exists m | 0 <= m < |rows| :: rows[m] == d[j].1 && LastWithId(rows, m)
  {
    Grouping.DictOfValues(ById(rows));
    assert Grouping.HoldsLast(ById(rows), d[j]);
    LastValueIsLast(rows, d[j].0);
  }

  /** The last value stored under an id is the last row with that id. */
  lemma {:induction false} LastValueIsLast(rows: seq<Fills.Fill>, id: string)
    requires exists i | 0 <= i < |rows| :: ById(rows)[i].0 == id
    ensures Grouping.LastValue(ById(rows), id).id == id
    ensures exists m | 0 <= m < |rows| :: rows[m] == Grouping.LastValue(ById(rows), id) && LastWithId(rows, m)
    decreases |rows|
  {
    var n := |rows| - 1;
    var items := ById(rows);
    if rows[n].id != id {
      var init := rows[..n];
      assert ById(init) == items[..n];
      var i :| 0 <= i < |rows| && items[i].0 == id;
      assert ById(init)[i].0 == id;
      LastValueIsLast(init, id);
      var m :| 0 <= m < n && init[m] == Grouping.LastValue(ById(init), id) && LastWithId(init, m);
      LaterRows(rows, n, m);
    }
  }

  /** A row that is last with its id among the first `n` rows stays so when row `n` has another id. */
  lemma {:induction false} LaterRows(rows: seq<Fills.Fill>, n: nat, m: nat)
    requires m < n == |rows| - 1
    requires LastWithId(rows[..n], m) && rows[n].id != rows[m].id
    ensures LastWithId(rows, m)
  {
    forall q | m < q < |rows|
      ensures rows[q].id != rows[m].id
    {
      if q < n {
        assert rows[q] == rows[..n][q];
      }
    }
  }

  /** Non-decreasing timestamps. */
  predicate TimeSorted(fills: seq<Fills.Fill>) {
    forall i, j | 0 <= i < j < |fills| :: fills[i].timestamp <= fills[j].timestamp
  }

  /** The fills with timestamp `t`, in order. */
  function AtTime(fills: seq<Fills.Fill>, t: int): (r: seq<Fills.Fill>)
    ensures forall k | 0 <= k < |r| :: r[k].timestamp == t
  {
    if fills == [] then []
    else
      var n := |fills| - 1;
      AtTime(fills[..n], t) + (if fills[n].timestamp == t then [fills[n]] else [])
  }

  /** Inserts `f` after every fill whose timestamp is not later than its own. */
  function Insert(f: Fills.Fill, s: seq<Fills.Fill>): (r: seq<Fills.Fill>)
    ensures |r| == |s| + 1
  {
    if s == [] || s[|s| - 1].timestamp <= f.timestamp then s + [f]
    else Insert(f, s[..|s| - 1]) + [s[|s| - 1]]
  }

  /**
   * `fills.sort(key=lambda x: int(x["timestamp"]))`, a stable sort: the same
   * fills, each as often, in non-decreasing timestamp order. `SortStable`
   * states the stability.
   */
  function SortByTimestamp(fills: seq<Fills.Fill>): (r: seq<Fills.Fill>)
    ensures |r| == |fills|
    ensures multiset(r) == multiset(fills)
    ensures TimeSorted(r)
  {
    if fills == [] then []
    else
      var n := |fills| - 1;
      var prior := SortByTimestamp(fills[..n]);
      InsertMultiset(fills[n], prior);
      InsertSorted(fills[n], prior);
      assert fills == fills[..n] + [fills[n]];
      Insert(fills[n], prior)
  }

  lemma {:induction false} InsertMultiset(f: Fills.Fill, s: seq<Fills.Fill>)
    ensures multiset(Insert(f, s)) == multiset(s) + multiset{f}
    decreases |s|
  {
    if s != [] && s[|s| - 1].timestamp > f.timestamp {
      var n := |s| - 1;
      InsertMultiset(f, s[..n]);
      assert s == s[..n] + [s[n]];
    }
  }

  /** Inserting a fill no later than `t` into fills no later than `t` gives fills no later than `t`. */
  lemma {:induction false} InsertBounded(f: Fills.Fill, s: seq<Fills.Fill>, t: int)
    requires f.timestamp <= t
    requires forall k | 0 <= k < |s| :: s[k].timestamp <= t
    ensures forall k | 0 <= k < |Insert(f, s)| :: Insert(f, s)[k].timestamp <= t
    decreases |s|
  {
    if s != [] && s[|s| - 1].timestamp > f.timestamp {
      InsertBounded(f, s[..|s| - 1], t);
    }
  }

  /** Inserting into a sorted list keeps it sorted. */
  lemma {:induction false} InsertSorted(f: Fills.Fill, s: seq<Fills.Fill>)
    requires TimeSorted(s)
    ensures TimeSorted(Insert(f, s))
    decreases |s|
  {
    if s != [] && s[|s| - 1].timestamp > f.timestamp {
      var n := |s| - 1;
      var init := s[..n];
      InsertSorted(f, init);
      InsertBounded(f, init, s[n].timestamp);
      SnocSorted(Insert(f, init), s[n]);
    } else if s != [] {
      SnocSorted(s, f);
    }
  }

  /** A sorted list followed by a fill no earlier than any of its own is sorted. */
  lemma {:induction false} SnocSorted(s: seq<Fills.Fill>, f: Fills.Fill)
    requires TimeSorted(s)
    requires forall k | 0 <= k < |s| :: s[k].timestamp <= f.timestamp
    ensures TimeSorted(s + [f])
  {
  }

  /** Inserting `f` adds it after the fills of its own timestamp and moves no other fill of any timestamp. */
  lemma {:induction false} InsertAtTime(f: Fills.Fill, s: seq<Fills.Fill>, t: int)
    ensures AtTime(Insert(f, s), t) == AtTime(s, t) + (if f.timestamp == t then [f] else [])
    decreases |s|
  {
    var r := Insert(f, s);
    if s == [] || s[|s| - 1].timestamp <= f.timestamp {
      assert r[..|r| - 1] == s;
    } else {
      var n := |s| - 1;
      var init := s[..n];
      InsertAtTime(f, init, t);
      assert r[..|r| - 1] == Insert(f, init);
      assert s[..n] == init;
    }
  }

  /** The sort is stable: the fills of each timestamp keep their input order. */
  lemma {:induction false} SortStable(fills: seq<Fills.Fill>, t: int)
    ensures AtTime(SortByTimestamp(fills), t) == AtTime(fills, t)
    decreases |fills|
  {
    if fills != [] {
      var n := |fills| - 1;
      SortStable(fills[..n], t);
      InsertAtTime(fills[n], SortByTimestamp(fills[..n]), t);
    }
  }

  /**
   * The dedup-then-sort step of `fetch_all_fills` over the maker-side and
   * taker-side rows: the deduplicated rows, each once, in timestamp order.
   */
  function MergeFills(makerSide: seq<Fills.Fill>, takerSide: seq<Fills.Fill>): (fills: seq<Fills.Fill>)
    ensures multiset(fills) == multiset(DedupById(makerSide + takerSide))
    ensures TimeSorted(fills)
  {
    SortByTimestamp(DedupById(makerSide + takerSide))
  }
}
