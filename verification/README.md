# Polymarket temporal hypergraphs, modelled in Dafny

This project models the pure core of `polymarket_data`. That core turns Polymarket order fills (Goldsky `orderFilledEvent` rows) into temporal hypergraphs. The nodes are trader wallets. A hyperedge is a group of traders acting together in a time bucket.

- **Classification** (`Fills`). `classify_trade` decides who bought, who sold and which outcome token changed hands. The asset id `"0"` marks the USDC leg. A fill is bucketed by its UTC day start, `t - t % 86400`, or by a time window, `(t // W) * W`.
- **Undirected aggregation** (`Undirected`). One hyperedge per key `(market, outcome, day_start, side)`, holding a set of lower-cased addresses. The edges are sorted by `(day_start, market, outcome, side)` as Python compares tuples of strings. One definition, `Build`, serves all three builders:
  - `build_hypergraph_from_fills`, keyed with one slug or `'market'`;
  - the unified builders `build_hypergraph` and `generate_unified_hypergraph`, keyed with each market's slug;
  - `build_per_market_hypergraph`, whose keys have no market component.
- **Congress-bills files** (`Nodes`, `Congress`). The writer produces four files:
  - node labels: the sorted addresses, numbered from 1;
  - `nverts`, `simplices` and `times`;
  - the file-name to slug rule of `load_raw_fills`;
  - the integrity assertions of `generate_hypergraph.py`;
  - the `ValueError`s of the two generators.
- **Directed conversion** (`Directed`).
  - Node ids come from the sorted raw addresses, numbered from 0.
  - Transaction mode gives one edge per fill.
  - Time-window mode groups sellers into the left list and buyers into the right list, one edge per window.
  - Each edge is written as an `idx:ids` row.
- **Processor helpers** (`Processor`).
  - `parse_market_slug` and `parse_event_slug`.
  - `_ensure_list` and `extract_market_ids`.
  - The dedup-by-id, then stable sort by timestamp, inside `fetch_all_fills`.
- **Support modules.**
  - `Ordering`: Python's code-point order on strings; sorting a finite set.
  - `Seq`: sums and flattening.
  - `Grouping`: `defaultdict(set)` and insertion-ordered `dict` assignment.
  - `Text`: `strip`, `rstrip`, ASCII `lower`, `split`, `join`, and decimal text.
  - `Common`: `Option`, `Result`, and the exceptions the code raises.

Files and I/O are modelled as data:
- A directory listing is a sequence of (file name, parsed fills) pairs.
- An output file is its sequence of lines (or line values).
- JSON decoding and Python's `str()` on Gamma values are function parameters (`decode`, `render`).

### Behaviour of the code worth noting

- **Directed mode:** it numbers the raw addresses as written and does not lower-case them. Only the undirected builders lower-case.
- **Empty input:** only `generate_market_hypergraph` (an empty fills file) and `generate_unified_hypergraph` (no `fills_*.json` file) raise. The builders themselves accept empty input.
- **Integrity checks:** they exist only as the two `assert`s in `generate_hypergraph.py`. The writer in `hypergraph_utils.py` checks nothing. `Congress.WriteIntegrity` proves that the assertions can never fail on the writer's own output.
- **Fills with no `"0"` leg:** `classify_trade` never rejects a fill. With no `"0"` leg, the taker is taken as the buyer.

## Model

| member | source | states |
|---|---|---|
| Fills.DayStart | hypergraph_utils.py:13-17 | The day start is a multiple of 86400 and lies within a day before the timestamp: `d <= t < d + 86400`. |
| Fills.DayStartUnique | hypergraph_utils.py:13-17 | Any multiple of 86400 within a day before `t` is the day start: the bucket is uniquely determined. |
| Fills.DayStartIdempotent | hypergraph_utils.py:13-17 | Bucketing a day start again returns it unchanged. |
| Fills.SameDay | hypergraph_utils.py:13-17 | Two timestamps share a bucket exactly when the second lies within the first one's day. |
| Fills.Classify | hypergraph_utils.py:20-55 | `{buyer, seller}` is the lower-cased `{maker, taker}` as a multiset. The buyer is the lower-cased raw buyer. The outcome is one of the two asset ids. The day start brackets the timestamp. The copy at generate_hypergraph.py:48-80 is identical, so one definition serves both (likewise `get_day_start_timestamp` at generate_hypergraph.py:41-45). |
| Fills.ClassifyRoles | hypergraph_utils.py:36-46 | With `makerAssetId == "0"` the maker buys and the outcome is the taker's asset. Otherwise the taker buys and the outcome is the maker's asset, even when neither leg is `"0"`. |
| Fills.Outcome | hypergraph_utils.py:37-46 | The outcome token is the non-USDC leg whenever exactly one leg is `"0"`. It is `"0"` only if both legs are `"0"`. |
| Fills.BuyBeforeSell | hypergraph_utils.py:108 | `'BUY'` sorts before `'SELL'`, and neither tag is below itself. |
| Fills.FloorDiv | models/DHyperNodeTPP/convert_polymarket_to_hypergraph.py:77 | Python's `//` for either sign of divisor: the quotient is the floor of the exact ratio. |
| Fills.WindowStart | models/DHyperNodeTPP/convert_polymarket_to_hypergraph.py:77 | For `W > 0` the window is a multiple of `W` with `w <= t < w + W`. For `W < 0` it is the mirrored bracket. |
| Fills.DayIsWindow | models/DHyperNodeTPP/convert_polymarket_to_hypergraph.py:77 | A one-day window gives exactly the UTC day start. |
| Fills.RawSeller | models/DHyperNodeTPP/convert_polymarket_to_hypergraph.py:83-90 | Buyer and seller are the maker and the taker in some order, as a multiset. |
| Ordering.StrLtStrictTotal | hypergraph_utils.py:134 | Python's string order is a strict total order on any set of addresses, so `sorted` is well defined. |
| Ordering.SortStringsAscending | hypergraph_utils.py:134 | `sorted(all_traders)` is strictly ascending. |
| Ordering.SortStringsHas | hypergraph_utils.py:134 | Every address appears in the sorted list. |
| Ordering.SortedUnique | hypergraph_utils.py:134 | Two sorted lists with the same elements are equal: the sort result depends only on the set. |
| Ordering.SortInts | models/DHyperNodeTPP/convert_polymarket_to_hypergraph.py:94-96 | `sorted` of a set of integers lists exactly that set, strictly ascending. |
| Grouping.Group | hypergraph_utils.py:73-94 | Every group is non-empty, holds only values added under its key, and holds every value added under its key. |
| Grouping.GroupMembers | hypergraph_utils.py:86-94 | A value is in a key's group exactly when that (key, value) pair was added. |
| Grouping.GroupPermutation | hypergraph_utils.py:73-94 | Grouping a reordering of the pairs gives the same map. |
| Grouping.DictOfKeys | polymarket_processor.py:270-272 | Assigning into a dict lists each key once, in order of first occurrence. |
| Grouping.DictOfValues | polymarket_processor.py:270-272 | Each key of the dict holds the value of its last assignment. |
| Grouping.DictOfHasKey | polymarket_processor.py:270-272 | A key is in the dict exactly when some item carries it. |
| Undirected.KeyLtStrictTotal | hypergraph_utils.py:108 | The tuple order on `(day_start, market, outcome, side)` is a strict total order. |
| Undirected.SortKeysAscending | hypergraph_utils.py:108 | The sorted keys strictly ascend in that order. |
| Undirected.Build | hypergraph_utils.py:96-105 | No emitted hyperedge has an empty trader set. |
| Undirected.BuildAscending | hypergraph_utils.py:107-108 | The edges strictly ascend by `(day_start, market, outcome, side)`. |
| Undirected.BuildMembers | hypergraph_utils.py:76-94 | An edge with key `k` holds trader `a` exactly when some fill adds `a` under `k`. This is soundness and completeness of membership. |
| Undirected.FillPlaced | hypergraph_utils.py:86-94 | Every fill's buyer is in its `'BUY'` edge and its seller is in its `'SELL'` edge. |
| Undirected.PairsMembers | hypergraph_utils.py:76-94 | The additions are exactly the buyer and seller contributions of the fills. |
| Undirected.BuildKeysDistinct | hypergraph_utils.py:96-105 | No two edges share a key. |
| Undirected.BuildTraders | hypergraph_utils.py:73-105 | `all_traders` is exactly the union of the edges' trader sets. |
| Undirected.BuildNonEmpty | hypergraph_utils.py:76-94 | One fill yields at least a buyers' edge, a sellers' edge and one trader. |
| Undirected.BuildTimeOrder | hypergraph_utils.py:108 | Edge times never decrease. Within one (day, market, outcome), the `'BUY'` edge precedes the `'SELL'` edge. |
| Undirected.BuildPermutation | hypergraph_utils.py:73-108 | Reordering the fills changes neither the edges nor the trader set. |
| Undirected.MarketName | hypergraph_utils.py:84 | `market_slug or 'market'`: a non-empty slug is kept. An absent or empty slug becomes `'market'`. |
| Undirected.BuildFromFills | hypergraph_utils.py:58-110 | Every key names the market `market_slug or 'market'`. The edges strictly ascend. There are edges exactly when there are fills. |
| Undirected.BuildUnified | generate_hypergraph.py:83-133 | The edges strictly ascend. There are edges exactly when some market has a fill. The same loop is at hypergraph_utils.py:264-298. |
| Undirected.BuildPerMarket | generate_hypergraph.py:202-237 | No key names a market. The edges strictly ascend. There are edges exactly when there are fills. |
| Undirected.BuildEmpty | hypergraph_utils.py:76-105 | The aggregation has no edge exactly when it is given no fill. |
| Undirected.BuildMarkets | hypergraph_utils.py:84-94 | When every fill is tagged with one market component, every key carries that component. |
| Undirected.TagAllOrigin | generate_hypergraph.py:96-114 | Each fill the unified loop visits is some market's fill `j`, classified, under that market's slug. |
| Undirected.TagAllHas | generate_hypergraph.py:96-114 | Conversely, the unified loop visits every fill of every market, under that market's slug. |
| Undirected.UnifiedMarketsSeparate | generate_hypergraph.py:96-114 | An edge with key `k` holds trader `a` exactly when some fill of a market whose slug is `k`'s market adds `a` under `k`. So two markets never share an edge. |
| Undirected.UnifiedSingle | hypergraph_utils.py:264-298 | Over one market, the unified aggregation equals the single-market build keyed with that slug. |
| Undirected.MarketPairs | generate_hypergraph.py:96-114 | With distinct slugs (the keys of `fills_by_market`), the unified additions keyed with a market's slug are exactly that market's own additions. |
| Undirected.BuildRestrict | hypergraph_utils.py:96-108 | Building from the additions of one market lists exactly the full build's edges for that market, in the same order. |
| Undirected.OneMarketDropped | generate_hypergraph.py:202-237 | For a single market, the per-market edges are the unified edges with the market dropped, and the trader sets agree. |
| Undirected.PerMarketIsUnifiedDropped | generate_hypergraph.py:202-237 | For any market of `fills_by_market`, the per-market edges are the unified edges keyed with its slug, in order, with the market dropped. Its traders are exactly the traders of those edges. |
| Nodes.NodeIds | hypergraph_utils.py:134-135 | `trader_to_id` numbers exactly the given addresses. |
| Nodes.NodeIdAt | hypergraph_utils.py:134-135 | The address on line `i` of the sorted list gets id `i + base`. |
| Nodes.NodeIdLabel | hypergraph_utils.py:134-141 | Each id lies in `[base, base + n)`, and that line of the labels list holds the address. |
| Nodes.NodeIdsInjective | generate_hypergraph.py:149-150 | Distinct addresses get distinct ids. |
| Nodes.NodeIdsMonotone | hypergraph_utils.py:134-135 | `x < y` as strings exactly when `id(x) < id(y)`. |
| Nodes.SortedIds | hypergraph_utils.py:149-157 | The ids of a sorted trader set are strictly ascending and in range. They name exactly that set's members through the labels. |
| Congress.Write | hypergraph_utils.py:144-157 | One label per trader. `len(nverts) == len(times) == len(hyperedges)` and `sum(nverts) == len(simplices)`. |
| Congress.WriteLines | hypergraph_utils.py:148-153 | `nverts[j]` is edge `j`'s member count and `times[j]` is its day start. |
| Congress.WriteLabels | hypergraph_utils.py:134-141 | Line `i` of the labels holds the address whose id is `i + 1`. An address is a label exactly when it is a trader. |
| Congress.WriteLabelsAscend | hypergraph_utils.py:140-141 | The labels file is strictly ascending. |
| Congress.WriteBlock | hypergraph_utils.py:155-157 | Edge `j`'s block in `simplices` starts at the sum of the earlier counts and is exactly that edge's id list. |
| Congress.Placement | hypergraph_utils.py:155-157 | Piece `j` of a concatenation sits right after the earlier pieces. |
| Congress.BlockShape | hypergraph_utils.py:149-157 | Each block is strictly ascending, with ids in `1..n`, naming exactly the edge's members. |
| Congress.SimplicesInRange | generate_hypergraph.py:171-172 | Every simplices entry is a valid node id in `1..n`. |
| Congress.Check | generate_hypergraph.py:197-199 | The asserts pass exactly when `len(nverts) == len(times)` and `sum(nverts) == len(simplices)`. Otherwise they raise `AssertionError`. |
| Congress.WriteIntegrity | generate_hypergraph.py:197-199 | The writer's own lists always pass both integrity asserts. |
| Congress.WriteStats | hypergraph_utils.py:178-189 | `nodes`, `hyperedges` and `total_vertex_occurrences` are the label count, the edge count and the simplices length. |
| Congress.BuildCovered | hypergraph_utils.py:156-157 | Every edge member has an id, so `trader_to_id[trader]` never fails on a builder's output. |
| Congress.SlugOf | generate_hypergraph.py:29-30 | `filename[6:-5]` is the text between `"fills_"` and `".json"`, and the two never overlap. |
| Congress.SlugRoundTrip | generate_hypergraph.py:29-30 | The slug read from `"fills_" + s + ".json"` is exactly `s`. |
| Congress.FillsNameLong | generate_hypergraph.py:29 | A name that starts with `fills_` and ends with `.json` is at least 11 characters long. |
| Congress.MarketFiles | generate_hypergraph.py:28-30 | Nothing is loaded exactly when no name is a fills file. |
| Congress.MarketFilesComplete | generate_hypergraph.py:28-35 | Every fills file is loaded under its slug. |
| Congress.MarketFilesSound | generate_hypergraph.py:28-35 | Everything loaded comes from a file named `"fills_" + slug + ".json"`. |
| Congress.LoadRawFills | generate_hypergraph.py:24-38 | Slugs are distinct keys. The dict is empty exactly when there is no fills file. |
| Congress.LoadRawFillsKeys | generate_hypergraph.py:24-38 | A slug is loaded exactly when a file named after it is listed. |
| Congress.GenerateMarket | hypergraph_utils.py:194-232 | `ValueError` exactly for an empty fills list. Otherwise there are at least two edges and one node, with aligned `nverts` and `times`. The stats match the files: `nodes` is the label count, `hyperedges` the `nverts` length, `total_vertex_occurrences` the simplices length. |
| Congress.GenerateUnified | hypergraph_utils.py:235-310 | `ValueError` exactly when no fills file is listed. Otherwise `markets_count` is the number of distinct slugs, and the stats match the files as for one market. |
| Directed.Wallets | models/DHyperNodeTPP/convert_polymarket_to_hypergraph.py:27-30 | The wallet set holds every maker and taker and nothing else. |
| Directed.NodeMapping | models/DHyperNodeTPP/convert_polymarket_to_hypergraph.py:25-37 | The mapped addresses are exactly the makers and takers of the fills. |
| Directed.NodeMappingKnown | models/DHyperNodeTPP/convert_polymarket_to_hypergraph.py:25-34 | Every fill's maker and taker has an id, so the later lookups never fail. |
| Directed.NodeMappingOrder | models/DHyperNodeTPP/convert_polymarket_to_hypergraph.py:33-34 | Ids lie in `0..n-1`, are injective, and ascend with the raw addresses. |
| Directed.NodeMappingOnto | models/DHyperNodeTPP/convert_polymarket_to_hypergraph.py:33-34 | Every id in `0..n-1` is the id of the address at that position of the sorted list. |
| Directed.TransactionEdges | models/DHyperNodeTPP/convert_polymarket_to_hypergraph.py:44-59 | One edge per fill, each with exactly one left and one right id. |
| Directed.TransactionEdge | models/DHyperNodeTPP/convert_polymarket_to_hypergraph.py:46-57 | Edge `i`'s left id names fill `i`'s maker and its right id names fill `i`'s taker. Its time is fill `i`'s timestamp. |
| Directed.SortIds | models/DHyperNodeTPP/convert_polymarket_to_hypergraph.py:95-96 | The sorted id list holds exactly the set, strictly ascending. |
| Directed.TimeWindowEdges | models/DHyperNodeTPP/convert_polymarket_to_hypergraph.py:61-105 | `ZeroDivisionError` exactly when the window is 0 and there is at least one fill. |
| Directed.SellerMember | models/DHyperNodeTPP/convert_polymarket_to_hypergraph.py:83-90 | An id is a seller in window `t` exactly when some fill in that window has that seller under the `makerAssetId == "0"` rule. |
| Directed.BuyerMember | models/DHyperNodeTPP/convert_polymarket_to_hypergraph.py:83-90 | The same for buyers. |
| Directed.WindowsFull | models/DHyperNodeTPP/convert_polymarket_to_hypergraph.py:83-98 | Every window has a seller and a buyer, so the `sellers and buyers` guard never drops one. |
| Directed.Emit | models/DHyperNodeTPP/convert_polymarket_to_hypergraph.py:94-103 | Every emitted edge is the edge of a listed window that has a seller and a buyer. Every such window gets an edge. |
| Directed.EmitAll | models/DHyperNodeTPP/convert_polymarket_to_hypergraph.py:94-103 | When no window is empty, the guarded loop emits one edge per window, in order. |
| Directed.TimeWindowShape | models/DHyperNodeTPP/convert_polymarket_to_hypergraph.py:94-103 | The edges are exactly one per distinct window, in sorted window order. |
| Directed.TimeWindowTimes | models/DHyperNodeTPP/convert_polymarket_to_hypergraph.py:94 | Edge times strictly increase. |
| Directed.TimeWindowCovers | models/DHyperNodeTPP/convert_polymarket_to_hypergraph.py:77-103 | Some edge has time `t` exactly when some fill falls in window `t`. |
| Directed.TimeWindowMembers | models/DHyperNodeTPP/convert_polymarket_to_hypergraph.py:94-103 | Each edge's lists are non-empty and strictly ascending. An id is on the left (right) exactly when it is a seller (buyer) of a fill in that window. |
| Directed.Row | models/DHyperNodeTPP/convert_polymarket_to_hypergraph.py:119-124 | A row starts with its index written in decimal. |
| Directed.TimeRow | models/DHyperNodeTPP/convert_polymarket_to_hypergraph.py:127 | A time row reads back as its index and its time: two tab-separated fields, the second `[-]digits.0`. |
| Directed.Write | models/DHyperNodeTPP/convert_polymarket_to_hypergraph.py:116-127 | The three files have one line per edge. |
| Directed.RowRoundTrip | models/DHyperNodeTPP/convert_polymarket_to_hypergraph.py:119-124 | Reading back a written `idx:id,id,...` row gives the index and the id list. |
| Directed.WriteRows | models/DHyperNodeTPP/convert_polymarket_to_hypergraph.py:117-127 | Line `i` of the left and right files reads back as `(i, left)` and `(i, right)`. Line `i` of the times file starts with `i` and a tab. |
| Text.Trim | polymarket_processor.py:62 | `strip` removes a leading and a trailing run of whitespace, keeps the middle, and leaves no whitespace at either end. |
| Text.TrimUnique | polymarket_processor.py:62 | Any such cut equals `strip`'s result: it is the only one. |
| Text.Strip | polymarket_processor.py:79 | `strip()` removes the leading and trailing whitespace runs, keeps the middle, and leaves no whitespace at either end. |
| Text.TrimEnd | polymarket_processor.py:106 | `rstrip('/')` keeps a prefix, drops only `/`s, and leaves no trailing `/`. |
| Text.LowerIdempotent | hypergraph_utils.py:30-31 | Lower-casing twice equals lower-casing once, and leaves no upper-case ASCII letter. |
| Text.Split | polymarket_processor.py:82 | `re.split` on a character class gives at least one piece, and no piece holds a separator. |
| Text.SplitFirst | polymarket_processor.py:104 | `split(sep)[0]` is the prefix up to the first separator, or the whole text. |
| Text.SplitKeepsPiece | polymarket_processor.py:82 | A character that is not a separator survives in a non-empty piece. |
| Text.SplitOn | polymarket_processor.py:101 | `split(pat)` has at least one piece. Piece 0 is the text before the first occurrence, or the whole text. |
| Text.SplitOnSecond | polymarket_processor.py:101-102 | `len(text.split(pat)) > 1` exactly when `pat` occurs. Piece 1 is what follows the first occurrence, up to the next one. |
| Text.Join | models/DHyperNodeTPP/convert_polymarket_to_hypergraph.py:119 | `','.join(parts)` begins with the first part and ends with the last. With two or more parts it holds the separator. |
| Text.SplitJoin | models/DHyperNodeTPP/convert_polymarket_to_hypergraph.py:119 | Splitting a `','.join` of comma-free parts gives the parts back. |
| Text.NatStrRoundTrip | models/DHyperNodeTPP/convert_polymarket_to_hypergraph.py:119-120 | The decimal text of a natural number reads back as that number. |
| Processor.HostKeepsPiece | polymarket_processor.py:82-83 | A text containing `polymarket.com` keeps a non-empty segment, so `parts[-1]` cannot fail. |
| Processor.LastSegment | polymarket_processor.py:82-83 | The result is a non-empty piece of the split with none of `/ ? #`, and every later piece is empty. |
| Processor.ParseMarketSlug | polymarket_processor.py:69-84 | Text without `polymarket.com` comes back stripped. A URL gives a non-empty segment free of `/ ? #`. |
| Processor.ParseEventSlug | polymarket_processor.py:97-110 | Text without `polymarket.com` comes back stripped. |
| Processor.EventSlugFromMarker | polymarket_processor.py:100-106 | With `/events/` in the URL, the `len(parts) > 1` test always passes and the event part is returned. |
| Processor.EventPart | polymarket_processor.py:101-106 | The event part is a prefix of the text after the first `/events/`. It has no `?` or `#` and does not end in `/`. |
| Processor.EventSlugFallback | polymarket_processor.py:107-109 | Without `/events/`, `parse_event_slug` equals `parse_market_slug`. |
| Processor.EnsureList | polymarket_processor.py:55-66 | `None` gives `[]`. A list is returned as is. A bracketed string is decoded, or the decode error is raised. Any other string or value gives a singleton. |
| Processor.EnsureListIdempotent | polymarket_processor.py:55-66 | Normalising an already normalised list changes nothing. |
| Processor.ExtractMarketIds | polymarket_processor.py:176-196 | On success there are exactly two token ids and the condition id is passed through. Failure is a decode error or a token count other than 2. |
| Processor.ExtractMarketIdsCases | polymarket_processor.py:186-196 | Given decodable fields, the call fails exactly when the token count is not 2. Outcomes become `["Yes","No"]` only when empty. A non-empty list of any length is kept. |
| Processor.ExtractMarketIdsDecodeError | polymarket_processor.py:187-188 | A decode failure of `clobTokenIds`, then of `outcomes`, is propagated. |
| Processor.DedupById | polymarket_processor.py:269-274 | At most as many rows come out as went in, and each is an input row. |
| Processor.DedupDistinct | polymarket_processor.py:270-274 | The kept rows have pairwise distinct ids. |
| Processor.DedupKeepsIds | polymarket_processor.py:270-274 | An id is kept exactly when some input row carries it. |
| Processor.DedupKeepsLast | polymarket_processor.py:270-274 | The row kept for an id is the last input row with that id. |
| Processor.LastValueIsLast | polymarket_processor.py:271-272 | The last value stored under an id is the last row with that id. |
| Processor.SortByTimestamp | polymarket_processor.py:275 | Sorting is a permutation (the same rows, each as often), and the result has non-decreasing timestamps. |
| Processor.InsertSorted | polymarket_processor.py:275 | Inserting one row into a sorted list keeps it sorted. |
| Processor.SortStable | polymarket_processor.py:275 | The sort is stable: the rows with any one timestamp keep their input order. |
| Processor.MergeFills | polymarket_processor.py:269-275 | The merged list is a permutation of the deduplicated rows, in timestamp order. |

## Left out

- Network access is not modelled. This covers `gql_post`, the `fetch_side` pagination and sleep loop, `fetch_market_metadata`, `fetch_event_metadata` and `get_event_markets`. The last one sorts by `float(volume)`, which would need floating point.
- `app.py` (Flask request handling), the `main()` functions, `argparse`, `process_market` and the printed messages are orchestration around I/O.
- File writes, `os.makedirs`, `os.listdir` and `json.load` are not modelled. A directory is a list of (file name, fills) pairs and an output file is its list of lines.
- The edge-size statistics at the end of the directed writer are left out. They are printing only. Note that `min` of an empty list raises there when no edge is emitted.
- `Directed.TimeRow` writes `float(time)` as the integer's decimal text followed by `.0`. That is Python's text exactly when `|time| <= 2^53` (9007199254740992). Beyond that, `float` first rounds to a nearby double (9007199254740993 prints as `9007199254740992.0`), and from 10^16 on Python uses exponent form. Neither is modelled. Unix times in seconds are far below the bound.
- `Processor.EnsureList` does not model JSON parsing. `json.loads` is the parameter `decode`, and `str()` of a Gamma value is the parameter `render`.
- `Text.Lower` lower-cases ASCII only. Unicode case folding is not modelled. Wallet addresses are hexadecimal.
- `Fills.DayStart` replaces `datetime`. For the non-negative Unix times the data holds, the two agree.
- `Directed.TransactionEdges` requires every maker and taker to be in the id map. This stands in for the `KeyError` that a missing address would raise. `Directed.NodeMappingKnown` proves that the converter's own map always satisfies it.
- `Congress.Write` requires every edge member to be in `all_traders` for the same reason. `Congress.BuildCovered` proves that this holds for every builder's output.
