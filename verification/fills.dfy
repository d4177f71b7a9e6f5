/**
 * A Goldsky `orderFilledEvent` row and the per-fill classification shared by
 * every hypergraph builder: who bought, who sold, which outcome token changed
 * hands, and which UTC day (or time window) the fill belongs to.
 *
 * In an order fill one leg is USDC, written as asset id `"0"`, and the other
 * leg is an outcome token. Whoever gives USDC is buying the outcome token.
 */
module Fills {

  import opened Text
  import Ordering

  const SecondsPerDay: int := 86400

  /** The asset id Polymarket uses for the USDC leg of a fill. */
  const Usdc: string := "0"

  /**
   * One fill. The timestamp is the integer the source obtains with
   * `int(fill['timestamp'])`.
   */
  datatype Fill = Fill(
    id: string,
    timestamp: int,
    maker: string,
    taker: string,
    makerAssetId: string,
    takerAssetId: string)

  /** The side tag of an undirected hyperedge key, `'BUY'` or `'SELL'`. */
  datatype Side = Buy | Sell

  function SideName(s: Side): string {
    match s
    case Buy => "BUY"
    case Sell => "SELL"
  }

  /** Python compares the side tags as strings. */
  predicate SideLt(a: Side, b: Side) {
    Ordering.StrLt(SideName(a), SideName(b))
  }

  /** `'BUY' < 'SELL'`, so the buyers' edge of a group precedes its sellers' edge. */
  lemma {:induction false} BuyBeforeSell()
    ensures SideLt(Buy, Sell) && !SideLt(Sell, Buy)
    ensures forall a: Side :: !SideLt(a, a)
  {
    assert SideName(Buy)[0] == 'B' && SideName(Sell)[0] == 'S';
    Ordering.StrLtIrreflexive(SideName(Buy));
    Ordering.StrLtIrreflexive(SideName(Sell));
  }

  /**
   * Floor division `a // b` as Python computes it. Dafny's own `/` rounds so
   * that the remainder is non-negative, which differs for a negative divisor.
   */
  function FloorDiv(a: int, b: int): (q: int)
    requires b != 0
    ensures b > 0 ==> b * q <= a < b * q + b
    ensures b < 0 ==> b * q + b < a <= b * q
  {
    if b > 0 then a / b else (-a) / (-b)
  }

  /**
   * Start of the UTC day holding Unix time `t`, as `datetime` computes it:
   * midnight of that day, with no leap seconds.
   */
  function DayStart(t: int): (d: int)
    ensures d % SecondsPerDay == 0
    ensures d <= t < d + SecondsPerDay
  {
    t - t % SecondsPerDay
  }

  /** The day start is the only multiple of a day within a day before `t`. */
  lemma {:induction false} DayStartUnique(t: int, d: int)
    requires d % SecondsPerDay == 0
    requires d <= t < d + SecondsPerDay
    ensures DayStart(t) == d
  {
    var e := DayStart(t);
    var k, j := d / SecondsPerDay, e / SecondsPerDay;
    assert d == SecondsPerDay * k;
    assert e == SecondsPerDay * j;
    assert SecondsPerDay * k - SecondsPerDay < SecondsPerDay * j < SecondsPerDay * k + SecondsPerDay;
    assert k - 1 < j < k + 1;
  }

  /** Bucketing a day start again changes nothing. */
  lemma {:induction false} DayStartIdempotent(t: int)
    ensures DayStart(DayStart(t)) == DayStart(t)
  {
    DayStartUnique(DayStart(t), DayStart(t));
  }

  /** Two times share a day bucket exactly when no midnight separates them. */
  lemma {:induction false} SameDay(t: int, u: int)
    ensures DayStart(t) == DayStart(u) <==> DayStart(t) <= u < DayStart(t) + SecondsPerDay
  {
    if DayStart(t) <= u < DayStart(t) + SecondsPerDay {
      DayStartUnique(u, DayStart(t));
    }
  }

  /** `(timestamp // window_seconds) * window_seconds`. */
  function WindowStart(t: int, w: int): (s: int)
    requires w != 0
    ensures w > 0 ==> s % w == 0 && s <= t < s + w
    ensures w < 0 ==> s % w == 0 && s + w < t <= s
  {
    MultipleMod(w, FloorDiv(t, w));
    w * FloorDiv(t, w)
  }

  /** A multiple of `w` leaves no remainder. */
  lemma {:induction false} MultipleMod(w: int, q: int)
    requires w != 0
    ensures (w * q) % w == 0
  {
    var r, d := (w * q) % w, (w * q) / w;
    assert w * q == w * d + r;
    var k := q - d;
    assert w * k == r;
    NonZeroMultiple(w, k);
  }

  lemma {:induction false} NonZeroMultiple(w: int, k: int)
    ensures k > 0 && w > 0 ==> w * k >= w
    ensures k < 0 && w > 0 ==> w * k <= -w
    ensures k > 0 && w < 0 ==> w * k <= w
    ensures k < 0 && w < 0 ==> w * k >= -w
  {
  }

  /** With a window of one day, the window start is the UTC day start. */
  lemma {:induction false} DayIsWindow(t: int)
    ensures WindowStart(t, SecondsPerDay) == DayStart(t)
  {
    DayStartUnique(t, WindowStart(t, SecondsPerDay));
  }

  /** The maker gives USDC, so the maker is buying. */
  predicate MakerBuys(f: Fill) {
    f.makerAssetId == Usdc
  }

  /** The raw (not lower-cased) address of the buyer. */
  function RawBuyer(f: Fill): (a: string)
    ensures a == f.maker || a == f.taker
  {
    if MakerBuys(f) then f.maker else f.taker
  }

  /** The raw (not lower-cased) address of the seller. */
  function RawSeller(f: Fill): (a: string)
    ensures multiset{RawBuyer(f), a} == multiset{f.maker, f.taker}
  {
    if MakerBuys(f) then f.taker else f.maker
  }

  /**
   * The outcome token of a fill: the asset on the leg that is not the
   * buyer's USDC.
   */
  function Outcome(f: Fill): (o: string)
    ensures o == f.makerAssetId || o == f.takerAssetId
    ensures o == Usdc ==> f.makerAssetId == Usdc && f.takerAssetId == Usdc
    ensures f.makerAssetId == Usdc && f.takerAssetId != Usdc ==> o == f.takerAssetId
    ensures f.takerAssetId == Usdc && f.makerAssetId != Usdc ==> o == f.makerAssetId
  {
    if MakerBuys(f) then f.takerAssetId else f.makerAssetId
  }

  /** The dictionary `classify_trade` returns. */
  datatype Trade = Trade(buyer: string, seller: string, outcome: string, dayStart: int)

  /**
   * `classify_trade`: never rejects a fill. When neither leg is `"0"` the
   * taker is taken to be the buyer.
   */
  function Classify(f: Fill): (t: Trade)
    ensures multiset{t.buyer, t.seller} == multiset{Lower(f.maker), Lower(f.taker)}
    ensures t.buyer == Lower(RawBuyer(f)) && t.seller == Lower(RawSeller(f))
    ensures t.outcome == Outcome(f)
    ensures t.dayStart % SecondsPerDay == 0
    ensures t.dayStart <= f.timestamp < t.dayStart + SecondsPerDay
  {
    var maker := Lower(f.maker);
    var taker := Lower(f.taker);
    if f.makerAssetId == Usdc then
      Trade(maker, taker, f.takerAssetId, DayStart(f.timestamp))
    else
      Trade(taker, maker, f.makerAssetId, DayStart(f.timestamp))
  }

  /** The two role rules of `classify_trade`, spelled out. */
  lemma {:induction false} ClassifyRoles(f: Fill)
    ensures f.makerAssetId == "0" ==>
      Classify(f) == Trade(Lower(f.maker), Lower(f.taker), f.takerAssetId, DayStart(f.timestamp))
    ensures f.makerAssetId != "0" ==>
      Classify(f) == Trade(Lower(f.taker), Lower(f.maker), f.makerAssetId, DayStart(f.timestamp))
  {
  }
}
