/**
 * `OrderFlowFeatureExtractor` of cpp/orderflow_features.cpp: a deque of recent aggressor
 * trades, a deque of 1 s buy/sell buckets, a price -> size book per side, and two rolling
 * extremes of the mid price, combined into one feature frame per call of `get_frame`.
 */
module OrderflowFeatures {
  import opened Market
  import opened BookMaps
  import opened SlidingExtreme
  import OrderbookProbe

  /** One retained trade: (ts, volume, side). */
  datatype TradePoint = TradePoint(ts: real, volume: real, side: Side)

  /** One 1 s bucket: the second `floor(ts)` and the buy and sell volume traded in it. */
  datatype AggBucket = AggBucket(sec: int, buy: real, sell: real)

  /** `AggRunDir`: None, Buy or Sell. */
  datatype AggRunDir = NoRun | BuyRun | SellRun

  /** The longest trade window, in seconds. */
  const LongestWindow: real := 10.0
  /** How many seconds of buckets are kept behind the current one. */
  const BucketSpan: int := 5

  /** `static_cast<int>(std::floor(ts))`. */
  function Sec(ts: real): int {
    ts.Floor
  }

  // ---------------------------------------------------------------------------
  // prune_trades

  /** How many trades `while (front().ts < cutoff) pop_front()` removes. */
  function TradesDropped(q: seq<TradePoint>, cutoff: real): (n: nat)
    ensures n <= |q|
    ensures n < |q| ==> q[n].ts >= cutoff
  {
    if q == [] || q[0].ts >= cutoff then 0 else 1 + TradesDropped(q[1..], cutoff)
  }

  /** The trades after the first loop of `prune_trades(ts_now)`. */
  function PrunedTrades(q: seq<TradePoint>, now: real): seq<TradePoint> {
    q[TradesDropped(q, now - LongestWindow)..]
  }

  /** How many buckets `while (front().sec < cutoff_sec) pop_front()` removes. */
  function BucketsDropped(b: seq<AggBucket>, cutoffSec: int): (n: nat)
    ensures n <= |b|
    ensures n < |b| ==> b[n].sec >= cutoffSec
  {
    if b == [] || b[0].sec >= cutoffSec then 0 else 1 + BucketsDropped(b[1..], cutoffSec)
  }

  /** The buckets left once every bucket before `cutoffSec` is popped from the front. */
  function EvictBuckets(b: seq<AggBucket>, cutoffSec: int): seq<AggBucket> {
    b[BucketsDropped(b, cutoffSec)..]
  }

  /** The buckets after the second loop of `prune_trades(ts_now)`. */
  function PrunedBuckets(b: seq<AggBucket>, now: real): seq<AggBucket> {
    EvictBuckets(b, Sec(now) - BucketSpan)
  }

  /** Only trades older than the cutoff are removed, and only from the front. */
  lemma {:induction false} TradesDroppedSpec(q: seq<TradePoint>, cutoff: real)
    ensures forall i :: 0 <= i < TradesDropped(q, cutoff) ==> q[i].ts < cutoff
    decreases |q|
  {
    if q != [] && q[0].ts < cutoff {
      TradesDroppedSpec(q[1..], cutoff);
    }
  }

  /** Only buckets before the cutoff second are removed, and only from the front. */
  lemma {:induction false} BucketsDroppedSpec(b: seq<AggBucket>, cutoffSec: int)
    ensures forall i :: 0 <= i < BucketsDropped(b, cutoffSec) ==> b[i].sec < cutoffSec
    decreases |b|
  {
    if b != [] && b[0].sec < cutoffSec {
      BucketsDroppedSpec(b[1..], cutoffSec);
    }
  }

  predicate TradesSorted(q: seq<TradePoint>) {
    forall i, j :: 0 <= i < j < |q| ==> q[i].ts <= q[j].ts
  }

  /** With trades in time order, no retained trade is older than `ts_now - 10`. */
  lemma PrunedTradesRecent(q: seq<TradePoint>, now: real)
    requires TradesSorted(q)
    ensures forall t :: t in PrunedTrades(q, now) ==> t.ts >= now - LongestWindow
  {
    var n := TradesDropped(q, now - LongestWindow);
    forall t | t in PrunedTrades(q, now)
      ensures t.ts >= now - LongestWindow
    {
      var i :| n <= i < |q| && q[i] == t;
      assert q[n].ts <= q[i].ts;
    }
  }

  // ---------------------------------------------------------------------------
  // Windowed volumes of get_frame

  /** The trade counts toward a window of `horizon` seconds at `now` (`0 <= age <= horizon`). */
  predicate Counts(t: TradePoint, now: real, horizon: real, side: Side) {
    var age := now - t.ts;
    0.0 <= age <= horizon && t.side == side
  }

  /** Volume of the trades of `side` aged between 0 and `horizon` seconds at `now`. */
  function VolWithin(q: seq<TradePoint>, now: real, horizon: real, side: Side): real {
    if q == [] then 0.0
    else VolWithin(q[..|q| - 1], now, horizon, side) + Counted(q[|q| - 1], now, horizon, side)
  }

  /** The volume one trade adds to a window sum. */
  function Counted(t: TradePoint, now: real, horizon: real, side: Side): real {
    if Counts(t, now, horizon, side) then t.volume else 0.0
  }

  predicate NonNegativeVolumes(q: seq<TradePoint>) {
    forall i :: 0 <= i < |q| ==> q[i].volume >= 0.0
  }

  /** The 1 s, 3 s and 10 s sums are nested: a longer window never holds less volume. */
  lemma {:induction false} VolNested(q: seq<TradePoint>, now: real, h1: real, h2: real, side: Side)
    requires NonNegativeVolumes(q) && h1 <= h2
    ensures 0.0 <= VolWithin(q, now, h1, side) <= VolWithin(q, now, h2, side)
    decreases |q|
  {
    if q != [] {
      assert NonNegativeVolumes(q[..|q| - 1]);
      VolNested(q[..|q| - 1], now, h1, h2, side);
    }
  }

  /** Sums over a concatenation add up. */
  lemma {:induction false} VolWithinAppend(a: seq<TradePoint>, b: seq<TradePoint>, now: real, horizon: real, side: Side)
    ensures VolWithin(a + b, now, horizon, side) == VolWithin(a, now, horizon, side) + VolWithin(b, now, horizon, side)
    decreases |b|
  {
    if b != [] {
      assert (a + b)[..|a + b| - 1] == a + b[..|b| - 1];
      var ab := a + b;
      assert ab[..|ab| - 1] == a + b[..|b| - 1];
      assert ab[|ab| - 1] == b[|b| - 1];
      VolWithinAppend(a, b[..|b| - 1], now, horizon, side);
      assert VolWithin(ab, now, horizon, side)
        == VolWithin(a + b[..|b| - 1], now, horizon, side) + Counted(b[|b| - 1], now, horizon, side);
    } else {
      assert a + b == a;
    }
  }

  /** Trades older than the window contribute nothing. */
  lemma {:induction false} VolWithinOld(q: seq<TradePoint>, now: real, horizon: real, side: Side)
    requires forall i :: 0 <= i < |q| ==> now - q[i].ts > horizon
    ensures VolWithin(q, now, horizon, side) == 0.0
    decreases |q|
  {
    if q != [] {
      VolWithinOld(q[..|q| - 1], now, horizon, side);
    }
  }

  /**
   * Pruning at `ts_now - 10` loses nothing from any window of at most 10 s: the sums over the
   * pruned deque are the sums over all trades.
   */
  lemma PruneKeepsVolumes(q: seq<TradePoint>, now: real, horizon: real, side: Side)
    requires horizon <= LongestWindow
    ensures VolWithin(PrunedTrades(q, now), now, horizon, side) == VolWithin(q, now, horizon, side)
  {
    var n := TradesDropped(q, now - LongestWindow);
    TradesDroppedSpec(q, now - LongestWindow);
    assert q == q[..n] + q[n..];
    VolWithinAppend(q[..n], q[n..], now, horizon, side);
    VolWithinOld(q[..n], now, horizon, side);
  }

  /** The trade loop of `get_frame`: the buy and sell volume of the last 1, 3 and 10 seconds. */
  method WindowVolumes(q: seq<TradePoint>, now: real) returns (buy1: real, sell1: real, buy3: real, sell3: real, buy10: real, sell10: real)
    ensures buy1 == VolWithin(q, now, 1.0, Buy) && sell1 == VolWithin(q, now, 1.0, Sell)
    ensures buy3 == VolWithin(q, now, 3.0, Buy) && sell3 == VolWithin(q, now, 3.0, Sell)
    ensures buy10 == VolWithin(q, now, 10.0, Buy) && sell10 == VolWithin(q, now, 10.0, Sell)
  {
    buy1, sell1, buy3, sell3, buy10, sell10 := 0.0, 0.0, 0.0, 0.0, 0.0, 0.0;
    for k := 0 to |q|
      invariant buy1 == VolWithin(q[..k], now, 1.0, Buy) && sell1 == VolWithin(q[..k], now, 1.0, Sell)
      invariant buy3 == VolWithin(q[..k], now, 3.0, Buy) && sell3 == VolWithin(q[..k], now, 3.0, Sell)
      invariant buy10 == VolWithin(q[..k], now, 10.0, Buy) && sell10 == VolWithin(q[..k], now, 10.0, Sell)
    {
      assert q[..k + 1][..k] == q[..k];
      var t := q[k];
      var age := now - t.ts;
      if age < 0.0 {
        continue;
      }
      if age <= 10.0 {
        if t.side == Buy { buy10 := buy10 + t.volume; } else { sell10 := sell10 + t.volume; }
        if age <= 3.0 {
          if t.side == Buy { buy3 := buy3 + t.volume; } else { sell3 := sell3 + t.volume; }
        }
        if age <= 1.0 {
          if t.side == Buy { buy1 := buy1 + t.volume; } else { sell1 := sell1 + t.volume; }
        }
      }
    }
    assert q[..|q|] == q;
  }

  /**
   * The `share` lambda: (buy / total, 1 - buy / total), or (0, 0) when the total is not
   * positive. The two shares add up to 1 whenever there is volume.
   */
  function Share(b: real, s: real): (r: (real, real))
    ensures b + s > 0.0 ==> r.0 + r.1 == 1.0 && r.0 * (b + s) == b
    ensures b + s <= 0.0 ==> r == (0.0, 0.0)
  {
    var tot := b + s;
    if tot <= 0.0 then (0.0, 0.0)
    else
      var buyShare := b / tot;
      (buyShare, 1.0 - buyShare)
  }

  /** With non-negative volumes both shares lie in [0, 1]. */
  lemma ShareBounds(b: real, s: real)
    requires b >= 0.0 && s >= 0.0
    ensures 0.0 <= Share(b, s).0 <= 1.0 && 0.0 <= Share(b, s).1 <= 1.0
  {
    if b + s > 0.0 {
      OrderbookProbe.ShareAtMostOne(b, b + s);
    }
  }

  // ---------------------------------------------------------------------------
  // update_bucket and refresh_agg_run

  /** Add the volume to the buy or the sell side of a bucket. */
  function Bump(bk: AggBucket, volume: real, side: Side): AggBucket {
    if side == Buy then bk.(buy := bk.buy + volume) else bk.(sell := bk.sell + volume)
  }

  /** A bucket for `sec` is opened unless the last bucket already is that second's. */
  predicate Opens(b: seq<AggBucket>, sec: int) {
    b == [] || b[|b| - 1].sec != sec
  }

  /** The buckets after the trade is booked into its second, before the eviction loop. */
  function Booked(b: seq<AggBucket>, sec: int, volume: real, side: Side): (r: seq<AggBucket>)
    ensures r != []
  {
    var grown := if Opens(b, sec) then b + [AggBucket(sec, 0.0, 0.0)] else b;
    grown[..|grown| - 1] + [Bump(grown[|grown| - 1], volume, side)]
  }

  /** `update_bucket(ts, volume, side)`. */
  function BucketUpdate(b: seq<AggBucket>, ts: real, volume: real, side: Side): seq<AggBucket> {
    var sec := Sec(ts);
    EvictBuckets(Booked(b, sec, volume, side), sec - BucketSpan)
  }

  function BuyTotal(b: seq<AggBucket>): real {
    if b == [] then 0.0 else BuyTotal(b[..|b| - 1]) + b[|b| - 1].buy
  }

  function SellTotal(b: seq<AggBucket>): real {
    if b == [] then 0.0 else SellTotal(b[..|b| - 1]) + b[|b| - 1].sell
  }

  /**
   * Booking a trade opens a bucket only for a new second, leaves every other bucket as it
   * was, and adds the volume to exactly one side: the buy total grows by the volume of a buy,
   * the sell total by the volume of a sell.
   */
  lemma BookedSpec(b: seq<AggBucket>, sec: int, volume: real, side: Side)
    ensures var r := Booked(b, sec, volume, side);
      && |r| == (if Opens(b, sec) then |b| + 1 else |b|)
      && r[|r| - 1].sec == sec
      && r[..|r| - 1] == (if Opens(b, sec) then b else b[..|b| - 1])
      && BuyTotal(r) == BuyTotal(b) + (if side == Buy then volume else 0.0)
      && SellTotal(r) == SellTotal(b) + (if side == Sell then volume else 0.0)
  {
    var r := Booked(b, sec, volume, side);
    var grown := if Opens(b, sec) then b + [AggBucket(sec, 0.0, 0.0)] else b;
    assert r[..|r| - 1] == grown[..|grown| - 1];
    if Opens(b, sec) {
      assert grown[..|grown| - 1] == b;
    }
  }

  /** Bucket seconds strictly increase from front to back. */
  predicate SecsIncreasing(b: seq<AggBucket>) {
    forall i, j :: 0 <= i < j < |b| ==> b[i].sec < b[j].sec
  }

  /** Strictly increasing seconds inside [lo, hi] are at most hi - lo + 1 buckets. */
  lemma {:induction false} IncreasingBound(b: seq<AggBucket>, lo: int, hi: int)
    requires SecsIncreasing(b) && lo <= hi + 1
    requires forall i :: 0 <= i < |b| ==> lo <= b[i].sec <= hi
    ensures |b| <= hi - lo + 1
    decreases |b|
  {
    if b != [] {
      IncreasingBound(b[1..], b[0].sec + 1, hi);
    }
  }

  /** Booking a trade no older than the newest bucket keeps the seconds increasing, ending at its own. */
  lemma BookedIncreasing(b: seq<AggBucket>, sec: int, volume: real, side: Side)
    requires SecsIncreasing(b)
    requires b != [] ==> b[|b| - 1].sec <= sec
    ensures var bk := Booked(b, sec, volume, side);
      && SecsIncreasing(bk) && bk[|bk| - 1].sec == sec
      && forall i :: 0 <= i < |bk| ==> bk[i].sec <= sec
  {
    var bk := Booked(b, sec, volume, side);
    BookedSpec(b, sec, volume, side);
    var init := bk[..|bk| - 1];
    assert forall i :: 0 <= i < |init| ==> init[i].sec < sec by {
      forall i | 0 <= i < |init|
        ensures init[i].sec < sec
      {
        if !Opens(b, sec) {
          assert init[i] == b[i] && b[i].sec < b[|b| - 1].sec;
        }
      }
    }
    assert forall i :: 0 <= i < |init| ==> bk[i] == init[i];
  }

  /** Evicting before `cutoff` from increasing buckets that end at `last >= cutoff` leaves a non-empty run inside [cutoff, last]. */
  lemma EvictIncreasing(b: seq<AggBucket>, cutoff: int, last: int)
    requires SecsIncreasing(b) && b != [] && b[|b| - 1].sec == last && cutoff <= last
    requires forall i :: 0 <= i < |b| ==> b[i].sec <= last
    ensures var r := EvictBuckets(b, cutoff);
      && SecsIncreasing(r) && r != [] && r[|r| - 1].sec == last
      && forall i :: 0 <= i < |r| ==> cutoff <= r[i].sec <= last
  {
    var n := BucketsDropped(b, cutoff);
    BucketsDroppedSpec(b, cutoff);
    assert n < |b|;
    var r := b[n..];
    assert forall i :: 0 <= i < |r| ==> r[i] == b[n + i];
    assert forall i :: 0 < i < |r| ==> r[0].sec < r[i].sec;
  }

  /** `BucketUpdateSpec` for the second of the trade. */
  lemma BookAndEvict(b: seq<AggBucket>, sec: int, volume: real, side: Side)
    requires SecsIncreasing(b)
    requires b != [] ==> b[|b| - 1].sec <= sec
    ensures var r := EvictBuckets(Booked(b, sec, volume, side), sec - BucketSpan);
      && SecsIncreasing(r)
      && r != [] && r[|r| - 1].sec == sec
      && (forall i :: 0 <= i < |r| ==> sec - BucketSpan <= r[i].sec <= sec)
      && |r| <= BucketSpan + 1
  {
    var bk := Booked(b, sec, volume, side);
    BookedIncreasing(b, sec, volume, side);
    EvictIncreasing(bk, sec - BucketSpan, sec);
    IncreasingBound(EvictBuckets(bk, sec - BucketSpan), sec - BucketSpan, sec);
  }

  /**
   * A trade no older than the newest bucket keeps the bucket deque ordered by second, makes
   * its second the newest bucket, and leaves only the seconds `sec - 5 .. sec`: at most six
   * buckets.
   */
  lemma BucketUpdateSpec(b: seq<AggBucket>, ts: real, volume: real, side: Side)
    requires SecsIncreasing(b)
    requires b != [] ==> b[|b| - 1].sec <= Sec(ts)
    ensures var r := BucketUpdate(b, ts, volume, side);
      && SecsIncreasing(r)
      && r != [] && r[|r| - 1].sec == Sec(ts)
      && (forall i :: 0 <= i < |r| ==> Sec(ts) - BucketSpan <= r[i].sec <= Sec(ts))
      && |r| <= BucketSpan + 1
  {
    BookAndEvict(b, Sec(ts), volume, side);
  }

  /**
   * `bucket_dir`: Buy when there is volume, net is positive and the buy share is at least
   * 0.7; Sell when net is negative and the share at most 0.3; None otherwise.
   */
  function BucketDir(bk: AggBucket): AggRunDir {
    var net := bk.buy - bk.sell;
    var tot := bk.buy + bk.sell;
    if tot <= 0.0 then NoRun
    else
      var share := bk.buy / tot;
      if net > 0.0 && share >= 0.7 then BuyRun
      else if net < 0.0 && share <= 0.3 then SellRun
      else NoRun
  }

  /** The bucket rule without division: Buy iff buy > sell and buy >= 0.7 of the total, Sell iff buy < sell and buy <= 0.3 of it. */
  lemma BucketDirSpec(bk: AggBucket)
    ensures var tot := bk.buy + bk.sell;
      && (BucketDir(bk) == BuyRun <==> tot > 0.0 && bk.buy > bk.sell && bk.buy >= 0.7 * tot)
      && (BucketDir(bk) == SellRun <==> tot > 0.0 && bk.buy < bk.sell && bk.buy <= 0.3 * tot)
  {
    var tot := bk.buy + bk.sell;
    if tot > 0.0 {
      var share := bk.buy / tot;
      assert share * tot == bk.buy;
      assert (share - 0.7) * tot == bk.buy - 0.7 * tot;
      assert (share - 0.3) * tot == bk.buy - 0.3 * tot;
      SignOfScaled(share - 0.7, tot);
      SignOfScaled(share - 0.3, tot);
    }
  }

  /** Scaling by a positive factor keeps the sign. */
  lemma SignOfScaled(x: real, t: real)
    requires t > 0.0
    ensures x * t >= 0.0 <==> x >= 0.0
    ensures x * t <= 0.0 <==> x <= 0.0
  {
  }

  /**
   * `refresh_agg_run`: the direction of the newest bucket when the three newest buckets all
   * have the same non-None direction and their |net| never falls from oldest to newest.
   */
  function AggRunOf(b: seq<AggBucket>): AggRunDir {
    if |b| < 3 then NoRun
    else
      var b1, b2, b3 := b[|b| - 3], b[|b| - 2], b[|b| - 1];
      var d1, d2, d3 := BucketDir(b1), BucketDir(b2), BucketDir(b3);
      if d1 == NoRun || d2 == NoRun || d3 == NoRun then NoRun
      else if !(d1 == d2 && d2 == d3) then NoRun
      else if OrderbookProbe.Abs(b1.buy - b1.sell) <= OrderbookProbe.Abs(b2.buy - b2.sell) <= OrderbookProbe.Abs(b3.buy - b3.sell) then d3
      else NoRun
  }

  /** A reported run: three buckets with one direction and |net| non-decreasing; None with fewer than three buckets. */
  lemma AggRunSpec(b: seq<AggBucket>)
    ensures |b| < 3 ==> AggRunOf(b) == NoRun
    ensures AggRunOf(b) != NoRun <==>
      && |b| >= 3
      && (var b1, b2, b3 := b[|b| - 3], b[|b| - 2], b[|b| - 1];
          && BucketDir(b1) != NoRun && BucketDir(b1) == BucketDir(b2) == BucketDir(b3)
          && OrderbookProbe.Abs(b1.buy - b1.sell) <= OrderbookProbe.Abs(b2.buy - b2.sell) <= OrderbookProbe.Abs(b3.buy - b3.sell))
    ensures AggRunOf(b) != NoRun ==> AggRunOf(b) == BucketDir(b[|b| - 1])
  {
  }

  /** A Buy run means each of the three newest buckets was bought, not sold: buy > sell and at least 0.7 of the total. */
  lemma BuyRunBuckets(b: seq<AggBucket>)
    requires AggRunOf(b) == BuyRun
    ensures forall i :: |b| - 3 <= i < |b| ==> b[i].buy > b[i].sell && b[i].buy >= 0.7 * (b[i].buy + b[i].sell)
  {
    forall i | |b| - 3 <= i < |b|
      ensures b[i].buy > b[i].sell && b[i].buy >= 0.7 * (b[i].buy + b[i].sell)
    {
      BucketDirSpec(b[i]);
    }
  }

  // ---------------------------------------------------------------------------
  // Mid price

  /** The frame mid: the average of the best prices when both are positive, else the last trade price. */
  function MidPrice(bestBid: real, bestAsk: real, lastPrice: real): (r: real)
    ensures bestBid > 0.0 && bestAsk > 0.0 && bestBid <= bestAsk ==> bestBid <= r <= bestAsk
    ensures !(bestBid > 0.0 && bestAsk > 0.0) ==> r == lastPrice
  {
    if bestBid > 0.0 && bestAsk > 0.0 then 0.5 * (bestBid + bestAsk) else lastPrice
  }

  // ---------------------------------------------------------------------------
  // The frame

  datatype OrderFlowFrame = OrderFlowFrame(
    ts: real,
    mid: real,
    bestBid: real,
    bestAsk: real,
    buyVol1: real, sellVol1: real,
    buyVol3: real, sellVol3: real,
    buyVol10: real, sellVol10: real,
    buyShare1: real, sellShare1: real,
    buyShare3: real, sellShare3: real,
    buyShare10: real, sellShare10: real,
    liq01Bid: real, liq01Ask: real,
    liq03Bid: real, liq03Ask: real,
    liq05Bid: real, liq05Ask: real,
    isNewHigh20: bool, isNewLow20: bool,
    isNewHigh30: bool, isNewLow30: bool,
    aggRunDir: AggRunDir,
    weakSide01: OrderbookProbe.WeakSide)

  /** The depth of one side in a band around a mid, or 0 without a positive mid. */
  ghost function DepthOr0(m: Book, mid: real, band: Band): real {
    if mid > 0.0 then Depth(m, band) else 0.0
  }

  class OrderFlowFeatureExtractor {
    /** `trades_`, oldest first. */
    var trades: seq<TradePoint>
    /** `buckets_`, oldest first. */
    var buckets: seq<AggBucket>
    var lastPrice: real
    var lastTickTs: real
    var bids: Book
    var asks: Book
    var aggRunDir: AggRunDir
    /** `highlow_20s_` and `highlow_30s_`. */
    const highlow20: RollingExtreme
    const highlow30: RollingExtreme

    ghost predicate Valid()
      reads this`bids, this`asks, highlow20, highlow30
    {
      && highlow20 != highlow30
      && highlow20.windowSec == 20.0 && highlow30.windowSec == 30.0
      && highlow20.Valid() && highlow30.Valid()
      && PositiveSizes(bids) && PositiveSizes(asks)
    }

    constructor()
      ensures Valid() && fresh(highlow20) && fresh(highlow30)
      ensures trades == [] && buckets == [] && bids == map[] && asks == map[]
      ensures lastPrice == 0.0 && lastTickTs == 0.0 && aggRunDir == NoRun
      ensures highlow20.ops == [] && highlow30.ops == []
    {
      trades := [];
      buckets := [];
      lastPrice := 0.0;
      lastTickTs := 0.0;
      bids := map[];
      asks := map[];
      aggRunDir := NoRun;
      highlow20 := new RollingExtreme(20.0);
      highlow30 := new RollingExtreme(30.0);
    }

    /** `prune_trades(ts_now)`: trades older than `ts_now - 10`, then buckets before `floor(ts_now) - 5`, from the front. */
    method PruneTrades(tsNow: real)
      modifies this`trades, this`buckets
      ensures trades == PrunedTrades(old(trades), tsNow)
      ensures buckets == PrunedBuckets(old(buckets), tsNow)
    {
      var cutoff := tsNow - 10.0;
      while trades != [] && trades[0].ts < cutoff
        invariant PrunedTrades(trades, tsNow) == PrunedTrades(old(trades), tsNow)
        invariant buckets == old(buckets)
        decreases |trades|
      {
        trades := trades[1..];
      }
      var cutoffSec := Sec(tsNow) - 5;
      EvictBucketsLoop(cutoffSec);
    }

    /** `while (!buckets_.empty() && buckets_.front().sec < cutoff_sec) buckets_.pop_front();` */
    method EvictBucketsLoop(cutoffSec: int)
      modifies this`buckets
      ensures buckets == EvictBuckets(old(buckets), cutoffSec)
    {
      while buckets != [] && buckets[0].sec < cutoffSec
        invariant EvictBuckets(buckets, cutoffSec) == EvictBuckets(old(buckets), cutoffSec)
        decreases |buckets|
      {
        buckets := buckets[1..];
      }
    }

    /** `update_bucket(ts, volume, side)`. */
    method UpdateBucket(ts: real, volume: real, side: Side)
      modifies this`buckets
      ensures buckets == BucketUpdate(old(buckets), ts, volume, side)
    {
      var sec := Sec(ts);
      if buckets == [] || buckets[|buckets| - 1].sec != sec {
        buckets := buckets + [AggBucket(sec, 0.0, 0.0)];
      }
      var bk := buckets[|buckets| - 1];
      if side == Buy {
        bk := bk.(buy := bk.buy + volume);
      } else {
        bk := bk.(sell := bk.sell + volume);
      }
      buckets := buckets[..|buckets| - 1] + [bk];
      assert buckets == Booked(old(buckets), sec, volume, side);
      EvictBucketsLoop(sec - 5);
    }

    /** `refresh_agg_run()`. */
    method RefreshAggRun()
      modifies this`aggRunDir
      ensures aggRunDir == AggRunOf(buckets)
    {
      aggRunDir := NoRun;
      if |buckets| < 3 {
        return;
      }
      var b3 := buckets[|buckets| - 1];
      var b2 := buckets[|buckets| - 2];
      var b1 := buckets[|buckets| - 3];
      var d1, d2, d3 := BucketDir(b1), BucketDir(b2), BucketDir(b3);
      if d1 == NoRun || d2 == NoRun || d3 == NoRun {
        return;
      }
      if !(d1 == d2 && d2 == d3) {
        return;
      }
      var n1 := OrderbookProbe.Abs(b1.buy - b1.sell);
      var n2 := OrderbookProbe.Abs(b2.buy - b2.sell);
      var n3 := OrderbookProbe.Abs(b3.buy - b3.sell);
      if n1 <= n2 && n2 <= n3 {
        aggRunDir := d3;
      }
    }

    /** `best_bid()`: the largest bid price, or 0.0 for an empty side. */
    method BestBid() returns (r: real)
      ensures bids == map[] ==> r == 0.0
      ensures bids != map[] ==> r in bids && forall p :: p in bids ==> p <= r
      ensures r == BestOr0(bids, true)
    {
      if bids == map[] {
        return 0.0;
      }
      r := LargestKey(bids);
    }

    /** `best_ask()`: the smallest ask price, or 0.0 for an empty side. */
    method BestAsk() returns (r: real)
      ensures asks == map[] ==> r == 0.0
      ensures asks != map[] ==> r in asks && forall p :: p in asks ==> r <= p
      ensures r == BestOr0(asks, false)
    {
      if asks == map[] {
        return 0.0;
      }
      r := SmallestKey(asks);
    }

    /**
     * `apply_book_entries`: on a snapshot clear both sides first; then, side by side and entry
     * by entry, a size <= 0 erases the price and any other size sets it.
     */
    method ApplyBookEntries(b: seq<Level>, a: seq<Level>, snapshot: bool)
      requires Valid()
      modifies this`bids, this`asks
      ensures Valid()
      ensures bids == Upsert(if snapshot then map[] else old(bids), b)
      ensures asks == Upsert(if snapshot then map[] else old(asks), a)
    {
      if snapshot {
        bids := map[];
        asks := map[];
      }
      ghost var bids0, asks0 := bids, asks;
      for k := 0 to |b|
        invariant bids == Upsert(bids0, b[..k]) && asks == asks0
      {
        assert b[..k + 1][..k] == b[..k];
        var l := b[k];
        if l.size <= 0.0 {
          bids := bids - {l.price};
        } else {
          bids := bids[l.price := l.size];
        }
      }
      assert b[..|b|] == b;
      for k := 0 to |a|
        invariant asks == Upsert(asks0, a[..k]) && bids == Upsert(bids0, b)
      {
        assert a[..k + 1][..k] == a[..k];
        var l := a[k];
        if l.size <= 0.0 {
          asks := asks - {l.price};
        } else {
          asks := asks[l.price := l.size];
        }
      }
      assert a[..|a|] == a;
      UpsertKeepsPositive(bids0, b);
      UpsertKeepsPositive(asks0, a);
    }

    /** `apply_l2_snapshot`. */
    method ApplySnapshot(b: seq<Level>, a: seq<Level>)
      requires Valid()
      modifies this`bids, this`asks
      ensures Valid() && bids == Upsert(map[], b) && asks == Upsert(map[], a)
    {
      ApplyBookEntries(b, a, true);
    }

    /** `apply_l2_delta`. */
    method ApplyDelta(b: seq<Level>, a: seq<Level>)
      requires Valid()
      modifies this`bids, this`asks
      ensures Valid() && bids == Upsert(old(bids), b) && asks == Upsert(old(asks), a)
    {
      ApplyBookEntries(b, a, false);
    }

    /**
     * `depth_within(mid, pct)`: the bid size at or above mid * (1 - pct) and the ask size
     * strictly below mid * (1 + pct).
     */
    method DepthWithin(mid: real, pct: real) returns (bidDepth: real, askDepth: real)
      ensures bidDepth == Depth(bids, AtLeast(Lower(mid, pct)))
      ensures askDepth == Depth(asks, Below(Upper(mid, pct)))
    {
      bidDepth := SumBand(bids, AtLeast(Lower(mid, pct)));
      askDepth := SumBand(asks, Below(Upper(mid, pct)));
    }

    /** `add_trade(ts, price, volume, side)`. */
    method AddTrade(ts: real, price: real, volume: real, side: Side)
      modifies this`lastPrice, this`lastTickTs, this`trades, this`buckets, this`aggRunDir
      ensures lastPrice == price && lastTickTs == ts
      ensures trades == PrunedTrades(old(trades) + [TradePoint(ts, volume, side)], ts)
      ensures buckets == BucketUpdate(PrunedBuckets(old(buckets), ts), ts, volume, side)
      ensures aggRunDir == AggRunOf(buckets)
    {
      lastPrice := price;
      lastTickTs := ts;
      trades := trades + [TradePoint(ts, volume, side)];
      PruneTrades(ts);
      UpdateBucket(ts, volume, side);
      RefreshAggRun();
    }

    /** The best prices and the mid of the frame. */
    method BookPrices() returns (bestBid: real, bestAsk: real, mid: real)
      ensures bestBid == BestOr0(bids, true) && bestAsk == BestOr0(asks, false)
      ensures mid == MidPrice(bestBid, bestAsk, lastPrice)
    {
      bestBid := BestBid();
      bestAsk := BestAsk();
      mid := MidPrice(bestBid, bestAsk, lastPrice);
    }

    /** The depths of the frame at 0.1 %, 0.3 % and 0.5 %, all 0 without a positive mid. */
    method FrameDepths(mid: real) returns (d01b: real, d01a: real, d03b: real, d03a: real, d05b: real, d05a: real)
      ensures d01b == DepthOr0(bids, mid, AtLeast(Lower(mid, 0.001))) && d01a == DepthOr0(asks, mid, Below(Upper(mid, 0.001)))
      ensures d03b == DepthOr0(bids, mid, AtLeast(Lower(mid, 0.003))) && d03a == DepthOr0(asks, mid, Below(Upper(mid, 0.003)))
      ensures d05b == DepthOr0(bids, mid, AtLeast(Lower(mid, 0.005))) && d05a == DepthOr0(asks, mid, Below(Upper(mid, 0.005)))
    {
      d01b, d01a, d03b, d03a, d05b, d05a := 0.0, 0.0, 0.0, 0.0, 0.0, 0.0;
      if mid > 0.0 {
        d01b, d01a := DepthWithin(mid, 0.001);
        d03b, d03a := DepthWithin(mid, 0.003);
        d05b, d05a := DepthWithin(mid, 0.005);
      }
    }

    /**
     * The high/low block of `get_frame`: add the mid to both rolling extremes; after calls in
     * time order a flag is set exactly when the mid is at least as high (low) as every mid
     * added inside that window.
     */
    method HighLow(tsNow: real, mid: real) returns (high20: bool, low20: bool, high30: bool, low30: bool)
      requires Valid()
      modifies highlow20, highlow30
      ensures Valid()
      ensures highlow20.ops == old(highlow20.ops) + [AddOp(Point(tsNow, mid))]
      ensures highlow30.ops == old(highlow30.ops) + [AddOp(Point(tsNow, mid))]
      ensures TimesOrdered(highlow20.ops) ==>
        (high20 <==> NewHigh(highlow20.ops, tsNow, 20.0, mid)) && (low20 <==> NewLow(highlow20.ops, tsNow, 20.0, mid))
      ensures TimesOrdered(highlow30.ops) ==>
        (high30 <==> NewHigh(highlow30.ops, tsNow, 30.0, mid)) && (low30 <==> NewLow(highlow30.ops, tsNow, 30.0, mid))
    {
      ghost var ops20, ops30 := highlow20.ops, highlow30.ops;
      highlow20.Add(tsNow, mid);
      highlow30.Add(tsNow, mid);
      high20 := !highlow20.Empty() && mid >= highlow20.CurrentMax();
      low20 := !highlow20.Empty() && mid <= highlow20.CurrentMin();
      high30 := !highlow30.Empty() && mid >= highlow30.CurrentMax();
      low30 := !highlow30.Empty() && mid <= highlow30.CurrentMin();
      FlagsMean(ops20, 20.0, Point(tsNow, mid));
      FlagsMean(ops30, 30.0, Point(tsNow, mid));
    }

    /**
     * The trade part of `get_frame`: prune, refresh the run direction and sum the windows; the
     * sums over the pruned trades are the sums over the trades held before pruning.
     */
    method TradeFeatures(now: real) returns (buy1: real, sell1: real, buy3: real, sell3: real, buy10: real, sell10: real)
      modifies this`trades, this`buckets, this`aggRunDir
      ensures trades == PrunedTrades(old(trades), now) && buckets == PrunedBuckets(old(buckets), now)
      ensures aggRunDir == AggRunOf(buckets)
      ensures buy1 == VolWithin(old(trades), now, 1.0, Buy) && sell1 == VolWithin(old(trades), now, 1.0, Sell)
      ensures buy3 == VolWithin(old(trades), now, 3.0, Buy) && sell3 == VolWithin(old(trades), now, 3.0, Sell)
      ensures buy10 == VolWithin(old(trades), now, 10.0, Buy) && sell10 == VolWithin(old(trades), now, 10.0, Sell)
    {
      ghost var all := trades;
      PruneTrades(now);
      RefreshAggRun();
      buy1, sell1, buy3, sell3, buy10, sell10 := WindowVolumes(trades, now);
      PruneKeepsVolumes(all, now, 1.0, Buy);
      PruneKeepsVolumes(all, now, 1.0, Sell);
      PruneKeepsVolumes(all, now, 3.0, Buy);
      PruneKeepsVolumes(all, now, 3.0, Sell);
      PruneKeepsVolumes(all, now, 10.0, Buy);
      PruneKeepsVolumes(all, now, 10.0, Sell);
    }

    /** `get_frame(ts_now)`: one feature frame; a `ts_now <= 0` means the time of the last trade. */
    method GetFrame(tsNow: real) returns (f: OrderFlowFrame)
      requires Valid()
      modifies this`trades, this`buckets, this`aggRunDir, highlow20, highlow30
      ensures Valid()
      ensures f.ts == (if tsNow <= 0.0 then lastTickTs else tsNow)
      ensures trades == PrunedTrades(old(trades), f.ts) && buckets == PrunedBuckets(old(buckets), f.ts)
      ensures f.aggRunDir == aggRunDir == AggRunOf(buckets)
      ensures f.buyVol1 == VolWithin(old(trades), f.ts, 1.0, Buy) && f.sellVol1 == VolWithin(old(trades), f.ts, 1.0, Sell)
      ensures f.buyVol3 == VolWithin(old(trades), f.ts, 3.0, Buy) && f.sellVol3 == VolWithin(old(trades), f.ts, 3.0, Sell)
      ensures f.buyVol10 == VolWithin(old(trades), f.ts, 10.0, Buy) && f.sellVol10 == VolWithin(old(trades), f.ts, 10.0, Sell)
      ensures (f.buyShare1, f.sellShare1) == Share(f.buyVol1, f.sellVol1)
      ensures (f.buyShare3, f.sellShare3) == Share(f.buyVol3, f.sellVol3)
      ensures (f.buyShare10, f.sellShare10) == Share(f.buyVol10, f.sellVol10)
      ensures f.bestBid == BestOr0(bids, true) && f.bestAsk == BestOr0(asks, false)
      ensures f.mid == MidPrice(f.bestBid, f.bestAsk, lastPrice)
      ensures f.liq01Bid == DepthOr0(bids, f.mid, AtLeast(Lower(f.mid, 0.001))) && f.liq01Ask == DepthOr0(asks, f.mid, Below(Upper(f.mid, 0.001)))
      ensures f.liq03Bid == DepthOr0(bids, f.mid, AtLeast(Lower(f.mid, 0.003))) && f.liq03Ask == DepthOr0(asks, f.mid, Below(Upper(f.mid, 0.003)))
      ensures f.liq05Bid == DepthOr0(bids, f.mid, AtLeast(Lower(f.mid, 0.005))) && f.liq05Ask == DepthOr0(asks, f.mid, Below(Upper(f.mid, 0.005)))
      ensures f.weakSide01 == OrderbookProbe.WeakSideOf(f.liq01Bid, f.liq01Ask)
      ensures f.mid > 0.0 ==>
        && highlow20.ops == old(highlow20.ops) + [AddOp(Point(f.ts, f.mid))]
        && highlow30.ops == old(highlow30.ops) + [AddOp(Point(f.ts, f.mid))]
      ensures f.mid > 0.0 && TimesOrdered(highlow20.ops) ==>
        (f.isNewHigh20 <==> NewHigh(highlow20.ops, f.ts, 20.0, f.mid)) && (f.isNewLow20 <==> NewLow(highlow20.ops, f.ts, 20.0, f.mid))
      ensures f.mid > 0.0 && TimesOrdered(highlow30.ops) ==>
        (f.isNewHigh30 <==> NewHigh(highlow30.ops, f.ts, 30.0, f.mid)) && (f.isNewLow30 <==> NewLow(highlow30.ops, f.ts, 30.0, f.mid))
      ensures f.mid <= 0.0 ==>
        && unchanged(highlow20, highlow30)
        && !f.isNewHigh20 && !f.isNewLow20 && !f.isNewHigh30 && !f.isNewLow30
    {
      var now := if tsNow <= 0.0 then lastTickTs else tsNow;
      var buy1, sell1, buy3, sell3, buy10, sell10 := TradeFeatures(now);
      var s1, s3, s10 := Share(buy1, sell1), Share(buy3, sell3), Share(buy10, sell10);
      var bestBid, bestAsk, mid := BookPrices();
      var d01b, d01a, d03b, d03a, d05b, d05a := FrameDepths(mid);
      var weak := OrderbookProbe.WeakSideOf(d01b, d01a);
      var high20, low20, high30, low30 := false, false, false, false;
      if mid > 0.0 {
        high20, low20, high30, low30 := HighLow(now, mid);
      }
      f := OrderFlowFrame(now, mid, bestBid, bestAsk,
        buy1, sell1, buy3, sell3, buy10, sell10,
        s1.0, s1.1, s3.0, s3.1, s10.0, s10.1,
        d01b, d01a, d03b, d03a, d05b, d05a,
        high20, low20, high30, low30,
        aggRunDir, weak);
    }
  }

  /** Every mid added inside the window at `now` is at most `v`. */
  ghost predicate NewHigh(ops: seq<Op>, now: real, w: real, v: real) {
    forall h :: h in Points(ops) && InWindow(h, now, w) ==> h.value <= v
  }

  /** Every mid added inside the window at `now` is at least `v`. */
  ghost predicate NewLow(ops: seq<Op>, now: real, w: real, v: real) {
    forall h :: h in Points(ops) && InWindow(h, now, w) ==> v <= h.value
  }

  /**
   * Right after `add(p)` in time order, the deques are non-empty and the new-high and new-low
   * tests of `get_frame` (`!empty() && v >= current_max()`, `!empty() && v <= current_min()`)
   * hold exactly when `p` is the highest, respectively lowest, value inside the window.
   */
  lemma FlagsMean(ops: seq<Op>, w: real, p: Point)
    requires w >= 0.0
    ensures var ops1 := ops + [AddOp(p)];
      var qa, qi := Run(ops1, Max, w), Run(ops1, Min, w);
      TimesOrdered(ops1) ==>
        && qa != [] && qi != []
        && (p.value >= qa[0].value <==> NewHigh(ops1, p.ts, w, p.value))
        && (p.value <= qi[0].value <==> NewLow(ops1, p.ts, w, p.value))
  {
    if TimesOrdered(ops + [AddOp(p)]) {
      NewExtremeMeans(ops, Max, w, p);
      NewExtremeMeans(ops, Min, w, p);
    }
  }

  /** `best_bid()` (largest key) or `best_ask()` (smallest key), 0.0 for an empty side. */
  ghost function BestOr0(m: Book, largest: bool): real {
    if m == map[] then 0.0 else if largest then MaxKey(m.Keys) else MinKey(m.Keys)
  }
}
