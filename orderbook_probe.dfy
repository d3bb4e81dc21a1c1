/**
 * orderbook_probe.py: the aggressive-flow tracker over sliding windows, the light L2 book,
 * the directional-run rule over the last 1 s samples and the weak-side rule on band depths.
 */
module OrderbookProbe {
  import opened Wrappers
  import opened BookMaps

  // ---------------------------------------------------------------------------
  // Aggressor direction

  /** `1 if side.lower().startswith("b") else -1`. */
  function Direction(side: string): (d: int)
    ensures d == 1 || d == -1
    ensures d == 1 <==> |side| > 0 && (side[0] == 'b' || side[0] == 'B')
  {
    if |side| > 0 && (side[0] == 'b' || side[0] == 'B') then 1 else -1
  }

  lemma DirectionExamples()
    ensures Direction("Buy") == 1 && Direction("buy") == 1 && Direction("B") == 1
    ensures Direction("Sell") == -1 && Direction("") == -1 && Direction("S") == -1
  {
  }

  /** One retained trade: (ts, dir, vol). */
  datatype Trade = Trade(ts: real, dir: int, vol: real)

  // ---------------------------------------------------------------------------
  // Window lists

  predicate StrictlySorted(s: seq<real>) {
    forall i, j :: 0 <= i < j < |s| ==> s[i] < s[j]
  }

  /** Insert `x` into a strictly increasing list, dropping it if already present. */
  function InsertWindow(x: real, s: seq<real>): (r: seq<real>)
    requires StrictlySorted(s)
    ensures StrictlySorted(r)
    ensures forall y :: y in r <==> y in s || y == x
    ensures |r| > 0
  {
    if s == [] then [x]
    else if x < s[0] then [x] + s
    else if x == s[0] then s
    else
      var rest := InsertWindow(x, s[1..]);
      ConsSorted(s[0], rest);
      [s[0]] + rest
  }

  /** A value below every element of a strictly increasing list can go in front of it. */
  lemma ConsSorted(h: real, rest: seq<real>)
    requires StrictlySorted(rest) && forall y :: y in rest ==> h < y
    ensures StrictlySorted([h] + rest)
  {
    var r := [h] + rest;
    forall i, j | 0 <= i < j < |r|
      ensures r[i] < r[j]
    {
      assert r[j] == rest[j - 1] && rest[j - 1] in rest;
      if i > 0 {
        assert r[i] == rest[i - 1];
      }
    }
  }

  /**
   * The window list the tracker keeps: sorted, with each window length once. `sorted(windows)`
   * keeps duplicates, which `summary` then counts twice (see DictSumsDoubleCounts).
   */
  function SortedWindows(ws: seq<real>): (r: seq<real>)
    ensures StrictlySorted(r)
    ensures forall y :: y in r <==> y in ws
    ensures |ws| > 0 ==> |r| > 0
  {
    if ws == [] then []
    else
      var r := InsertWindow(ws[|ws| - 1], SortedWindows(ws[..|ws| - 1]));
      assert forall y :: y in ws <==> y in ws[..|ws| - 1] || y == ws[|ws| - 1];
      r
  }

  // ---------------------------------------------------------------------------
  // Pruning

  /** `while trades and trades[0].ts < cutoff: popleft()`. */
  function DropBefore(s: seq<Trade>, cutoff: real): (r: seq<Trade>)
    ensures |r| <= |s| && r == s[|s| - |r|..]
    ensures r != [] ==> r[0].ts >= cutoff
    decreases |s|
  {
    if s != [] && s[0].ts < cutoff then DropBefore(s[1..], cutoff) else s
  }

  /** Only trades older than the cutoff leave, and only from the front. */
  lemma {:induction false} DropBeforeDropsOld(s: seq<Trade>, cutoff: real)
    ensures forall k :: 0 <= k < |s| - |DropBefore(s, cutoff)| ==> s[k].ts < cutoff
    decreases |s|
  {
    if s != [] && s[0].ts < cutoff {
      DropBeforeDropsOld(s[1..], cutoff);
    }
  }

  predicate TradesOrdered(s: seq<Trade>) {
    forall i, j :: 0 <= i < j < |s| ==> s[i].ts <= s[j].ts
  }

  /** With trades in time order, no retained trade is older than the cutoff. */
  lemma DropBeforeOrdered(s: seq<Trade>, cutoff: real)
    requires TradesOrdered(s)
    ensures forall k :: 0 <= k < |DropBefore(s, cutoff)| ==> DropBefore(s, cutoff)[k].ts >= cutoff
  {
    var r := DropBefore(s, cutoff);
    var off := |s| - |r|;
    forall k | 0 <= k < |r|
      ensures r[k].ts >= cutoff
    {
      assert r[k] == s[off + k] && r[0] == s[off];
      assert s[off].ts <= s[off + k].ts;
    }
  }

  // ---------------------------------------------------------------------------
  // Per-window sums

  /** The buy and sell volume accumulated for one window. */
  datatype Sums = Sums(buy: real, sell: real)

  /** What `summary` reports per window. */
  datatype WindowStats = WindowStats(buy: real, sell: real, total: real, buyShare: real, net: real)

  function Stats(s: Sums): WindowStats {
    var total := s.buy + s.sell;
    WindowStats(s.buy, s.sell, total, if total > 0.0 then s.buy / total else 0.0, s.buy - s.sell)
  }

  /** total = buy + sell, net = buy - sell, and with non-negative volumes the share is in [0, 1]. */
  lemma StatsSpec(s: Sums)
    ensures var w := Stats(s); w.total == w.buy + w.sell && w.net == w.buy - w.sell
    ensures var w := Stats(s); w.total > 0.0 ==> w.buyShare * w.total == w.buy
    ensures var w := Stats(s); w.total <= 0.0 ==> w.buyShare == 0.0
    ensures s.buy >= 0.0 && s.sell >= 0.0 ==> 0.0 <= Stats(s).buyShare <= 1.0
  {
    var total := s.buy + s.sell;
    if total > 0.0 && s.buy >= 0.0 && s.sell >= 0.0 {
      ShareAtMostOne(s.buy, total);
    }
  }

  lemma ShareAtMostOne(b: real, t: real)
    requires 0.0 <= b <= t && t > 0.0
    ensures 0.0 <= b / t <= 1.0
  {
    var q := b / t;
    assert q * t == b;
    assert (q - 1.0) * t == b - t;
  }

  /** Buy volume of the trades at most `w` seconds old at tsNow. */
  function BuyVol(trades: seq<Trade>, tsNow: real, w: real): real {
    if trades == [] then 0.0
    else
      var t := trades[|trades| - 1];
      BuyVol(trades[..|trades| - 1], tsNow, w) + (if t.dir > 0 && tsNow - t.ts <= w then t.vol else 0.0)
  }

  /** Sell volume of those trades (every trade whose direction is not positive). */
  function SellVol(trades: seq<Trade>, tsNow: real, w: real): real {
    if trades == [] then 0.0
    else
      var t := trades[|trades| - 1];
      SellVol(trades[..|trades| - 1], tsNow, w) + (if t.dir <= 0 && tsNow - t.ts <= w then t.vol else 0.0)
  }

  predicate NonNegativeVolumes(trades: seq<Trade>) {
    forall k :: 0 <= k < |trades| ==> trades[k].vol >= 0.0
  }

  /** The windows are nested: a shorter window never holds more buy or sell volume. */
  lemma {:induction false} WindowsNested(trades: seq<Trade>, tsNow: real, w1: real, w2: real)
    requires w1 <= w2 && NonNegativeVolumes(trades)
    ensures BuyVol(trades, tsNow, w1) <= BuyVol(trades, tsNow, w2)
    ensures SellVol(trades, tsNow, w1) <= SellVol(trades, tsNow, w2)
    decreases |trades|
  {
    if trades != [] {
      WindowsNested(trades[..|trades| - 1], tsNow, w1, w2);
    }
  }

  /** The corrected summary: for each window, the stats of its own buy and sell volume. */
  function SummaryOf(trades: seq<Trade>, ws: seq<real>, tsNow: real): map<real, WindowStats> {
    map w | w in ws :: Stats(Sums(BuyVol(trades, tsNow, w), SellVol(trades, tsNow, w)))
  }

  // -- The accumulation loop of `summary` as written

  function Zero(ws: seq<real>): map<real, Sums> {
    map w | w in ws :: Sums(0.0, 0.0)
  }

  function Bump(s: Sums, t: Trade): Sums {
    if t.dir > 0 then Sums(s.buy + t.vol, s.sell) else Sums(s.buy, s.sell + t.vol)
  }

  /** `for w in self.windows: if age <= w: sums[w][...] += vol`, for one trade. */
  function AddTo(sums: map<real, Sums>, t: Trade, ws: seq<real>, tsNow: real): (r: map<real, Sums>)
    ensures r.Keys == sums.Keys
  {
    if ws == [] then sums
    else
      var prev := AddTo(sums, t, ws[..|ws| - 1], tsNow);
      var w := ws[|ws| - 1];
      if tsNow - t.ts <= w && w in prev then prev[w := Bump(prev[w], t)] else prev
  }

  /** The dictionary `sums` after the loop over the trades. */
  function DictSums(trades: seq<Trade>, ws: seq<real>, tsNow: real): (r: map<real, Sums>)
    ensures r.Keys == Zero(ws).Keys
  {
    if trades == [] then Zero(ws)
    else AddTo(DictSums(trades[..|trades| - 1], ws, tsNow), trades[|trades| - 1], ws, tsNow)
  }

  /** With each window listed once, one trade is added to each window it falls in, once. */
  lemma {:induction false} AddToDistinct(sums: map<real, Sums>, t: Trade, ws: seq<real>, tsNow: real)
    requires StrictlySorted(ws)
    requires forall w :: w in ws ==> w in sums
    ensures forall w :: w in sums ==>
      AddTo(sums, t, ws, tsNow)[w] == if w in ws && tsNow - t.ts <= w then Bump(sums[w], t) else sums[w]
    decreases |ws|
  {
    if ws != [] {
      var init := ws[..|ws| - 1];
      assert StrictlySorted(init);
      assert forall w :: w in init ==> w in ws;
      AddToDistinct(sums, t, init, tsNow);
      assert ws[|ws| - 1] !in init;
      assert forall w :: w in ws <==> w in init || w == ws[|ws| - 1];
    }
  }

  /**
   * With each window listed once, the accumulated sums are, for every window, exactly the
   * buy and sell volume of the trades inside it.
   */
  lemma {:induction false} DictSumsDistinct(trades: seq<Trade>, ws: seq<real>, tsNow: real)
    requires StrictlySorted(ws)
    ensures forall w :: w in ws ==> DictSums(trades, ws, tsNow)[w] == Sums(BuyVol(trades, tsNow, w), SellVol(trades, tsNow, w))
    decreases |trades|
  {
    if trades != [] {
      var init := trades[..|trades| - 1];
      DictSumsDistinct(init, ws, tsNow);
      AddToDistinct(DictSums(init, ws, tsNow), trades[|trades| - 1], ws, tsNow);
    }
  }

  /** The per-window report built from the accumulated sums. */
  function StatsOf(sums: map<real, Sums>): map<real, WindowStats> {
    map w | w in sums :: Stats(sums[w])
  }

  /** Turning the accumulated sums into stats gives the corrected summary when windows are distinct. */
  lemma SummaryFromSums(trades: seq<Trade>, ws: seq<real>, tsNow: real)
    requires StrictlySorted(ws)
    ensures var sums := DictSums(trades, ws, tsNow);
      StatsOf(sums) == SummaryOf(trades, ws, tsNow)
  {
    var sums := DictSums(trades, ws, tsNow);
    DictSumsDistinct(trades, ws, tsNow);
    assert forall w :: w in sums <==> w in ws;
  }

  /**
   * As written, a window listed twice gets each trade added twice: windows [1, 1] and one
   * buy of volume 2 at the query time report buy volume 4 where the trades hold 2.
   */
  lemma DictSumsDoubleCounts()
    ensures var trades, ws := [Trade(0.0, 1, 2.0)], [1.0, 1.0];
      && DictSums(trades, ws, 0.0)[1.0].buy == 4.0
      && BuyVol(trades, 0.0, 1.0) == 2.0
  {
    var trades, ws := [Trade(0.0, 1, 2.0)], [1.0, 1.0];
    assert trades[..0] == [];
    assert ws[..1] == [1.0] && ws[..1][..0] == [];
    assert AddTo(Zero(ws), trades[0], ws[..1], 0.0)[1.0] == Sums(2.0, 0.0);
  }

  // ---------------------------------------------------------------------------
  // The tracker

  class AggFlowTracker {
    var windows: seq<real>
    var trades: seq<Trade>

    /** The window list is non-empty, sorted, and holds each window once. */
    ghost predicate Valid()
      reads this
    {
      |windows| > 0 && StrictlySorted(windows)
    }

    /** `windows[-1]`: the longest window. */
    function MaxWindow(): (m: real)
      reads this
      requires Valid()
      ensures forall w :: w in windows ==> w <= m
    {
      windows[|windows| - 1]
    }

    constructor(ws: seq<real>)
      requires |ws| > 0
      ensures Valid() && windows == SortedWindows(ws) && trades == []
    {
      windows := SortedWindows(ws);
      trades := [];
    }

    /** `_prune`: pop from the front while the oldest trade is older than the longest window. */
    method Prune(tsNow: real)
      requires Valid()
      modifies this
      ensures Valid() && windows == old(windows)
      ensures trades == DropBefore(old(trades), tsNow - MaxWindow())
    {
      var cutoff := tsNow - windows[|windows| - 1];
      while trades != [] && trades[0].ts < cutoff
        invariant windows == old(windows)
        invariant DropBefore(trades, cutoff) == DropBefore(old(trades), cutoff)
        decreases |trades|
      {
        trades := trades[1..];
      }
    }

    method AddTrade(ts: real, side: string, vol: real)
      requires Valid()
      modifies this
      ensures Valid() && windows == old(windows)
      ensures trades == DropBefore(old(trades) + [Trade(ts, Direction(side), vol)], ts - MaxWindow())
    {
      var direction := if |side| > 0 && (side[0] == 'b' || side[0] == 'B') then 1 else -1;
      trades := trades + [Trade(ts, direction, vol)];
      Prune(ts);
    }

    /**
     * `summary`: prune, accumulate per-window buy and sell volume over the retained trades,
     * and report total, buy share and net per window.
     */
    method Summary(tsNow: real) returns (out: map<real, WindowStats>)
      requires Valid()
      modifies this
      ensures Valid() && windows == old(windows)
      ensures trades == DropBefore(old(trades), tsNow - MaxWindow())
      ensures out == SummaryOf(trades, windows, tsNow)
    {
      Prune(tsNow);
      var kept, ws := trades, windows;
      var sums := AccumulateSums(kept, ws, tsNow);
      out := StatsOf(sums);
      SummaryFromSums(kept, ws, tsNow);
    }
  }

  /** The loops of `summary` that fill `sums`: every trade, then every window it falls in. */
  method AccumulateSums(trades: seq<Trade>, windows: seq<real>, tsNow: real) returns (sums: map<real, Sums>)
    ensures sums == DictSums(trades, windows, tsNow)
  {
    sums := Zero(windows);
    for k := 0 to |trades|
      invariant sums == DictSums(trades[..k], windows, tsNow)
    {
      assert trades[..k + 1][..k] == trades[..k];
      sums := AddTradeToSums(sums, trades[k], windows, tsNow);
    }
    assert trades[..|trades|] == trades;
  }

  /** The inner loop over the windows for one trade. */
  method AddTradeToSums(base: map<real, Sums>, t: Trade, windows: seq<real>, tsNow: real) returns (sums: map<real, Sums>)
    ensures sums == AddTo(base, t, windows, tsNow)
  {
    sums := base;
    var age := tsNow - t.ts;
    for j := 0 to |windows|
      invariant sums == AddTo(base, t, windows[..j], tsNow)
    {
      var w := windows[j];
      assert windows[..j + 1][..j] == windows[..j];
      if age <= w && w in sums {
        sums := sums[w := Bump(sums[w], t)];
      }
    }
    assert windows[..|windows|] == windows;
  }

  // ---------------------------------------------------------------------------
  // The light L2 book

  class OrderBookL2 {
    var bids: Book
    var asks: Book

    ghost predicate Valid()
      reads this
    {
      PositiveSizes(bids) && PositiveSizes(asks)
    }

    constructor()
      ensures Valid() && bids == map[] && asks == map[]
    {
      bids := map[];
      asks := map[];
    }

    /** Rebuild both sides from the positive entries of a snapshot. */
    method ApplySnapshot(b: seq<Level>, a: seq<Level>)
      modifies this
      ensures Valid() && bids == PositiveLevels(b) && asks == PositiveLevels(a)
    {
      PositiveLevelsSpec(b);
      PositiveLevelsSpec(a);
      bids := PositiveLevels(b);
      asks := PositiveLevels(a);
    }

    /** Apply a delta entry by entry: a size <= 0 removes the price, any other size sets it. */
    method ApplyDelta(b: seq<Level>, a: seq<Level>)
      requires Valid()
      modifies this
      ensures Valid() && bids == Upsert(old(bids), b) && asks == Upsert(old(asks), a)
    {
      for k := 0 to |b|
        invariant bids == Upsert(old(bids), b[..k]) && asks == old(asks)
      {
        assert b[..k + 1][..k] == b[..k];
        var l := b[k];
        if l.size <= 0.0 {
          bids := bids - {l.price};
        } else {
          bids := bids[l.price := l.size];
        }
      }
      assert b[..|b|] == b;
      for k := 0 to |a|
        invariant asks == Upsert(old(asks), a[..k]) && bids == Upsert(old(bids), b)
      {
        assert a[..k + 1][..k] == a[..k];
        var l := a[k];
        if l.size <= 0.0 {
          asks := asks - {l.price};
        } else {
          asks := asks[l.price := l.size];
        }
      }
      assert a[..|a|] == a;
      UpsertKeepsPositive(old(bids), b);
      UpsertKeepsPositive(old(asks), a);
    }
  }

  /** `max(bids)`, or None for an empty side. */
  ghost function BestBid(bids: Book): (r: Option<real>)
    ensures r.None? <==> bids == map[]
    ensures r.Some? ==> r.value in bids && forall p :: p in bids ==> p <= r.value
  {
    if bids == map[] then None else Some(MaxKey(bids.Keys))
  }

  /** `min(asks)`, or None for an empty side. */
  ghost function BestAsk(asks: Book): (r: Option<real>)
    ensures r.None? <==> asks == map[]
    ensures r.Some? ==> r.value in asks && forall p :: p in asks ==> r.value <= p
  {
    if asks == map[] then None else Some(MinKey(asks.Keys))
  }

  /** The midpoint of the best prices; None when either side is empty. */
  ghost function Mid(bids: Book, asks: Book): (r: Option<real>)
    ensures r.None? <==> bids == map[] || asks == map[]
  {
    match (BestBid(bids), BestAsk(asks))
    case (Some(b), Some(a)) => Some(0.5 * (b + a))
    case _ => None
  }

  /**
   * `liquidity_within(pct)`: (0, 0) without a mid, otherwise the bid size at or above
   * mid * (1 - pct) and the ask size at or below mid * (1 + pct).
   */
  ghost function LiquidityWithin(bids: Book, asks: Book, pct: real): (real, real) {
    var m := Mid(bids, asks);
    if m.None? then (0.0, 0.0)
    else (Depth(bids, AtLeast(Lower(m.value, pct))), Depth(asks, AtMost(Upper(m.value, pct))))
  }

  /** Depths are non-negative, and a wider band (around a positive mid) holds at least as much. */
  lemma LiquidityMonotone(bids: Book, asks: Book, pct1: real, pct2: real)
    requires PositiveSizes(bids) && PositiveSizes(asks) && pct1 <= pct2
    requires Mid(bids, asks).Some? ==> Mid(bids, asks).value > 0.0
    ensures LiquidityWithin(bids, asks, pct1).0 >= 0.0 && LiquidityWithin(bids, asks, pct1).1 >= 0.0
    ensures LiquidityWithin(bids, asks, pct1).0 <= LiquidityWithin(bids, asks, pct2).0
    ensures LiquidityWithin(bids, asks, pct1).1 <= LiquidityWithin(bids, asks, pct2).1
  {
    var m := Mid(bids, asks);
    if m.Some? {
      var mid := m.value;
      var lo1, lo2 := Lower(mid, pct1), Lower(mid, pct2);
      var hi1, hi2 := Upper(mid, pct1), Upper(mid, pct2);
      assert lo2 <= lo1 && hi1 <= hi2 by {
        ScaleMonotone(mid, pct1, pct2);
      }
      BandSumNonNegative(bids, bids.Keys, AtLeast(lo1));
      BandSumNonNegative(asks, asks.Keys, AtMost(hi1));
      BandSumMonotone(bids, bids.Keys, AtLeast(lo1), AtLeast(lo2));
      BandSumMonotone(asks, asks.Keys, AtMost(hi1), AtMost(hi2));
    }
  }

  // ---------------------------------------------------------------------------
  // Directional run over the 1 s samples

  /** One recorded 1 s sample. */
  datatype BiasSample = BiasSample(ts: real, dir: int, net: real, share: real)

  /** A reported run: its direction, the latest net and share. */
  datatype RunSignal = RunSignal(dir: int, net: real, share: real)

  function Abs(x: real): real {
    if x < 0.0 then -x else x
  }

  /** Appending to a deque of maxlen 5: at length 5 the oldest sample falls off the front. */
  function Push5(hist: seq<BiasSample>, s: BiasSample): (r: seq<BiasSample>)
    requires |hist| <= 5
    ensures |r| <= 5 && r != [] && r[|r| - 1] == s
    ensures |r| == if |hist| == 5 then 5 else |hist| + 1
    ensures r[..|r| - 1] == if |hist| == 5 then hist[1..] else hist
  {
    if |hist| == 5 then hist[1..] + [s] else hist + [s]
  }

  /**
   * The run rule on the history: the last three samples share one non-zero direction, the
   * magnitude of net never falls from oldest to newest, and the newest share is decisive
   * (>= 0.7 for buying, <= 0.3 for selling).
   */
  function RunOf(hist: seq<BiasSample>): Option<RunSignal> {
    if |hist| < 3 then None
    else
      var a, b, c := hist[|hist| - 3], hist[|hist| - 2], hist[|hist| - 1];
      if !(a.dir != 0 && b.dir == a.dir && c.dir == a.dir) then None
      else
        var strong := if a.dir > 0 then c.share >= 0.7 else c.share <= 0.3;
        if Abs(a.net) <= Abs(b.net) <= Abs(c.net) && strong then Some(RunSignal(a.dir, c.net, c.share))
        else None
  }

  /** A reported run is backed by three same-direction samples of non-decreasing strength. */
  lemma RunOfSpec(hist: seq<BiasSample>)
    ensures var r := RunOf(hist);
      r.Some? <==>
        && |hist| >= 3
        && (var a, b, c := hist[|hist| - 3], hist[|hist| - 2], hist[|hist| - 1];
            && a.dir != 0 && b.dir == a.dir && c.dir == a.dir
            && Abs(a.net) <= Abs(b.net) <= Abs(c.net)
            && (if a.dir > 0 then c.share >= 0.7 else c.share <= 0.3))
    ensures var r := RunOf(hist);
      r.Some? ==> r.value.dir == hist[|hist| - 1].dir && r.value.net == hist[|hist| - 1].net
  {
  }

  /** The 1 s entry of a summary (`agg_stats.get(1.0) or agg_stats.get(1)`). */
  function OneSecond(stats: map<real, WindowStats>): Option<WindowStats> {
    if 1.0 in stats then Some(stats[1.0]) else None
  }

  /** The sample `_detect_run` records, or None when it returns before recording one. */
  function SampleOf(tsNow: real, stats: map<real, WindowStats>): (r: Option<BiasSample>)
    ensures r.Some? ==> r.value.dir == 1 || r.value.dir == -1
    ensures r.Some? <==> 1.0 in stats && stats[1.0].total > 0.0 && stats[1.0].net != 0.0
  {
    match OneSecond(stats)
    case None => None
    case Some(one) =>
      if one.total <= 0.0 then None
      else
        var d := if one.net > 0.0 then 1 else if one.net < 0.0 then -1 else 0;
        if d == 0 then None else Some(BiasSample(tsNow, d, one.net, one.buyShare))
  }

  /** A sample as `_detect_run` records it: direction +1 for positive net, -1 for negative. */
  predicate Recorded(s: BiasSample) {
    (s.dir == 1 && s.net > 0.0) || (s.dir == -1 && s.net < 0.0)
  }

  /** Every sample `_detect_run` records has the direction of its net. */
  lemma SampleOfRecorded(tsNow: real, stats: map<real, WindowStats>)
    requires SampleOf(tsNow, stats).Some?
    ensures Recorded(SampleOf(tsNow, stats).value)
    ensures SampleOf(tsNow, stats).value.net == stats[1.0].net && SampleOf(tsNow, stats).value.share == stats[1.0].buyShare
  {
  }

  /**
   * What a reported run means for the samples behind it: a BUY run is three samples of
   * positive net with the newest buy share at least 0.7, a SELL run three of negative net with
   * the newest share at most 0.3, and the reported net is the newest sample's.
   */
  lemma RunOfRecorded(hist: seq<BiasSample>)
    requires forall k :: 0 <= k < |hist| ==> Recorded(hist[k])
    requires RunOf(hist).Some?
    ensures |hist| >= 3
    ensures var r := RunOf(hist).value;
      r.dir == 1 ==> r.net > 0.0 && r.share >= 0.7 && forall k :: |hist| - 3 <= k < |hist| ==> hist[k].net > 0.0
    ensures var r := RunOf(hist).value;
      r.dir == -1 ==> r.net < 0.0 && r.share <= 0.3 && forall k :: |hist| - 3 <= k < |hist| ==> hist[k].net < 0.0
    ensures RunOf(hist).value.dir == 1 || RunOf(hist).value.dir == -1
  {
    RunOfSpec(hist);
    var a, b, c := hist[|hist| - 3], hist[|hist| - 2], hist[|hist| - 1];
    assert Recorded(a) && Recorded(b) && Recorded(c);
    forall k | |hist| - 3 <= k < |hist|
      ensures hist[k].dir == a.dir && Recorded(hist[k])
    {
    }
  }

  class RunDetector {
    /** `bias_hist`, a deque of at most 5 samples. */
    var biasHist: seq<BiasSample>

    /** At most five samples, each recorded with the direction of its net. */
    ghost predicate Valid()
      reads this
    {
      |biasHist| <= 5 && forall k :: 0 <= k < |biasHist| ==> Recorded(biasHist[k])
    }

    constructor()
      ensures Valid() && biasHist == []
    {
      biasHist := [];
    }

    /**
     * `_detect_run`: record the 1 s sample when there is one with positive total and non-zero
     * net, then apply the run rule to the history.
     */
    method DetectRun(tsNow: real, stats: map<real, WindowStats>) returns (r: Option<RunSignal>)
      requires Valid()
      modifies this
      ensures Valid()
      ensures SampleOf(tsNow, stats).None? ==> biasHist == old(biasHist) && r.None?
      ensures SampleOf(tsNow, stats).Some? ==>
        biasHist == Push5(old(biasHist), SampleOf(tsNow, stats).value) && r == RunOf(biasHist)
    {
      if 1.0 !in stats {
        return None;
      }
      var one := stats[1.0];
      var net := one.net;
      var total := one.total;
      if total <= 0.0 {
        return None;
      }
      var direction := if net > 0.0 then 1 else if net < 0.0 then -1 else 0;
      if direction == 0 {
        return None;
      }
      var sample := BiasSample(tsNow, direction, net, one.buyShare);
      if |biasHist| == 5 {
        biasHist := biasHist[1..];
      }
      biasHist := biasHist + [sample];
      r := ApplyRunRule(biasHist);
    }
  }

  /** The run test at the end of `_detect_run`, on the updated history. */
  method ApplyRunRule(hist: seq<BiasSample>) returns (r: Option<RunSignal>)
    ensures r == RunOf(hist)
  {
    if |hist| < 3 {
      return None;
    }
    var a, b, c := hist[|hist| - 3], hist[|hist| - 2], hist[|hist| - 1];
    if !(a.dir != 0 && b.dir == a.dir && c.dir == a.dir) {
      return None;
    }
    var lastShare := c.share;
    var strongShare := if a.dir > 0 then lastShare >= 0.7 else lastShare <= 0.3;
    if Abs(a.net) <= Abs(b.net) <= Abs(c.net) && strongShare {
      return Some(RunSignal(a.dir, c.net, c.share));
    }
    return None;
  }

  /** The history only ever holds the last five recorded samples, newest last. */
  lemma Push5KeepsLatest(hist: seq<BiasSample>, s: BiasSample)
    requires |hist| <= 5
    ensures forall k :: 0 <= k < |Push5(hist, s)| - 1 ==> Push5(hist, s)[k] in hist
  {
  }

  // ---------------------------------------------------------------------------
  // Weak side

  /** The thinner side of the book at one band, if it is thinner than 0.4 times the other. */
  datatype WeakSide = NoWeakSide | WeakBid | WeakAsk
  {
    /** The same verdict with the two sides of the book exchanged. */
    function Mirror(): WeakSide {
      match this
      case NoWeakSide => NoWeakSide
      case WeakBid => WeakAsk
      case WeakAsk => WeakBid
    }
  }

  /** `if bid > 0 and ask > 0: if bid < 0.4 ask: "bid" elif ask < 0.4 bid: "ask"`. */
  function WeakSideOf(bidDepth: real, askDepth: real): WeakSide {
    if bidDepth > 0.0 && askDepth > 0.0 then
      if bidDepth < 0.4 * askDepth then WeakBid
      else if askDepth < 0.4 * bidDepth then WeakAsk
      else NoWeakSide
    else NoWeakSide
  }

  /**
   * The two weak-side conditions exclude each other, so the order of the tests does not
   * matter: the bid side is weak exactly when it is below 0.4 of the ask side, and the ask
   * side exactly when it is below 0.4 of the bid side.
   */
  lemma WeakSideSpec(bidDepth: real, askDepth: real)
    ensures WeakSideOf(bidDepth, askDepth) == WeakBid <==>
      bidDepth > 0.0 && askDepth > 0.0 && bidDepth < 0.4 * askDepth
    ensures WeakSideOf(bidDepth, askDepth) == WeakAsk <==>
      bidDepth > 0.0 && askDepth > 0.0 && askDepth < 0.4 * bidDepth
    ensures WeakSideOf(bidDepth, askDepth) == WeakSideOf(askDepth, bidDepth).Mirror()
  {
    if bidDepth > 0.0 && askDepth > 0.0 && askDepth < 0.4 * bidDepth {
      assert !(bidDepth < 0.4 * askDepth);
    }
  }
}
