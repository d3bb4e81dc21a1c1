/**
 * The streaming `SweepModel` of cpp/sweep_model.cpp: one deque of the ticks of the last
 * `long_win` seconds with running buy/sell totals, short-window accumulators that are only
 * added to on push and subtracted from on eviction, and a short/long volume ratio test.
 */
module StreamingSweep {
  import opened Market

  /** `SweepSignal`: NoSignal, UpSweep or DownSweep. */
  datatype SweepSignal = NoSignal | UpSweep | DownSweep

  /** The volume a tick adds to the running total of `side` (the C++ `else` branch is Sell). */
  function VolOn(t: Tick, side: Side): real {
    if t.side == side then t.vol else 0.0
  }

  /** Summed volume of the ticks of one side. */
  function SideVol(s: seq<Tick>, side: Side): real {
    if s == [] then 0.0 else SideVol(s[..|s| - 1], side) + VolOn(s[|s| - 1], side)
  }

  predicate NonNegativeVolumes(s: seq<Tick>) {
    forall i :: 0 <= i < |s| ==> s[i].vol >= 0.0
  }

  /** Side sums over a concatenation add up. */
  lemma {:induction false} SideVolAppend(a: seq<Tick>, b: seq<Tick>, side: Side)
    ensures SideVol(a + b, side) == SideVol(a, side) + SideVol(b, side)
    decreases |b|
  {
    if b == [] {
      assert a + b == a;
    } else {
      var ab := a + b;
      assert ab[..|ab| - 1] == a + b[..|b| - 1];
      assert ab[|ab| - 1] == b[|b| - 1];
      SideVolAppend(a, b[..|b| - 1], side);
    }
  }

  /** With non-negative volumes a side sum is non-negative. */
  lemma {:induction false} SideVolNonNegative(s: seq<Tick>, side: Side)
    requires NonNegativeVolumes(s)
    ensures SideVol(s, side) >= 0.0
    decreases |s|
  {
    if s != [] {
      SideVolNonNegative(s[..|s| - 1], side);
    }
  }

  /** With non-negative volumes a suffix never sums to more than the whole sequence. */
  lemma SuffixVolAtMost(s: seq<Tick>, k: nat, side: Side)
    requires NonNegativeVolumes(s) && k <= |s|
    ensures SideVol(s[k..], side) <= SideVol(s, side)
  {
    assert s == s[..k] + s[k..];
    SideVolAppend(s[..k], s[k..], side);
    assert NonNegativeVolumes(s[..k]);
    SideVolNonNegative(s[..k], side);
  }

  // ---------------------------------------------------------------------------
  // evict_old

  /** How many ticks the first loop of `evict_old` pops: while the front is older than `long_win`. */
  function Expired(w: seq<Tick>, now: real, longWin: real): (n: nat)
    ensures n <= |w|
    ensures n < |w| ==> now - w[n].ts <= longWin
  {
    if w == [] || now - w[0].ts <= longWin then 0 else 1 + Expired(w[1..], now, longWin)
  }

  /** Every popped tick was older than `long_win`; the pops come from the front only. */
  lemma {:induction false} ExpiredSpec(w: seq<Tick>, now: real, longWin: real)
    ensures forall i :: 0 <= i < Expired(w, now, longWin) ==> now - w[i].ts > longWin
    decreases |w|
  {
    if w != [] && now - w[0].ts > longWin {
      ExpiredSpec(w[1..], now, longWin);
    }
  }

  /** The deque after `evict_old(now)`. */
  function Evicted(w: seq<Tick>, now: real, longWin: real): seq<Tick> {
    w[Expired(w, now, longWin)..]
  }

  /** With ticks in time order, no tick older than `long_win` survives the eviction. */
  lemma EvictedRecent(w: seq<Tick>, now: real, longWin: real)
    requires TimeOrdered(w)
    ensures forall i :: 0 <= i < |Evicted(w, now, longWin)| ==> now - Evicted(w, now, longWin)[i].ts <= longWin
  {
    var n := Expired(w, now, longWin);
    var r := Evicted(w, now, longWin);
    forall i | 0 <= i < |r|
      ensures now - r[i].ts <= longWin
    {
      assert r[i] == w[n + i];
      OrderedMono(w, n, n + i);
    }
  }

  /** The volume of `side` that eviction also takes off the short accumulator: popped ticks aged at most `short_win`. */
  function ShortDrop(s: seq<Tick>, now: real, shortWin: real, side: Side): real {
    if s == [] then 0.0 else ShortDrop(s[..|s| - 1], now, shortWin, side) + ShortTerm(s[|s| - 1], now, shortWin, side)
  }

  /** What popping one tick takes off the short total of `side`. */
  function ShortTerm(t: Tick, now: real, shortWin: real, side: Side): real {
    if now - t.ts <= shortWin then VolOn(t, side) else 0.0
  }

  /** Dropping the oldest tick takes its own volume off the side sum. */
  lemma SideVolFront(w: seq<Tick>, side: Side)
    requires w != []
    ensures SideVol(w, side) == VolOn(w[0], side) + SideVol(w[1..], side)
  {
    assert w == [w[0]] + w[1..];
    SideVolAppend([w[0]], w[1..], side);
    assert [w[0]][..0] == [];
  }

  /**
   * When `short_win <= long_win` no popped tick is young enough for the short accumulators:
   * eviction never lowers them.
   */
  lemma {:induction false} ShortDropZero(s: seq<Tick>, now: real, shortWin: real, longWin: real, side: Side)
    requires shortWin <= longWin
    requires forall i :: 0 <= i < |s| ==> now - s[i].ts > longWin
    ensures ShortDrop(s, now, shortWin, side) == 0.0
    decreases |s|
  {
    if s != [] {
      ShortDropZero(s[..|s| - 1], now, shortWin, longWin, side);
    }
  }

  // ---------------------------------------------------------------------------
  // The decision of process_tick

  /** `short_total / (long_total / (long_win / short_win)) >= threshold_ratio`. */
  predicate RatioPasses(shortTotal: real, longTotal: real, shortWin: real, longWin: real, threshold: real)
    requires longTotal != 0.0 && shortWin != 0.0 && longWin != 0.0
  {
    shortTotal / (longTotal / (longWin / shortWin)) >= threshold
  }

  /** The signal `process_tick` returns for the four running totals. */
  function Classify(shortBuy: real, shortSell: real, longBuy: real, longSell: real,
                    shortWin: real, longWin: real, threshold: real): SweepSignal
    requires shortWin > 0.0 && longWin > 0.0
  {
    var shortTotal := shortBuy + shortSell;
    var longTotal := longBuy + longSell;
    if longTotal <= 0.0 then NoSignal
    else if RatioPasses(shortTotal, longTotal, shortWin, longWin, threshold) then
      if shortBuy > shortSell * 1.5 then UpSweep
      else if shortSell > shortBuy * 1.5 then DownSweep
      else NoSignal
    else NoSignal
  }

  /** The ratio test without division: short_total * long_win >= threshold * long_total * short_win. */
  lemma RatioPassesSpec(shortTotal: real, longTotal: real, shortWin: real, longWin: real, threshold: real)
    requires longTotal > 0.0 && shortWin > 0.0 && longWin > 0.0
    ensures RatioPasses(shortTotal, longTotal, shortWin, longWin, threshold) <==>
      shortTotal * longWin >= threshold * longTotal * shortWin
  {
    var q := longWin / shortWin;
    assert q * shortWin == longWin;
    var avg := longTotal / q;
    assert avg * q == longTotal;
    assert avg > 0.0;
    var ratio := shortTotal / avg;
    assert ratio * avg == shortTotal;
    // ratio >= threshold  <==>  shortTotal >= threshold * avg
    assert (ratio - threshold) * avg == shortTotal - threshold * avg;
    PositiveScale(ratio - threshold, avg);
    // shortTotal >= threshold * avg  <==>  shortTotal * longWin >= threshold * longTotal * shortWin
    assert (shortTotal - threshold * avg) * (q * shortWin) == shortTotal * longWin - threshold * longTotal * shortWin;
    PositiveScale(shortTotal - threshold * avg, q * shortWin);
  }

  /** Scaling by a positive factor keeps the sign. */
  lemma PositiveScale(x: real, t: real)
    requires t > 0.0
    ensures x * t >= 0.0 <==> x >= 0.0
  {
  }

  /**
   * The decision: NoSignal without long volume; a signal only when the ratio passes; Up when
   * the short buy volume exceeds 1.5 times the short sell volume, checked first, else Down when
   * the sell volume exceeds 1.5 times the buy volume. With non-negative short volumes the two
   * imbalance tests exclude each other, so the order of the tests does not matter.
   */
  lemma ClassifySpec(shortBuy: real, shortSell: real, longBuy: real, longSell: real,
                     shortWin: real, longWin: real, threshold: real)
    requires shortWin > 0.0 && longWin > 0.0
    ensures var r := Classify(shortBuy, shortSell, longBuy, longSell, shortWin, longWin, threshold);
      var passes := longBuy + longSell > 0.0 &&
        (shortBuy + shortSell) * longWin >= threshold * (longBuy + longSell) * shortWin;
      && (longBuy + longSell <= 0.0 ==> r == NoSignal)
      && (r == UpSweep <==> passes && shortBuy > shortSell * 1.5)
      && (r == DownSweep <==> passes && !(shortBuy > shortSell * 1.5) && shortSell > shortBuy * 1.5)
      && (shortBuy >= 0.0 && shortSell >= 0.0 ==>
            (r == DownSweep <==> passes && shortSell > shortBuy * 1.5))
  {
    if longBuy + longSell > 0.0 {
      RatioPassesSpec(shortBuy + shortSell, longBuy + longSell, shortWin, longWin, threshold);
    }
  }

  /**
   * Once the short totals are at least the long totals (as they are when `short_win <=
   * long_win`), the ratio test passes whenever `long_win >= threshold * short_win`: with the
   * defaults 0.3 s, 10 s and 3.0 every tick with long volume passes it.
   */
  lemma RatioAlwaysPasses(shortTotal: real, longTotal: real, shortWin: real, longWin: real, threshold: real)
    requires longTotal > 0.0 && shortWin > 0.0 && longWin > 0.0
    requires shortTotal >= longTotal && longWin >= threshold * shortWin
    ensures RatioPasses(shortTotal, longTotal, shortWin, longWin, threshold)
  {
    RatioPassesSpec(shortTotal, longTotal, shortWin, longWin, threshold);
    assert (shortTotal - longTotal) * longWin >= 0.0;
    assert longTotal * (longWin - threshold * shortWin) >= 0.0;
  }

  class SweepModel {
    const shortWin: real
    const longWin: real
    const thresholdRatio: real
    /** `window_`, oldest first. */
    var window: seq<Tick>
    var shortBuy: real
    var shortSell: real
    var longBuy: real
    var longSell: real
    /** Every tick processed so far, oldest first. */
    ghost var seen: seq<Tick>

    /**
     * The long totals are the side sums of the deque, the deque is the newest part of the
     * processed ticks, and with `short_win <= long_win` the short totals are the side sums
     * of every tick processed.
     */
    ghost predicate Valid()
      reads this
    {
      && shortWin > 0.0 && longWin > 0.0
      && LongTotals()
      && Consistent(shortWin, longWin, window, seen, shortBuy, shortSell)
    }

    constructor(shortWin: real, longWin: real, thresholdRatio: real)
      requires shortWin > 0.0 && longWin > 0.0
      ensures Valid() && window == [] && seen == []
      ensures this.shortWin == shortWin && this.longWin == longWin && this.thresholdRatio == thresholdRatio
      ensures shortBuy == 0.0 && shortSell == 0.0 && longBuy == 0.0 && longSell == 0.0
    {
      this.shortWin := shortWin;
      this.longWin := longWin;
      this.thresholdRatio := thresholdRatio;
      window := [];
      shortBuy := 0.0;
      shortSell := 0.0;
      longBuy := 0.0;
      longSell := 0.0;
      seen := [];
    }

    /** The long totals are the side sums of the deque. */
    ghost predicate LongTotals()
      reads this`window, this`longBuy, this`longSell
    {
      longBuy == SideVol(window, Buy) && longSell == SideVol(window, Sell)
    }

    /** One iteration of the first loop of `evict_old`: pop the oldest tick and take its volume off. */
    method PopOldest(now: real)
      requires window != [] && LongTotals()
      modifies this`window, this`shortBuy, this`shortSell, this`longBuy, this`longSell
      ensures window == old(window)[1..] && LongTotals()
      ensures shortBuy == old(shortBuy) - ShortTerm(old(window)[0], now, shortWin, Buy)
      ensures shortSell == old(shortSell) - ShortTerm(old(window)[0], now, shortWin, Sell)
    {
      var t := window[0];
      var vol := t.vol;
      if t.side == Buy {
        longBuy := longBuy - vol;
        if now - t.ts <= shortWin {
          shortBuy := shortBuy - vol;
        }
      } else {
        longSell := longSell - vol;
        if now - t.ts <= shortWin {
          shortSell := shortSell - vol;
        }
      }
      SideVolFront(window, Buy);
      SideVolFront(window, Sell);
      window := window[1..];
    }

    /**
     * `evict_old(now)`: pop from the front every tick older than `long_win`, taking its
     * volume off the long total of its side and, when it is aged at most `short_win`, off the
     * short total too. The second scan of the front only reads the deque.
     */
    method EvictOld(now: real)
      requires LongTotals()
      modifies this`window, this`shortBuy, this`shortSell, this`longBuy, this`longSell
      ensures window == Evicted(old(window), now, longWin) && LongTotals()
      ensures var popped := old(window)[..Expired(old(window), now, longWin)];
        && shortBuy == old(shortBuy) - ShortDrop(popped, now, shortWin, Buy)
        && shortSell == old(shortSell) - ShortDrop(popped, now, shortWin, Sell)
    {
      ghost var w0 := window;
      ghost var n := Expired(w0, now, longWin);
      ExpiredSpec(w0, now, longWin);
      ghost var k := 0;
      while window != [] && now - window[0].ts > longWin
        invariant k <= n && window == w0[k..] && LongTotals()
        invariant shortBuy == old(shortBuy) - ShortDrop(w0[..k], now, shortWin, Buy)
        invariant shortSell == old(shortSell) - ShortDrop(w0[..k], now, shortWin, Sell)
        decreases |window|
      {
        PopOldest(now);
        assert w0[..k + 1][..k] == w0[..k];
        k := k + 1;
      }
      // The second pass walks the front while it is older than `short_win` and changes nothing.
      var i := 0;
      while i < |window|
        invariant 0 <= i <= |window|
        decreases |window| - i
      {
        var age := now - window[i].ts;
        if age <= shortWin {
          break;
        }
        i := i + 1;
      }
    }

    /** The push of `process_tick`: append the tick and add its volume to both totals of its side. */
    method PushTick(t: Tick)
      requires LongTotals()
      modifies this`window, this`shortBuy, this`shortSell, this`longBuy, this`longSell
      ensures window == old(window) + [t] && LongTotals()
      ensures shortBuy == old(shortBuy) + VolOn(t, Buy) && shortSell == old(shortSell) + VolOn(t, Sell)
    {
      window := window + [t];
      assert window[..|window| - 1] == old(window);
      var vol := t.vol;
      if t.side == Buy {
        shortBuy := shortBuy + vol;
        longBuy := longBuy + vol;
      } else {
        shortSell := shortSell + vol;
        longSell := longSell + vol;
      }
    }

    /** The decision of `process_tick` on the current totals; changes nothing. */
    method Decide() returns (sig: SweepSignal)
      requires shortWin > 0.0 && longWin > 0.0
      ensures sig == Classify(shortBuy, shortSell, longBuy, longSell, shortWin, longWin, thresholdRatio)
    {
      var shortTotal := shortBuy + shortSell;
      var longTotal := longBuy + longSell;
      if longTotal <= 0.0 {
        return NoSignal;
      }
      var ratio := shortTotal / (longTotal / (longWin / shortWin));
      sig := NoSignal;
      if ratio >= thresholdRatio {
        if shortBuy > shortSell * 1.5 {
          sig := UpSweep;
        } else if shortSell > shortBuy * 1.5 {
          sig := DownSweep;
        }
      }
    }

    /** The state change of `process_tick(t)`: evict at `t.timestamp`, then push `t`. */
    method EvictAndPush(t: Tick)
      requires LongTotals()
      modifies this`window, this`shortBuy, this`shortSell, this`longBuy, this`longSell
      ensures window == Evicted(old(window), t.ts, longWin) + [t] && LongTotals()
      ensures var popped := old(window)[..Expired(old(window), t.ts, longWin)];
        && shortBuy == old(shortBuy) - ShortDrop(popped, t.ts, shortWin, Buy) + VolOn(t, Buy)
        && shortSell == old(shortSell) - ShortDrop(popped, t.ts, shortWin, Sell) + VolOn(t, Sell)
    {
      EvictOld(t.ts);
      PushTick(t);
    }

    /**
     * `process_tick(t)`: evict at `t.timestamp`, push `t` and add its volume to the short and
     * long totals of its side, then classify. With `short_win <= long_win` the short totals
     * only ever grow by the new volume, and the ratio test passes whenever there is long
     * volume and `long_win >= threshold * short_win`.
     */
    method ProcessTick(t: Tick) returns (sig: SweepSignal)
      requires Valid()
      modifies this`window, this`shortBuy, this`shortSell, this`longBuy, this`longSell, this`seen
      ensures Valid() && seen == old(seen) + [t]
      ensures window == Evicted(old(window), t.ts, longWin) + [t]
      ensures var popped := old(window)[..Expired(old(window), t.ts, longWin)];
        && shortBuy == old(shortBuy) - ShortDrop(popped, t.ts, shortWin, Buy) + VolOn(t, Buy)
        && shortSell == old(shortSell) - ShortDrop(popped, t.ts, shortWin, Sell) + VolOn(t, Sell)
      ensures shortWin <= longWin ==>
        shortBuy == old(shortBuy) + VolOn(t, Buy) && shortSell == old(shortSell) + VolOn(t, Sell)
      ensures sig == Classify(shortBuy, shortSell, longBuy, longSell, shortWin, longWin, thresholdRatio)
      ensures (shortWin <= longWin && longWin >= thresholdRatio * shortWin && NonNegativeVolumes(seen)
        && longBuy + longSell > 0.0) ==> RatioPasses(shortBuy + shortSell, longBuy + longSell, shortWin, longWin, thresholdRatio)
    {
      ghost var w0, sb0, ss0 := window, shortBuy, shortSell;
      ghost var n := Expired(w0, t.ts, longWin);
      EvictAndPush(t);
      ConsistentStep(shortWin, longWin, w0, seen, sb0, ss0, t, window, shortBuy, shortSell);
      seen := seen + [t];
      sig := Decide();
      RatioTestPasses();
    }

    /**
     * As written, with `short_win <= long_win`, non-negative volumes and `long_win >= threshold
     * * short_win`, the ratio test passes on every state with long volume.
     */
    lemma RatioTestPasses()
      requires Valid()
      ensures (shortWin <= longWin && longWin >= thresholdRatio * shortWin && NonNegativeVolumes(seen)
        && longBuy + longSell > 0.0) ==> RatioPasses(shortBuy + shortSell, longBuy + longSell, shortWin, longWin, thresholdRatio)
    {
      ShortCoversLong();
      if shortWin <= longWin && longWin >= thresholdRatio * shortWin && NonNegativeVolumes(seen) && longBuy + longSell > 0.0 {
        RatioAlwaysPasses(shortBuy + shortSell, longBuy + longSell, shortWin, longWin, thresholdRatio);
      }
    }

    /** With `short_win <= long_win` and non-negative volumes the short totals cover the long ones. */
    lemma ShortCoversLong()
      requires Valid()
      ensures shortWin <= longWin && NonNegativeVolumes(seen) ==>
        shortBuy >= longBuy && shortSell >= longSell
    {
      if shortWin <= longWin && NonNegativeVolumes(seen) {
        assert window == seen[|seen| - |window|..];
        SuffixVolAtMost(seen, |seen| - |window|, Buy);
        SuffixVolAtMost(seen, |seen| - |window|, Sell);
      }
    }
  }

  /**
   * The deque is the newest part of the processed ticks and, with `short_win <= long_win`,
   * the short totals are the side sums of every tick processed.
   */
  ghost predicate Consistent(shortWin: real, longWin: real, window: seq<Tick>, seen: seq<Tick>, shortBuy: real, shortSell: real) {
    && |window| <= |seen| && window == seen[|seen| - |window|..]
    && (shortWin <= longWin ==> shortBuy == SideVol(seen, Buy) && shortSell == SideVol(seen, Sell))
  }

  /** `process_tick` keeps `Consistent`, and with `short_win <= long_win` eviction takes nothing off the short totals. */
  lemma ConsistentStep(shortWin: real, longWin: real, w0: seq<Tick>, seen: seq<Tick>, sb0: real, ss0: real,
                       t: Tick, w1: seq<Tick>, sb1: real, ss1: real)
    requires Consistent(shortWin, longWin, w0, seen, sb0, ss0)
    requires w1 == Evicted(w0, t.ts, longWin) + [t]
    requires var popped := w0[..Expired(w0, t.ts, longWin)];
      && sb1 == sb0 - ShortDrop(popped, t.ts, shortWin, Buy) + VolOn(t, Buy)
      && ss1 == ss0 - ShortDrop(popped, t.ts, shortWin, Sell) + VolOn(t, Sell)
    ensures Consistent(shortWin, longWin, w1, seen + [t], sb1, ss1)
    ensures shortWin <= longWin ==> sb1 == sb0 + VolOn(t, Buy) && ss1 == ss0 + VolOn(t, Sell)
  {
    var n := Expired(w0, t.ts, longWin);
    SuffixStep(seen, w0, n, t);
    assert (seen + [t])[..|seen|] == seen;
    if shortWin <= longWin {
      ExpiredSpec(w0, t.ts, longWin);
      ShortDropZero(w0[..n], t.ts, shortWin, longWin, Buy);
      ShortDropZero(w0[..n], t.ts, shortWin, longWin, Sell);
    }
  }

  /** Dropping a prefix of the deque and pushing `t` keeps it the newest part of the processed ticks. */
  lemma SuffixStep(seen: seq<Tick>, w: seq<Tick>, n: nat, t: Tick)
    requires |w| <= |seen| && w == seen[|seen| - |w|..] && n <= |w|
    ensures var w' := w[n..] + [t]; var seen' := seen + [t];
      |w'| <= |seen'| && w' == seen'[|seen'| - |w'|..]
  {
  }
}
