/**
 * The shared units of input: trade ticks and sweep events, plus the scans over a
 * tick history that the detector and the forward-outcome evaluators share.
 */
module Market {

  /** Aggressor side of a trade. */
  datatype Side = Buy | Sell

  /** One executed trade: timestamp in seconds, price, volume and aggressor side. */
  datatype Tick = Tick(ts: real, price: real, vol: real, side: Side)

  /**
   * A sweep event. `direction` is +1 (Up), -1 (Down), or 0 for an undirected spike
   * (only the streaming engine can report 0).
   */
  datatype SweepEvent = SweepEvent(
    tsStart: real,
    tsEnd: real,
    direction: int,
    priceStart: real,
    priceEnd: real,
    volumeTotal: real)

  /** Ticks in non-decreasing timestamp order, as the batch loaders leave them after sorting. */
  predicate TimeOrdered(ticks: seq<Tick>) {
    forall i :: 0 < i < |ticks| ==> ticks[i - 1].ts <= ticks[i].ts
  }

  /** In ordered ticks, a later index never has an earlier timestamp. */
  lemma {:induction false} OrderedMono(ticks: seq<Tick>, i: nat, j: nat)
    requires TimeOrdered(ticks) && i <= j < |ticks|
    ensures ticks[i].ts <= ticks[j].ts
    decreases j - i
  {
    if i < j {
      OrderedMono(ticks, i, j - 1);
    }
  }

  /** Every price is strictly positive (the data model's price > 0). */
  predicate PositivePrices(ticks: seq<Tick>) {
    forall i :: 0 <= i < |ticks| ==> ticks[i].price > 0.0
  }

  /**
   * The index of the first tick at or after `from` whose timestamp exceeds `limit`,
   * or |ticks| if there is none: where a forward scan `while j < n and ts[j] <= limit`
   * started at `from` stops.
   */
  function ScanEnd(ticks: seq<Tick>, from: nat, limit: real): (e: nat)
    requires from <= |ticks|
    ensures from <= e <= |ticks|
    ensures e < |ticks| ==> ticks[e].ts > limit
    decreases |ticks| - from
  {
    if from == |ticks| || ticks[from].ts > limit then from else ScanEnd(ticks, from + 1, limit)
  }

  /** Every tick the scan passes over lies at or below the limit; the scan stops at the first that does not. */
  lemma {:induction false} ScanEndSpec(ticks: seq<Tick>, from: nat, limit: real)
    requires from <= |ticks|
    ensures forall k :: from <= k < ScanEnd(ticks, from, limit) ==> ticks[k].ts <= limit
    decreases |ticks| - from
  {
    if from < |ticks| && ticks[from].ts <= limit {
      ScanEndSpec(ticks, from + 1, limit);
    }
  }

  /** Some tick of `s` has price `p`. */
  predicate PriceIn(s: seq<Tick>, p: real) {
    exists k :: 0 <= k < |s| && s[k].price == p
  }

  /** Running maximum of `init` and the prices of `s`, as a scan that replaces the maximum on `p > max`. */
  function MaxPrice(s: seq<Tick>, init: real): (r: real)
    ensures init <= r
  {
    if s == [] then init
    else
      var m := MaxPrice(s[..|s| - 1], init);
      if s[|s| - 1].price > m then s[|s| - 1].price else m
  }

  /** Running minimum of `init` and the prices of `s`. */
  function MinPrice(s: seq<Tick>, init: real): (r: real)
    ensures r <= init
  {
    if s == [] then init
    else
      var m := MinPrice(s[..|s| - 1], init);
      if s[|s| - 1].price < m then s[|s| - 1].price else m
  }

  /** The running maximum bounds every price of `s` and is attained (by `init` or by a tick). */
  lemma {:induction false} MaxPriceIsMax(s: seq<Tick>, init: real)
    ensures forall k :: 0 <= k < |s| ==> s[k].price <= MaxPrice(s, init)
    ensures MaxPrice(s, init) == init || PriceIn(s, MaxPrice(s, init))
  {
    if s != [] {
      var s' := s[..|s| - 1];
      MaxPriceIsMax(s', init);
      assert forall k :: 0 <= k < |s'| ==> s'[k] == s[k];
      if MaxPrice(s', init) != init && s[|s| - 1].price <= MaxPrice(s', init) {
        var k :| 0 <= k < |s'| && s'[k].price == MaxPrice(s', init);
        assert s[k].price == MaxPrice(s, init);
      }
    }
  }

  /** The running minimum bounds every price of `s` from below and is attained. */
  lemma {:induction false} MinPriceIsMin(s: seq<Tick>, init: real)
    ensures forall k :: 0 <= k < |s| ==> MinPrice(s, init) <= s[k].price
    ensures MinPrice(s, init) == init || PriceIn(s, MinPrice(s, init))
  {
    if s != [] {
      var s' := s[..|s| - 1];
      MinPriceIsMin(s', init);
      assert forall k :: 0 <= k < |s'| ==> s'[k] == s[k];
      if MinPrice(s', init) != init && s[|s| - 1].price >= MinPrice(s', init) {
        var k :| 0 <= k < |s'| && s'[k].price == MinPrice(s', init);
        assert s[k].price == MinPrice(s, init);
      }
    }
  }

  /** Total volume of the ticks of `s`. */
  function TotalVol(s: seq<Tick>): real {
    if s == [] then 0.0 else TotalVol(s[..|s| - 1]) + s[|s| - 1].vol
  }

  /** Volume of the ticks of `s` priced at or above `base`. */
  function VolAtOrAbove(s: seq<Tick>, base: real): real {
    if s == [] then 0.0
    else VolAtOrAbove(s[..|s| - 1], base) + (if s[|s| - 1].price >= base then s[|s| - 1].vol else 0.0)
  }

  /** Volume of the ticks of `s` priced at or below `base`. */
  function VolAtOrBelow(s: seq<Tick>, base: real): real {
    if s == [] then 0.0
    else VolAtOrBelow(s[..|s| - 1], base) + (if s[|s| - 1].price <= base then s[|s| - 1].vol else 0.0)
  }

  /** Volume of the ticks of `s` priced exactly at `base`. */
  function VolAt(s: seq<Tick>, base: real): real {
    if s == [] then 0.0
    else VolAt(s[..|s| - 1], base) + (if s[|s| - 1].price == base then s[|s| - 1].vol else 0.0)
  }

  /** Extending a slice of the history by the next tick extends each running value by that tick. */
  lemma SliceStep(ticks: seq<Tick>, i: nat, j: nat, base: real)
    requires i <= j < |ticks|
    ensures var s, t, p := ticks[i..j], ticks[j], ticks[j].price;
      && MaxPrice(ticks[i..j + 1], base) == (if p > MaxPrice(s, base) then p else MaxPrice(s, base))
      && MinPrice(ticks[i..j + 1], base) == (if p < MinPrice(s, base) then p else MinPrice(s, base))
      && VolAtOrAbove(ticks[i..j + 1], base) == VolAtOrAbove(s, base) + (if p >= base then t.vol else 0.0)
      && VolAtOrBelow(ticks[i..j + 1], base) == VolAtOrBelow(s, base) + (if p <= base then t.vol else 0.0)
  {
    var next := ticks[i..j + 1];
    assert next[..|next| - 1] == ticks[i..j] && next[|next| - 1] == ticks[j];
  }

  /**
   * A tick priced exactly at the base price is counted on both sides: the up-volume and
   * the down-volume together exceed the window's total volume by exactly that volume.
   */
  lemma {:induction false} BaseVolumeCountedTwice(s: seq<Tick>, base: real)
    ensures VolAtOrAbove(s, base) + VolAtOrBelow(s, base) == TotalVol(s) + VolAt(s, base)
  {
    if s != [] {
      BaseVolumeCountedTwice(s[..|s| - 1], base);
    }
  }
}
