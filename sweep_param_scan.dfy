/**
 * The dense windowed sweep detector (`detect_sweeps_py`), the per-direction return
 * collector (`compute_ret_stats`) and the parameter grid that `main` walks.
 */
module SweepParamScan {
  import opened Wrappers
  import opened Market
  import opened ForwardOutcome

  /** Forward horizon of `compute_ret_stats` when none is given (T_HORIZON). */
  const THorizon: real := 30.0

  /** The candidate grid: window length (s), price threshold (bp), minimum volume. */
  const WindowList: seq<real> := [0.3, 0.6, 1.0]
  const PriceBpList: seq<real> := [3.0, 5.0, 8.0]
  const VolMinList: seq<real> := [2.0, 5.0, 10.0]

  /**
   * What the inner scan of the window starting at tick i accumulates: `end` is where the
   * scan stops, the extremes start at the base price, and a tick priced exactly at the base
   * price counts in both volumes.
   */
  datatype WindowStats = WindowStats(end: nat, upMax: real, dnMin: real, upVol: real, dnVol: real)

  function Window(ticks: seq<Tick>, i: nat, windowSec: real): (w: WindowStats)
    requires i < |ticks|
    ensures i <= w.end <= |ticks|
    ensures w.end < |ticks| ==> ticks[w.end].ts - ticks[i].ts > windowSec
    ensures ticks[i].price <= w.upMax && w.dnMin <= ticks[i].price
  {
    var base := ticks[i];
    var e := ScanEnd(ticks, i, base.ts + windowSec);
    var s := ticks[i..e];
    WindowStats(e, MaxPrice(s, base.price), MinPrice(s, base.price),
                VolAtOrAbove(s, base.price), VolAtOrBelow(s, base.price))
  }

  /** The window holds every tick within `windowSec` of the base tick, and its extremes bound their prices. */
  lemma WindowSpec(ticks: seq<Tick>, i: nat, windowSec: real)
    requires i < |ticks|
    ensures var w := Window(ticks, i, windowSec);
      && (forall k :: i <= k < w.end ==> ticks[k].ts - ticks[i].ts <= windowSec)
      && (forall k :: i <= k < w.end ==> w.dnMin <= ticks[k].price <= w.upMax)
  {
    var base := ticks[i];
    var e := ScanEnd(ticks, i, base.ts + windowSec);
    var s := ticks[i..e];
    ScanEndSpec(ticks, i, base.ts + windowSec);
    assert forall k :: i <= k < e ==> s[k - i] == ticks[k];
    MaxPriceIsMax(s, base.price);
    MinPriceIsMin(s, base.price);
  }

  /**
   * Timestamp of ticks[j - 1] as Python reads it: when the scan is empty at i = 0, index -1
   * is the last tick.
   */
  function EndTs(ticks: seq<Tick>, j: nat): real
    requires 0 < |ticks| && j <= |ticks|
  {
    if j > 0 then ticks[j - 1].ts else ticks[|ticks| - 1].ts
  }

  /** Price moves in basis points of the base price. */
  function UpBp(w: WindowStats, base: real): real requires base > 0.0 { (w.upMax - base) / base * 10000.0 }
  function DnBp(w: WindowStats, base: real): real requires base > 0.0 { (base - w.dnMin) / base * 10000.0 }

  /**
   * The event (if any) emitted for the window starting at tick i: Up when the up move and
   * up-volume both reach their thresholds, otherwise Down when the down move and down-volume do.
   */
  function Candidate(ticks: seq<Tick>, i: nat, windowSec: real, bpThresh: real, volMin: real): (r: Option<SweepEvent>)
    requires i < |ticks| && PositivePrices(ticks)
    ensures r.Some? ==> r.value.direction == 1 || r.value.direction == -1
    ensures r.Some? ==> r.value.tsStart == ticks[i].ts && r.value.priceStart == ticks[i].price
    ensures r.Some? && r.value.direction == 1 ==> r.value.priceEnd >= r.value.priceStart
    ensures r.Some? && r.value.direction == -1 ==> r.value.priceEnd <= r.value.priceStart
  {
    var base := ticks[i];
    var w := Window(ticks, i, windowSec);
    if UpBp(w, base.price) >= bpThresh && w.upVol >= volMin then
      Some(SweepEvent(base.ts, EndTs(ticks, w.end), 1, base.price, w.upMax, w.upVol))
    else if DnBp(w, base.price) >= bpThresh && w.dnVol >= volMin then
      Some(SweepEvent(base.ts, EndTs(ticks, w.end), -1, base.price, w.dnMin, w.dnVol))
    else
      None
  }

  /** With ordered ticks and a non-negative window, an event ends inside its window. */
  lemma CandidateSpan(ticks: seq<Tick>, i: nat, windowSec: real, bpThresh: real, volMin: real)
    requires i < |ticks| && PositivePrices(ticks) && windowSec >= 0.0 && TimeOrdered(ticks)
    ensures var r := Candidate(ticks, i, windowSec, bpThresh, volMin);
      r.Some? ==> r.value.tsStart <= r.value.tsEnd <= r.value.tsStart + windowSec
  {
    var w := Window(ticks, i, windowSec);
    WindowSpec(ticks, i, windowSec);
    assert w.end > i;
    OrderedMono(ticks, i, w.end - 1);
  }

  function AsSeq(o: Option<SweepEvent>): seq<SweepEvent> {
    match o
    case None => []
    case Some(e) => [e]
  }

  /** Events of the windows starting at ticks 0 .. k-1, in start order. */
  function DetectPrefix(ticks: seq<Tick>, k: nat, windowSec: real, bpThresh: real, volMin: real): seq<SweepEvent>
    requires k <= |ticks| && PositivePrices(ticks)
  {
    if k == 0 then []
    else DetectPrefix(ticks, k - 1, windowSec, bpThresh, volMin) + AsSeq(Candidate(ticks, k - 1, windowSec, bpThresh, volMin))
  }

  /** The detector's output: every tick is a window start, at most one event per start. */
  function Detect(ticks: seq<Tick>, windowSec: real, bpThresh: real, volMin: real): seq<SweepEvent>
    requires PositivePrices(ticks)
  {
    DetectPrefix(ticks, |ticks|, windowSec, bpThresh, volMin)
  }

  /**
   * The inner loop of `detect_sweeps_py`: scan forward from tick i while the tick lies within
   * `windowSec` of the base tick, keeping the running extremes and the up/down volumes.
   */
  method ScanWindow(ticks: seq<Tick>, i: nat, windowSec: real) returns (w: WindowStats)
    requires i < |ticks|
    ensures w == Window(ticks, i, windowSec)
  {
    var n := |ticks|;
    var j := i;
    var baseP := ticks[i].price;
    var baseT := ticks[i].ts;
    var upMax := baseP;
    var dnMin := baseP;
    var upVol := 0.0;
    var dnVol := 0.0;
    while j < n && ticks[j].ts - baseT <= windowSec
      invariant i <= j <= n
      invariant ScanEnd(ticks, j, baseT + windowSec) == ScanEnd(ticks, i, baseT + windowSec)
      invariant upMax == MaxPrice(ticks[i..j], baseP) && dnMin == MinPrice(ticks[i..j], baseP)
      invariant upVol == VolAtOrAbove(ticks[i..j], baseP) && dnVol == VolAtOrBelow(ticks[i..j], baseP)
    {
      SliceStep(ticks, i, j, baseP);
      var p := ticks[j].price;
      var v := ticks[j].vol;
      if p > upMax {
        upMax := p;
      }
      if p < dnMin {
        dnMin := p;
      }
      if p >= baseP {
        upVol := upVol + v;
      }
      if p <= baseP {
        dnVol := dnVol + v;
      }
      j := j + 1;
    }
    w := WindowStats(j, upMax, dnMin, upVol, dnVol);
  }

  /** The body of the outer loop of `detect_sweeps_py`: scan the window at i and classify it. */
  method WindowEvent(ticks: seq<Tick>, i: nat, windowSec: real, bpThresh: real, volMin: real) returns (r: Option<SweepEvent>)
    requires i < |ticks| && PositivePrices(ticks)
    ensures r == Candidate(ticks, i, windowSec, bpThresh, volMin)
  {
    var n := |ticks|;
    var baseP := ticks[i].price;
    var baseT := ticks[i].ts;
    var w := ScanWindow(ticks, i, windowSec);
    var j := w.end;
    var upBp := (w.upMax - baseP) / baseP * 10000.0;
    var dnBp := (baseP - w.dnMin) / baseP * 10000.0;
    var endTs := if j > 0 then ticks[j - 1].ts else ticks[n - 1].ts;
    assert upBp == UpBp(w, baseP) && dnBp == DnBp(w, baseP) && endTs == EndTs(ticks, j);
    if upBp >= bpThresh && w.upVol >= volMin {
      r := Some(SweepEvent(baseT, endTs, 1, baseP, w.upMax, w.upVol));
    } else if dnBp >= bpThresh && w.dnVol >= volMin {
      r := Some(SweepEvent(baseT, endTs, -1, baseP, w.dnMin, w.dnVol));
    } else {
      r := None;
    }
  }

  /** `detect_sweeps_py`: one window per start index, at most one event per window. */
  method DetectSweeps(ticks: seq<Tick>, windowSec: real, bpThresh: real, volMin: real) returns (sweeps: seq<SweepEvent>)
    requires PositivePrices(ticks)
    ensures sweeps == Detect(ticks, windowSec, bpThresh, volMin)
  {
    sweeps := [];
    var n := |ticks|;
    var i := 0;
    while i < n
      invariant 0 <= i <= n
      invariant sweeps == DetectPrefix(ticks, i, windowSec, bpThresh, volMin)
    {
      var r := WindowEvent(ticks, i, windowSec, bpThresh, volMin);
      if r.Some? {
        sweeps := sweeps + [r.value];
      }
      i := i + 1;
    }
  }

  // ---------------------------------------------------------------------------
  // Per-direction returns and the parameter grid

  /** The horizon returns of the Down records (direction < 0), in order. */
  function DownRets(rs: seq<OutcomeRecord>): seq<real> {
    if rs == [] then []
    else DownRets(rs[..|rs| - 1]) + (if rs[|rs| - 1].direction < 0 then [rs[|rs| - 1].retH] else [])
  }

  /** The horizon returns of every other record (direction >= 0), in order. */
  function UpRets(rs: seq<OutcomeRecord>): seq<real> {
    if rs == [] then []
    else UpRets(rs[..|rs| - 1]) + (if rs[|rs| - 1].direction < 0 then [] else [rs[|rs| - 1].retH])
  }

  /** Every record's horizon return, in order. */
  function AllRets(rs: seq<OutcomeRecord>): (r: seq<real>)
    ensures |r| == |rs|
  {
    if rs == [] then [] else AllRets(rs[..|rs| - 1]) + [rs[|rs| - 1].retH]
  }

  /** The split loses nothing and duplicates nothing: every record lands in exactly one list. */
  lemma {:induction false} RetSplitPartitions(rs: seq<OutcomeRecord>)
    ensures |DownRets(rs)| + |UpRets(rs)| == |rs|
    ensures multiset(DownRets(rs)) + multiset(UpRets(rs)) == multiset(AllRets(rs))
    decreases |rs|
  {
    if rs != [] {
      var init := rs[..|rs| - 1];
      var last := rs[|rs| - 1];
      RetSplitPartitions(init);
      assert multiset(AllRets(rs)) == multiset(AllRets(init)) + multiset{last.retH};
      if last.direction < 0 {
        assert multiset(DownRets(rs)) == multiset(DownRets(init)) + multiset{last.retH};
        assert UpRets(rs) == UpRets(init);
      } else {
        assert multiset(UpRets(rs)) == multiset(UpRets(init)) + multiset{last.retH};
        assert DownRets(rs) == DownRets(init);
      }
    }
  }

  lemma RetSplitStep(prev: seq<OutcomeRecord>, rec: OutcomeRecord)
    ensures DownRets(prev + [rec]) == DownRets(prev) + (if rec.direction < 0 then [rec.retH] else [])
    ensures UpRets(prev + [rec]) == UpRets(prev) + (if rec.direction < 0 then [] else [rec.retH])
  {
    assert (prev + [rec])[..|prev|] == prev;
  }

  /**
   * `compute_ret_stats`: score every event over the horizon and file its return under Down
   * (direction < 0) or Up (anything else); events without forward data are skipped.
   */
  method ComputeRetStats(ticks: seq<Tick>, sweeps: seq<SweepEvent>, horizon: real) returns (downRets: seq<real>, upRets: seq<real>)
    requires PositivePrices(ticks)
    ensures downRets == DownRets(Evaluate(ticks, sweeps, horizon))
    ensures upRets == UpRets(Evaluate(ticks, sweeps, horizon))
  {
    downRets, upRets := [], [];
    ghost var recs: seq<OutcomeRecord> := [];
    for k := 0 to |sweeps|
      invariant recs == Evaluate(ticks, sweeps[..k], horizon)
      invariant downRets == DownRets(recs) && upRets == UpRets(recs)
    {
      var ev := sweeps[k];
      EvaluateStep(ticks, sweeps, k, horizon);
      var r := ScanEvent(ticks, ev.tsEnd, horizon);
      if r.Some? {
        var x := r.value;
        var ret := (x.priceT - x.price0) / x.price0;
        ghost var rec := Record(ScoredEvent(ev, x));
        assert ret == rec.retH;
        RetSplitStep(recs, rec);
        recs := recs + [rec];
        if ev.direction < 0 {
          downRets := downRets + [ret];
        } else {
          upRets := upRets + [ret];
        }
      }
    }
    assert sweeps[..|sweeps|] == sweeps;
  }

  /** Together the two lists hold one return per event that has forward data. */
  lemma RetStatsCount(ticks: seq<Tick>, sweeps: seq<SweepEvent>, horizon: real)
    requires PositivePrices(ticks)
    ensures var out := Evaluate(ticks, sweeps, horizon);
      |DownRets(out)| + |UpRets(out)| == |out| <= |sweeps|
  {
    RetSplitPartitions(Evaluate(ticks, sweeps, horizon));
    EvaluateRecordsFaithful(ticks, sweeps, horizon);
  }

  /** One grid point: (window length, price threshold in bp, minimum volume). */
  datatype Config = Config(windowSec: real, bpThresh: real, volMin: real)

  /** The blocks of a nested loop, run one after the other. */
  function Flatten<T>(blocks: seq<seq<T>>): seq<T> {
    if blocks == [] then [] else Flatten(blocks[..|blocks| - 1]) + blocks[|blocks| - 1]
  }

  /** The configurations with fixed window and threshold, volume varying fastest. */
  function Triples(w: real, bp: real, vols: seq<real>): seq<Config> {
    seq(|vols|, c requires 0 <= c < |vols| => Config(w, bp, vols[c]))
  }

  /** One window length: a block of triples per threshold. */
  function PairBlocks(w: real, bps: seq<real>, vols: seq<real>): seq<seq<Config>> {
    seq(|bps|, b requires 0 <= b < |bps| => Triples(w, bps[b], vols))
  }

  function Pairs(w: real, bps: seq<real>, vols: seq<real>): seq<Config> {
    Flatten(PairBlocks(w, bps, vols))
  }

  function GridBlocks(ws: seq<real>, bps: seq<real>, vols: seq<real>): seq<seq<Config>> {
    seq(|ws|, a requires 0 <= a < |ws| => Pairs(ws[a], bps, vols))
  }

  /** The nested-loop order of `main`: window outermost, then threshold, then volume. */
  function Grid(ws: seq<real>, bps: seq<real>, vols: seq<real>): seq<Config> {
    Flatten(GridBlocks(ws, bps, vols))
  }

  /** Running one more block appends it. */
  lemma FlattenSnoc<T>(blocks: seq<seq<T>>, k: nat)
    requires k < |blocks|
    ensures Flatten(blocks[..k + 1]) == Flatten(blocks[..k]) + blocks[k]
  {
    assert blocks[..k + 1][..k] == blocks[..k];
  }

  /** Element i of block a sits after all the blocks before a. */
  lemma {:induction false} FlattenAt<T>(blocks: seq<seq<T>>, a: nat, i: nat)
    requires a < |blocks| && i < |blocks[a]|
    ensures |Flatten(blocks[..a])| + i < |Flatten(blocks)|
    ensures Flatten(blocks)[|Flatten(blocks[..a])| + i] == blocks[a][i]
    decreases |blocks|
  {
    var m := |blocks| - 1;
    var init := blocks[..m];
    var head := Flatten(init);
    assert Flatten(blocks) == head + blocks[m];
    if a < m {
      assert init[..a] == blocks[..a] && init[a] == blocks[a];
      FlattenAt(init, a, i);
      var j := |Flatten(blocks[..a])| + i;
      assert (head + blocks[m])[j] == head[j];
    } else {
      assert blocks[..a] == init;
      assert (head + blocks[m])[|head| + i] == blocks[m][i];
    }
  }

  lemma MulSucc(m: nat, v: nat)
    ensures (m + 1) * v == m * v + v
  {
  }

  /** Blocks of equal length L run for |blocks| * L steps in total. */
  lemma {:induction false} FlattenLength<T>(blocks: seq<seq<T>>, len: nat)
    requires forall k :: 0 <= k < |blocks| ==> |blocks[k]| == len
    ensures |Flatten(blocks)| == |blocks| * len
    decreases |blocks|
  {
    if blocks != [] {
      var m := |blocks| - 1;
      FlattenLength(blocks[..m], len);
      assert |Flatten(blocks)| == m * len + len;
      MulSucc(m, len);
    }
  }

  lemma PairsLength(w: real, bps: seq<real>, vols: seq<real>)
    ensures |Pairs(w, bps, vols)| == |bps| * |vols|
  {
    FlattenLength(PairBlocks(w, bps, vols), |vols|);
  }

  /** The grid has one point per combination: |ws| * |bps| * |vols| points, none skipped. */
  lemma GridLength(ws: seq<real>, bps: seq<real>, vols: seq<real>)
    ensures |Grid(ws, bps, vols)| == |ws| * (|bps| * |vols|)
  {
    forall a | 0 <= a < |ws|
      ensures |GridBlocks(ws, bps, vols)[a]| == |bps| * |vols|
    {
      PairsLength(ws[a], bps, vols);
    }
    FlattenLength(GridBlocks(ws, bps, vols), |bps| * |vols|);
  }

  /**
   * The grid enumerates every combination in nested-loop order: (a, b, c) comes after the
   * blocks of the first a window lengths and, inside the block of ws[a], after the triples
   * of the first b thresholds.
   */
  lemma GridAt(ws: seq<real>, bps: seq<real>, vols: seq<real>, a: nat, b: nat, c: nat)
    requires a < |ws| && b < |bps| && c < |vols|
    ensures var i := |Flatten(GridBlocks(ws, bps, vols)[..a])| + (|Flatten(PairBlocks(ws[a], bps, vols)[..b])| + c);
      i < |Grid(ws, bps, vols)| && Grid(ws, bps, vols)[i] == Config(ws[a], bps[b], vols[c])
  {
    var pb := PairBlocks(ws[a], bps, vols);
    var within := |Flatten(pb[..b])| + c;
    assert within < |Pairs(ws[a], bps, vols)| && Pairs(ws[a], bps, vols)[within] == Config(ws[a], bps[b], vols[c]) by {
      FlattenAt(pb, b, c);
    }
    FlattenAt(GridBlocks(ws, bps, vols), a, within);
  }

  /** Those offsets are a * (|bps| * |vols|) and b * |vols|: step (a * |bps| + b) * |vols| + c. */
  lemma GridOffsets(ws: seq<real>, bps: seq<real>, vols: seq<real>, a: nat, b: nat)
    requires a <= |ws| && b <= |bps|
    ensures |Flatten(GridBlocks(ws, bps, vols)[..a])| == a * (|bps| * |vols|)
    ensures a < |ws| ==> |Flatten(PairBlocks(ws[a], bps, vols)[..b])| == b * |vols|
  {
    var gb := GridBlocks(ws, bps, vols)[..a];
    forall k | 0 <= k < |gb|
      ensures |gb[k]| == |bps| * |vols|
    {
      PairsLength(ws[k], bps, vols);
    }
    FlattenLength(gb, |bps| * |vols|);
    if a < |ws| {
      FlattenLength(PairBlocks(ws[a], bps, vols)[..b], |vols|);
    }
  }

  /** What `main` reports for one configuration: the sweep count and the two return lists. */
  datatype GridReport = GridReport(config: Config, sweepCount: nat, downRets: seq<real>, upRets: seq<real>)

  function RunConfig(ticks: seq<Tick>, c: Config): GridReport
    requires PositivePrices(ticks)
  {
    var sweeps := Detect(ticks, c.windowSec, c.bpThresh, c.volMin);
    var out := Evaluate(ticks, sweeps, THorizon);
    GridReport(c, |sweeps|, DownRets(out), UpRets(out))
  }

  /** One report per configuration, in order, each what RunConfig says. */
  predicate RunsOf(ticks: seq<Tick>, reports: seq<GridReport>, cs: seq<Config>)
    requires PositivePrices(ticks)
  {
    |reports| == |cs| && forall k :: 0 <= k < |cs| ==> reports[k] == RunConfig(ticks, cs[k])
  }

  lemma RunsOfAppend(ticks: seq<Tick>, r1: seq<GridReport>, c1: seq<Config>, r2: seq<GridReport>, c2: seq<Config>)
    requires PositivePrices(ticks) && RunsOf(ticks, r1, c1) && RunsOf(ticks, r2, c2)
    ensures RunsOf(ticks, r1 + r2, c1 + c2)
  {
    var r, c := r1 + r2, c1 + c2;
    forall k | 0 <= k < |c|
      ensures r[k] == RunConfig(ticks, c[k])
    {
      if k < |c1| {
        assert r[k] == r1[k] && c[k] == c1[k];
      } else {
        assert r[k] == r2[k - |c1|] && c[k] == c2[k - |c1|];
      }
    }
  }

  /** The innermost loop of `main`: one report per minimum volume, window and threshold fixed. */
  method RunVolumes(ticks: seq<Tick>, w: real, bp: real, vols: seq<real>) returns (reports: seq<GridReport>)
    requires PositivePrices(ticks)
    ensures RunsOf(ticks, reports, Triples(w, bp, vols))
  {
    reports := [];
    for c := 0 to |vols|
      invariant RunsOf(ticks, reports, Triples(w, bp, vols[..c]))
    {
      var cfg := Config(w, bp, vols[c]);
      var sweeps := DetectSweeps(ticks, w, bp, vols[c]);
      var downRets, upRets := ComputeRetStats(ticks, sweeps, THorizon);
      assert Triples(w, bp, vols[..c + 1]) == Triples(w, bp, vols[..c]) + [cfg];
      assert GridReport(cfg, |sweeps|, downRets, upRets) == RunConfig(ticks, cfg);
      RunsOfAppend(ticks, reports, Triples(w, bp, vols[..c]), [RunConfig(ticks, cfg)], [cfg]);
      reports := reports + [GridReport(cfg, |sweeps|, downRets, upRets)];
    }
    assert vols[..|vols|] == vols;
  }

  /** The middle loop of `main`: every threshold for one window length. */
  method RunThresholds(ticks: seq<Tick>, w: real, bps: seq<real>, vols: seq<real>) returns (reports: seq<GridReport>)
    requires PositivePrices(ticks)
    ensures RunsOf(ticks, reports, Pairs(w, bps, vols))
  {
    ghost var blocks := PairBlocks(w, bps, vols);
    reports := [];
    for b := 0 to |bps|
      invariant RunsOf(ticks, reports, Flatten(blocks[..b]))
    {
      var more := RunVolumes(ticks, w, bps[b], vols);
      FlattenSnoc(blocks, b);
      RunsOfAppend(ticks, reports, Flatten(blocks[..b]), more, blocks[b]);
      reports := reports + more;
    }
    assert blocks[..|bps|] == blocks;
  }

  /**
   * The loops of `main` over the window, threshold and volume lists: one report per grid
   * point, in grid order (`main` passes WindowList, PriceBpList and VolMinList).
   */
  method GridSearch(ticks: seq<Tick>, ws: seq<real>, bps: seq<real>, vols: seq<real>) returns (reports: seq<GridReport>)
    requires PositivePrices(ticks)
    ensures RunsOf(ticks, reports, Grid(ws, bps, vols))
  {
    ghost var blocks := GridBlocks(ws, bps, vols);
    reports := [];
    for a := 0 to |ws|
      invariant RunsOf(ticks, reports, Flatten(blocks[..a]))
    {
      var more := RunThresholds(ticks, ws[a], bps, vols);
      FlattenSnoc(blocks, a);
      RunsOfAppend(ticks, reports, Flatten(blocks[..a]), more, blocks[a]);
      reports := reports + more;
    }
    assert blocks[..|ws|] == blocks;
  }

  /** `main` runs 3 * 3 * 3 = 27 configurations. */
  lemma DefaultGridSize()
    ensures |Grid(WindowList, PriceBpList, VolMinList)| == 27
  {
    GridLength(WindowList, PriceBpList, VolMinList);
  }

  // ---------------------------------------------------------------------------
  // Properties of the detector

  /** When both the up and the down thresholds are met, only the Up event is emitted. */
  lemma UpTakesPrecedence(ticks: seq<Tick>, i: nat, windowSec: real, bpThresh: real, volMin: real)
    requires i < |ticks| && PositivePrices(ticks)
    requires var w := Window(ticks, i, windowSec);
      && UpBp(w, ticks[i].price) >= bpThresh && w.upVol >= volMin
      && DnBp(w, ticks[i].price) >= bpThresh && w.dnVol >= volMin
    ensures var r := Candidate(ticks, i, windowSec, bpThresh, volMin);
      r.Some? && r.value.direction == 1 && r.value.priceEnd == Window(ticks, i, windowSec).upMax
      && r.value.volumeTotal == Window(ticks, i, windowSec).upVol
  {
  }

  /** An Up event ends at or above its start price, a Down event at or below; nothing else is emitted. */
  predicate DirectedMove(e: SweepEvent) {
    && (e.direction == 1 || e.direction == -1)
    && (e.direction == 1 ==> e.priceEnd >= e.priceStart)
    && (e.direction == -1 ==> e.priceEnd <= e.priceStart)
  }

  /** At most one event per window start, and every event is a directed move. */
  lemma {:induction false} DetectWellFormed(ticks: seq<Tick>, k: nat, windowSec: real, bpThresh: real, volMin: real)
    requires k <= |ticks| && PositivePrices(ticks)
    ensures var out := DetectPrefix(ticks, k, windowSec, bpThresh, volMin);
      |out| <= k && forall e :: e in out ==> DirectedMove(e)
  {
    if k > 0 {
      DetectWellFormed(ticks, k - 1, windowSec, bpThresh, volMin);
      var prev := DetectPrefix(ticks, k - 1, windowSec, bpThresh, volMin);
      var cand := Candidate(ticks, k - 1, windowSec, bpThresh, volMin);
      var out := DetectPrefix(ticks, k, windowSec, bpThresh, volMin);
      assert out == prev + AsSeq(cand);
      assert forall e :: e in out ==> e in prev || (cand.Some? && e == cand.value);
    }
  }

  /** With ordered ticks and a non-negative window, every event ends inside its window. */
  lemma {:induction false} DetectSpans(ticks: seq<Tick>, k: nat, windowSec: real, bpThresh: real, volMin: real)
    requires k <= |ticks| && PositivePrices(ticks) && TimeOrdered(ticks) && windowSec >= 0.0
    ensures forall e :: e in DetectPrefix(ticks, k, windowSec, bpThresh, volMin) ==>
      e.tsStart <= e.tsEnd <= e.tsStart + windowSec
  {
    if k > 0 {
      DetectSpans(ticks, k - 1, windowSec, bpThresh, volMin);
      var prev := DetectPrefix(ticks, k - 1, windowSec, bpThresh, volMin);
      var cand := Candidate(ticks, k - 1, windowSec, bpThresh, volMin);
      var out := DetectPrefix(ticks, k, windowSec, bpThresh, volMin);
      assert out == prev + AsSeq(cand);
      assert forall e :: e in out ==> e in prev || (cand.Some? && e == cand.value);
      CandidateSpan(ticks, k - 1, windowSec, bpThresh, volMin);
    }
  }

  /** With ordered ticks no event starts after the last window start scanned. */
  lemma {:induction false} DetectStartsBounded(ticks: seq<Tick>, k: nat, windowSec: real, bpThresh: real, volMin: real)
    requires 0 < k <= |ticks| && PositivePrices(ticks) && TimeOrdered(ticks)
    ensures forall e :: e in DetectPrefix(ticks, k, windowSec, bpThresh, volMin) ==> e.tsStart <= ticks[k - 1].ts
  {
    var prev := DetectPrefix(ticks, k - 1, windowSec, bpThresh, volMin);
    var cand := Candidate(ticks, k - 1, windowSec, bpThresh, volMin);
    var out := DetectPrefix(ticks, k, windowSec, bpThresh, volMin);
    assert out == prev + AsSeq(cand);
    if k > 1 {
      DetectStartsBounded(ticks, k - 1, windowSec, bpThresh, volMin);
      assert ticks[k - 2].ts <= ticks[k - 1].ts;
    }
    assert forall e :: e in out ==> e in prev || (cand.Some? && e == cand.value);
  }

  /** Events in non-decreasing start-time order. */
  predicate StartsSorted(evs: seq<SweepEvent>) {
    forall a, b :: 0 <= a < b < |evs| ==> evs[a].tsStart <= evs[b].tsStart
  }

  /** With ordered ticks the events come out in non-decreasing start-time order. */
  lemma {:induction false} DetectStartsOrdered(ticks: seq<Tick>, k: nat, windowSec: real, bpThresh: real, volMin: real)
    requires k <= |ticks| && PositivePrices(ticks) && TimeOrdered(ticks)
    ensures StartsSorted(DetectPrefix(ticks, k, windowSec, bpThresh, volMin))
  {
    if k > 0 {
      DetectStartsOrdered(ticks, k - 1, windowSec, bpThresh, volMin);
      var prev := DetectPrefix(ticks, k - 1, windowSec, bpThresh, volMin);
      var cand := Candidate(ticks, k - 1, windowSec, bpThresh, volMin);
      var out := DetectPrefix(ticks, k, windowSec, bpThresh, volMin);
      assert out == prev + AsSeq(cand);
      if k > 1 {
        DetectStartsBounded(ticks, k - 1, windowSec, bpThresh, volMin);
        assert ticks[k - 2].ts <= ticks[k - 1].ts;
      }
      forall a, b | 0 <= a < b < |out| ensures out[a].tsStart <= out[b].tsStart {
        if b >= |prev| {
          assert prev != [] && k > 1;
          assert out[a] in prev && out[a].tsStart <= ticks[k - 2].ts;
          assert out[b] == cand.value && out[b].tsStart == ticks[k - 1].ts;
        } else {
          assert out[a] == prev[a] && out[b] == prev[b];
        }
      }
    }
  }

  /**
   * The worked example: ticks (0, 100, 1), (0.05, 101.5, 3), (0.1, 101.6, 2) with a 0.2 s
   * window, 100 bp and minimum volume 4 give exactly one Up event 100 -> 101.6 of volume 6.
   */
  lemma DetectExample()
    ensures var ticks := [Tick(0.0, 100.0, 1.0, Buy), Tick(0.05, 101.5, 3.0, Buy), Tick(0.1, 101.6, 2.0, Buy)];
      PositivePrices(ticks) &&
      Detect(ticks, 0.2, 100.0, 4.0) == [SweepEvent(0.0, 0.1, 1, 100.0, 101.6, 6.0)]
  {
    var t0, t1, t2 := Tick(0.0, 100.0, 1.0, Buy), Tick(0.05, 101.5, 3.0, Buy), Tick(0.1, 101.6, 2.0, Buy);
    var ticks := [t0, t1, t2];
    assert [t0, t1, t2][..2] == [t0, t1] && [t0, t1][..1] == [t0] && [t0][..0] == [];
    assert [t1, t2][..1] == [t1];
    assert ScanEnd(ticks, 0, 0.2) == 3 by {
      assert ScanEnd(ticks, 2, 0.2) == 3;
      assert ScanEnd(ticks, 1, 0.2) == 3;
    }
    assert ticks[0..3] == ticks;
    assert Window(ticks, 0, 0.2) == WindowStats(3, 101.6, 100.0, 6.0, 1.0) by {
      assert MaxPrice([t0], 100.0) == 100.0;
      assert MinPrice([t0], 100.0) == 100.0;
      assert MaxPrice([t0, t1], 100.0) == 101.5;
      assert MinPrice([t0, t1], 100.0) == 100.0;
      assert VolAtOrAbove([t0], 100.0) == 1.0;
      assert VolAtOrBelow([t0], 100.0) == 1.0;
      assert VolAtOrAbove([t0, t1], 100.0) == 4.0;
      assert VolAtOrBelow([t0, t1], 100.0) == 1.0;
    }
    assert Candidate(ticks, 0, 0.2, 100.0, 4.0) == Some(SweepEvent(0.0, 0.1, 1, 100.0, 101.6, 6.0));
    assert ScanEnd(ticks, 1, 0.25) == 3 by {
      assert ScanEnd(ticks, 2, 0.25) == 3;
    }
    assert ticks[1..3] == [t1, t2];
    assert Window(ticks, 1, 0.2) == WindowStats(3, 101.6, 101.5, 5.0, 3.0) by {
      assert MaxPrice([t1], 101.5) == 101.5;
      assert MinPrice([t1], 101.5) == 101.5;
      assert VolAtOrAbove([t1], 101.5) == 3.0;
      assert VolAtOrBelow([t1], 101.5) == 3.0;
    }
    assert Candidate(ticks, 1, 0.2, 100.0, 4.0) == None;
    assert ScanEnd(ticks, 2, 0.3) == 3;
    assert ticks[2..3] == [t2];
    assert Window(ticks, 2, 0.2) == WindowStats(3, 101.6, 101.6, 2.0, 2.0) by {
      assert [t2][..0] == [];
      assert MaxPrice([t2], 101.6) == 101.6;
      assert MinPrice([t2], 101.6) == 101.6;
      assert VolAtOrAbove([t2], 101.6) == 2.0;
      assert VolAtOrBelow([t2], 101.6) == 2.0;
    }
    assert Candidate(ticks, 2, 0.2, 100.0, 4.0) == None;
  }
}
