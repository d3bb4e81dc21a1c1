/**
 * offline_analyze.py: the forward evaluator that walks one tick pointer `idx` across the
 * events instead of searching from the first tick for every event. Its records carry the
 * reference price where analyze_sweep.py carries the event volume.
 */
module OfflineAnalyze {
  import opened Wrappers
  import opened Market
  import opened ForwardOutcome

  /** The fixed horizon of this evaluator (T_HORIZON = 30 s). */
  const THorizon: real := 30.0

  /** One output tuple: (direction, ret_30, mfe_30, mae_30, price0). */
  datatype OfflineRecord = OfflineRecord(direction: int, ret30: real, mfe30: real, mae30: real, price0: real)

  function OfflineRecordOf(s: ScoredEvent): OfflineRecord
    requires s.exc.price0 > 0.0
  {
    var (mfe, mae) := Excursions(s.event.direction, s.exc);
    OfflineRecord(s.event.direction, Ret(s.exc), mfe, mae, s.exc.price0)
  }

  function OfflineRecords(s: seq<ScoredEvent>): (r: seq<OfflineRecord>)
    requires PositiveReferences(s)
    ensures |r| == |s|
  {
    if s == [] then [] else OfflineRecords(s[..|s| - 1]) + [OfflineRecordOf(s[|s| - 1])]
  }

  /** The pointer and the records after some prefix of the events. */
  datatype OfflineState = OfflineState(idx: nat, results: seq<OfflineRecord>)

  /**
   * One iteration of the event loop: move the pointer to the first tick at or after the
   * event's end, then scan the horizon from there. When the pointer reaches the end the
   * source breaks out of the loop; every later iteration would find the pointer at the end
   * and add nothing, so the step leaves the records unchanged there.
   */
  function OfflineStep(ticks: seq<Tick>, st: OfflineState, ev: SweepEvent): (r: OfflineState)
    requires PositivePrices(ticks) && st.idx <= |ticks|
    ensures st.idx <= r.idx <= |ticks|
    ensures r.idx == FirstAtOrAfter(ticks, st.idx, ev.tsEnd)
    ensures st.results <= r.results && |r.results| <= |st.results| + 1
  {
    var idx := FirstAtOrAfter(ticks, st.idx, ev.tsEnd);
    match ScoreFrom(ticks, st.idx, ev.tsEnd, THorizon)
    case None => OfflineState(idx, st.results)
    case Some(x) => OfflineState(idx, st.results + [OfflineRecordOf(ScoredEvent(ev, x))])
  }

  /** The state after the events `evs`, from pointer 0 and no records. */
  function OfflineRun(ticks: seq<Tick>, evs: seq<SweepEvent>): (r: OfflineState)
    requires PositivePrices(ticks)
    ensures r.idx <= |ticks| && |r.results| <= |evs|
  {
    if evs == [] then OfflineState(0, [])
    else OfflineStep(ticks, OfflineRun(ticks, evs[..|evs| - 1]), evs[|evs| - 1])
  }

  lemma OfflineRunStep(ticks: seq<Tick>, evs: seq<SweepEvent>, k: nat)
    requires PositivePrices(ticks) && k < |evs|
    ensures OfflineRun(ticks, evs[..k + 1]) == OfflineStep(ticks, OfflineRun(ticks, evs[..k]), evs[k])
  {
    assert evs[..k + 1][..k] == evs[..k];
  }

  /** The pointer never moves back: later prefixes leave it at or beyond earlier ones. */
  lemma {:induction false} PointerMonotone(ticks: seq<Tick>, evs: seq<SweepEvent>, k: nat)
    requires PositivePrices(ticks) && k <= |evs|
    ensures OfflineRun(ticks, evs[..k]).idx <= OfflineRun(ticks, evs).idx
    ensures OfflineRun(ticks, evs[..k]).results <= OfflineRun(ticks, evs).results
    decreases |evs|
  {
    if k == |evs| {
      assert evs[..k] == evs;
    } else {
      var init := evs[..|evs| - 1];
      assert init[..k] == evs[..k];
      PointerMonotone(ticks, init, k);
    }
  }

  /**
   * The `break`: once the pointer has reached the end of the ticks, no later event adds a
   * record or moves the pointer.
   */
  lemma {:induction false} OfflineDone(ticks: seq<Tick>, evs: seq<SweepEvent>, k: nat)
    requires PositivePrices(ticks) && k <= |evs|
    requires OfflineRun(ticks, evs[..k]).idx == |ticks|
    ensures OfflineRun(ticks, evs) == OfflineRun(ticks, evs[..k])
    decreases |evs|
  {
    if k == |evs| {
      assert evs[..k] == evs;
    } else {
      var init := evs[..|evs| - 1];
      assert init[..k] == evs[..k];
      OfflineDone(ticks, init, k);
    }
  }

  /** Events in non-decreasing order of end time, as `load_sweeps` sorts them. */
  predicate SortedByEnd(evs: seq<SweepEvent>) {
    forall i :: 0 < i < |evs| ==> evs[i - 1].tsEnd <= evs[i].tsEnd
  }

  /**
   * With events sorted by end time, the pointer after each event is where a fresh search
   * from the first tick would land: the first tick at or after that event's end.
   */
  lemma {:induction false} PointerIsFreshSearch(ticks: seq<Tick>, evs: seq<SweepEvent>)
    requires PositivePrices(ticks) && SortedByEnd(evs) && evs != []
    ensures OfflineRun(ticks, evs).idx == FirstAtOrAfter(ticks, 0, evs[|evs| - 1].tsEnd)
    decreases |evs|
  {
    var init := evs[..|evs| - 1];
    var t := evs[|evs| - 1].tsEnd;
    var prev := OfflineRun(ticks, init).idx;
    if init != [] {
      var tPrev := init[|init| - 1].tsEnd;
      assert tPrev <= t;
      assert SortedByEnd(init);
      PointerIsFreshSearch(ticks, init);
      FirstAtOrAfterSpec(ticks, 0, tPrev);
    }
    FirstAtOrAfterResume(ticks, 0, prev, t);
  }

  /** Every tick the pointer has passed, before an event of a sorted list, lies before its end. */
  lemma PointerBehind(ticks: seq<Tick>, evs: seq<SweepEvent>)
    requires PositivePrices(ticks) && SortedByEnd(evs) && evs != []
    ensures forall m :: 0 <= m < OfflineRun(ticks, evs[..|evs| - 1]).idx ==> ticks[m].ts < evs[|evs| - 1].tsEnd
  {
    var init := evs[..|evs| - 1];
    if init != [] {
      var tPrev := init[|init| - 1].tsEnd;
      assert tPrev <= evs[|evs| - 1].tsEnd;
      assert SortedByEnd(init);
      PointerIsFreshSearch(ticks, init);
      FirstAtOrAfterSpec(ticks, 0, tPrev);
    }
  }

  /**
   * For events sorted by end time the monotone pointer scores exactly the events the
   * rescanning evaluator scores, with the same scans, in the same order.
   */
  lemma {:induction false} OfflineMatchesRescan(ticks: seq<Tick>, evs: seq<SweepEvent>)
    requires PositivePrices(ticks) && SortedByEnd(evs)
    ensures PositiveReferences(Scored(ticks, evs, THorizon))
    ensures OfflineRun(ticks, evs).results == OfflineRecords(Scored(ticks, evs, THorizon))
    decreases |evs|
  {
    ScoredReferencesPositive(ticks, evs, THorizon);
    if evs != [] {
      var init := evs[..|evs| - 1];
      var ev := evs[|evs| - 1];
      assert SortedByEnd(init);
      OfflineMatchesRescan(ticks, init);
      var prev := OfflineRun(ticks, init).idx;
      PointerBehind(ticks, evs);
      ScoreResume(ticks, prev, ev.tsEnd, THorizon);
      var s := Scored(ticks, evs, THorizon);
      if s != [] {
        assert s[..|s| - 1] == Scored(ticks, init, THorizon) || Score(ticks, ev.tsEnd, THorizon).None?;
      }
    }
  }

  /** The two record kinds agree on direction, return, MFE and MAE. */
  predicate SameOutcome(o: OfflineRecord, r: OutcomeRecord) {
    o.direction == r.direction && o.ret30 == r.retH && o.mfe30 == r.mfeH && o.mae30 == r.maeH
  }

  lemma {:induction false} OfflineRecordsAt(s: seq<ScoredEvent>)
    requires PositiveReferences(s)
    ensures forall k :: 0 <= k < |s| ==> OfflineRecords(s)[k] == OfflineRecordOf(s[k])
    decreases |s|
  {
    if s != [] {
      OfflineRecordsAt(s[..|s| - 1]);
    }
  }

  /**
   * For events sorted by end time the offline output is analyze_sweep.py's output at a 30 s
   * horizon, record by record, except that the fifth field is the reference price
   * (the price of the first tick at or after the event's end) rather than the event volume.
   */
  lemma OfflineAgreesWithEvaluate(ticks: seq<Tick>, evs: seq<SweepEvent>)
    requires PositivePrices(ticks) && SortedByEnd(evs)
    ensures var off, on := OfflineRun(ticks, evs).results, Evaluate(ticks, evs, THorizon);
      var s := Scored(ticks, evs, THorizon);
      && |off| == |on| == |s|
      && (forall k :: 0 <= k < |off| ==> SameOutcome(off[k], on[k]))
      && (forall k :: 0 <= k < |off| ==> s[k].exc.first < |ticks| && off[k].price0 == ticks[s[k].exc.first].price)
  {
    var s := Scored(ticks, evs, THorizon);
    OfflineMatchesRescan(ticks, evs);
    OfflineRecordsAt(s);
    RecordsAt(s);
    ScoredWellScored(ticks, evs, THorizon);
  }

  /**
   * Each record's fifth field is a positive reference price between the scan's extremes,
   * and its MFE/MAE have the signs its direction promises.
   */
  predicate Signed(o: OfflineRecord) {
    && o.price0 > 0.0
    && (o.direction < 0 ==> o.mfe30 <= 0.0 <= o.mae30)
    && (o.direction >= 0 ==> o.mae30 <= 0.0 <= o.mfe30)
  }

  lemma {:induction false} OfflineRecordsSigned(ticks: seq<Tick>, evs: seq<SweepEvent>)
    requires PositivePrices(ticks)
    ensures forall k :: 0 <= k < |OfflineRun(ticks, evs).results| ==> Signed(OfflineRun(ticks, evs).results[k])
    decreases |evs|
  {
    if evs != [] {
      var init := evs[..|evs| - 1];
      var ev := evs[|evs| - 1];
      OfflineRecordsSigned(ticks, init);
      var st := OfflineRun(ticks, init);
      var r := ScoreFrom(ticks, st.idx, ev.tsEnd, THorizon);
      if r.Some? {
        ExcursionSigns(ev.direction, r.value);
        var rs := OfflineRun(ticks, evs).results;
        assert rs == st.results + [OfflineRecordOf(ScoredEvent(ev, r.value))];
        assert Signed(rs[|rs| - 1]);
      }
    }
  }

  /**
   * The body of the event loop once the pointer sits on the reference tick: the horizon scan
   * from the pointer, the skip when it is empty, and the record otherwise.
   */
  method ScoreAtPointer(ticks: seq<Tick>, idx: nat, ev: SweepEvent) returns (rec: Option<OfflineRecord>)
    requires PositivePrices(ticks) && idx < |ticks| && ticks[idx].ts >= ev.tsEnd
    ensures rec == match ScoreFrom(ticks, idx, ev.tsEnd, THorizon)
      case None => None
      case Some(x) => Some(OfflineRecordOf(ScoredEvent(ev, x)))
  {
    var t0 := ev.tsEnd;
    var t1 := t0 + THorizon;
    var price0 := ticks[idx].price;
    var j, maxPrice, minPrice := ScanHorizonFrom(ticks, idx, t1);
    if j == idx {
      return None;
    }
    var priceT := ticks[j - 1].price;
    var ret30 := (priceT - price0) / price0;
    var mfe30, mae30;
    if ev.direction < 0 {
      mfe30 := (minPrice - price0) / price0;
      mae30 := (maxPrice - price0) / price0;
    } else {
      mfe30 := (maxPrice - price0) / price0;
      mae30 := (minPrice - price0) / price0;
    }
    ghost var x := Excursion(idx, j - 1, price0, priceT, maxPrice, minPrice);
    assert ScoreFrom(ticks, idx, t0, THorizon) == Some(x);
    rec := Some(OfflineRecord(ev.direction, ret30, mfe30, mae30, price0));
  }

  /** `while idx < n and ticks[idx].ts < t0: idx += 1`. */
  method AdvancePointer(ticks: seq<Tick>, from: nat, t0: real) returns (idx: nat)
    requires from <= |ticks|
    ensures idx == FirstAtOrAfter(ticks, from, t0)
  {
    idx := from;
    while idx < |ticks| && ticks[idx].ts < t0
      invariant from <= idx <= |ticks|
      invariant forall m :: from <= m < idx ==> ticks[m].ts < t0
    {
      idx := idx + 1;
    }
    FirstAtOrAfterIs(ticks, from, idx, t0);
  }

  /**
   * `compute_ret_mfe_mae`: one pointer `idx` advanced across the events, a break when it runs
   * off the end of the ticks, and one record per event whose horizon scan is non-empty.
   */
  method OfflineComputeRetMfeMae(ticks: seq<Tick>, sweeps: seq<SweepEvent>) returns (results: seq<OfflineRecord>)
    requires PositivePrices(ticks)
    ensures results == OfflineRun(ticks, sweeps).results
  {
    var n := |ticks|;
    var idx: nat := 0;
    results := [];
    for k := 0 to |sweeps|
      invariant OfflineRun(ticks, sweeps[..k]) == OfflineState(idx, results)
    {
      var ev := sweeps[k];
      var t0 := ev.tsEnd;
      idx := AdvancePointer(ticks, idx, t0);
      OfflineRunStep(ticks, sweeps, k);
      if idx >= n {
        OfflineDone(ticks, sweeps, k + 1);
        break;
      }
      FirstAtOrAfterIs(ticks, idx, idx, t0);
      var rec := ScoreAtPointer(ticks, idx, ev);
      if rec.None? {
        continue;
      }
      results := results + [rec.value];
    }
    assert sweeps[..|sweeps|] == sweeps;
  }
}
