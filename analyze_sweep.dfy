/**
 * analyze_sweep.py: the filter that keeps only directed events from the streaming model's
 * output (`generate_sweeps_from_ticks`) and the rescanning forward evaluator
 * (`compute_ret_mfe_mae`).
 */
module AnalyzeSweep {
  import opened Wrappers
  import opened Market
  import opened ForwardOutcome

  /** Forward horizon used by `main` (T_HORIZON). */
  const THorizon: real := 30.0

  /**
   * The events that survive the filter: for each tick the model either reported nothing or
   * reported an event, and events of direction 0 are dropped.
   */
  function Directed(reported: seq<Option<SweepEvent>>): (r: seq<SweepEvent>)
    ensures |r| <= |reported|
  {
    if reported == [] then []
    else
      var last := reported[|reported| - 1];
      Directed(reported[..|reported| - 1]) +
        (if last.Some? && last.value.direction != 0 then [last.value] else [])
  }

  /**
   * The event loop of `generate_sweeps_from_ticks` after the model has run: a reported event
   * of direction 0 is skipped, every other one is appended.
   */
  method CollectSweeps(reported: seq<Option<SweepEvent>>) returns (sweeps: seq<SweepEvent>)
    ensures sweeps == Directed(reported)
  {
    sweeps := [];
    for k := 0 to |reported|
      invariant sweeps == Directed(reported[..k])
    {
      assert reported[..k + 1][..k] == reported[..k];
      var sig := reported[k];
      if sig.Some? {
        var ev := sig.value;
        if ev.direction == 0 {
          continue;
        }
        sweeps := sweeps + [ev];
      }
    }
    assert reported[..|reported|] == reported;
  }

  /** No event of direction 0 reaches the evaluator, and every kept event was reported. */
  lemma {:induction false} DirectedSpec(reported: seq<Option<SweepEvent>>)
    ensures forall e :: e in Directed(reported) ==> e.direction != 0 && Some(e) in reported
    decreases |reported|
  {
    if reported != [] {
      var init := reported[..|reported| - 1];
      DirectedSpec(init);
      assert forall o :: o in init ==> o in reported;
    }
  }

  /** Every reported event of non-zero direction is kept. */
  lemma {:induction false} DirectedKeepsAll(reported: seq<Option<SweepEvent>>)
    ensures forall e :: Some(e) in reported && e.direction != 0 ==> e in Directed(reported)
    decreases |reported|
  {
    if reported != [] {
      var init := reported[..|reported| - 1];
      DirectedKeepsAll(init);
      assert forall o :: o in reported ==> o in init || o == reported[|reported| - 1];
    }
  }

  /**
   * `compute_ret_mfe_mae`: for every event, a linear search from the first tick for the
   * reference tick, the horizon scan, and one (direction, ret_h, mfe_h, mae_h, volume_total)
   * record unless the event is skipped.
   */
  method ComputeRetMfeMae(ticks: seq<Tick>, sweeps: seq<SweepEvent>, horizon: real) returns (results: seq<OutcomeRecord>)
    requires PositivePrices(ticks)
    ensures results == Evaluate(ticks, sweeps, horizon)
  {
    results := [];
    for k := 0 to |sweeps|
      invariant results == Evaluate(ticks, sweeps[..k], horizon)
    {
      var ev := sweeps[k];
      EvaluateStep(ticks, sweeps, k, horizon);
      var r := ScanEvent(ticks, ev.tsEnd, horizon);
      if r.None? {
        continue;
      }
      var x := r.value;
      var price0 := x.price0;
      var retH := (x.priceT - price0) / price0;
      var mfeH, maeH;
      if ev.direction < 0 {
        mfeH := (x.minPrice - price0) / price0;
        maeH := (x.maxPrice - price0) / price0;
      } else {
        mfeH := (x.maxPrice - price0) / price0;
        maeH := (x.minPrice - price0) / price0;
      }
      assert OutcomeRecord(ev.direction, retH, mfeH, maeH, ev.volumeTotal) == Record(ScoredEvent(ev, x));
      results := results + [OutcomeRecord(ev.direction, retH, mfeH, maeH, ev.volumeTotal)];
    }
    assert sweeps[..|sweeps|] == sweeps;
  }
}
