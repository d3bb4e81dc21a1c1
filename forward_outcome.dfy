/**
 * The forward-outcome evaluator shared by analyze_sweep.py, sweep_param_scan.py and
 * offline_analyze.py: for an event ending at t0, the reference price is the first tick at
 * or after t0, the horizon scan runs while ts <= t0 + horizon, and the event is scored
 * from the running maximum and minimum of that scan.
 */
module ForwardOutcome {
  import opened Wrappers
  import opened Market

  /** Index of the first tick at or after `from` with ts >= t0, or |ticks| if there is none. */
  function FirstAtOrAfter(ticks: seq<Tick>, from: nat, t0: real): (i: nat)
    requires from <= |ticks|
    ensures from <= i <= |ticks|
    ensures i < |ticks| ==> ticks[i].ts >= t0
    decreases |ticks| - from
  {
    if from == |ticks| || ticks[from].ts >= t0 then from else FirstAtOrAfter(ticks, from + 1, t0)
  }

  /** Every tick the search skips lies before t0. */
  lemma {:induction false} FirstAtOrAfterSpec(ticks: seq<Tick>, from: nat, t0: real)
    requires from <= |ticks|
    ensures forall k :: from <= k < FirstAtOrAfter(ticks, from, t0) ==> ticks[k].ts < t0
    decreases |ticks| - from
  {
    if from < |ticks| && ticks[from].ts < t0 {
      FirstAtOrAfterSpec(ticks, from + 1, t0);
    }
  }

  /**
   * What the horizon scan of one event sees: the reference tick `first` and its price,
   * the last tick `last` of the scan and its price, and the extremes of the scan.
   */
  datatype Excursion = Excursion(
    first: nat,
    last: nat,
    price0: real,
    priceT: real,
    maxPrice: real,
    minPrice: real)

  /**
   * The horizon scan of an event ending at t0, with the search for the reference tick
   * started at index `from`. None when no tick at or after `from` lies at or after t0, or
   * when the first such tick is already beyond t0 + horizon (the scan is empty).
   */
  function ScoreFrom(ticks: seq<Tick>, from: nat, t0: real, horizon: real): (r: Option<Excursion>)
    requires from <= |ticks|
    ensures var i0 := FirstAtOrAfter(ticks, from, t0);
      r.None? <==> (i0 == |ticks| || ticks[i0].ts > t0 + horizon)
    ensures r.Some? ==>
      && r.value.first == FirstAtOrAfter(ticks, from, t0)
      && r.value.first <= r.value.last < |ticks|
      && r.value.price0 == ticks[r.value.first].price
      && r.value.priceT == ticks[r.value.last].price
      && r.value.minPrice <= r.value.price0 <= r.value.maxPrice
  {
    var i0 := FirstAtOrAfter(ticks, from, t0);
    if i0 == |ticks| then None
    else
      var j := ScanEnd(ticks, i0, t0 + horizon);
      if j == i0 then None
      else
        var p0 := ticks[i0].price;
        Some(Excursion(i0, j - 1, p0, ticks[j - 1].price,
                       MaxPrice(ticks[i0..j], p0), MinPrice(ticks[i0..j], p0)))
  }

  /** The rescanning evaluators search for the reference tick from index 0. */
  function Score(ticks: seq<Tick>, t0: real, horizon: real): Option<Excursion> {
    ScoreFrom(ticks, 0, t0, horizon)
  }

  /**
   * Resuming the search at `from` changes nothing when every tick before `from` lies
   * before t0: the monotone pointer finds the same reference tick as a search from 0.
   */
  lemma {:induction false} FirstAtOrAfterResume(ticks: seq<Tick>, a: nat, from: nat, t0: real)
    requires a <= from <= |ticks|
    requires forall m :: a <= m < from ==> ticks[m].ts < t0
    ensures FirstAtOrAfter(ticks, a, t0) == FirstAtOrAfter(ticks, from, t0)
    decreases from - a
  {
    if a < from {
      FirstAtOrAfterResume(ticks, a + 1, from, t0);
    }
  }

  lemma ScoreResume(ticks: seq<Tick>, from: nat, t0: real, horizon: real)
    requires from <= |ticks|
    requires forall m :: 0 <= m < from ==> ticks[m].ts < t0
    ensures ScoreFrom(ticks, from, t0, horizon) == Score(ticks, t0, horizon)
  {
    FirstAtOrAfterResume(ticks, 0, from, t0);
  }

  /** The reference tick is the first at or after t0, and the scan stays within t0 + horizon. */
  lemma ScoreTimes(ticks: seq<Tick>, t0: real, horizon: real)
    ensures var r := Score(ticks, t0, horizon);
      r.Some? ==>
        && t0 <= ticks[r.value.first].ts
        && (forall k :: 0 <= k < r.value.first ==> ticks[k].ts < t0)
        && (forall k :: r.value.first <= k <= r.value.last ==> ticks[k].ts <= t0 + horizon)
  {
    var r := Score(ticks, t0, horizon);
    if r.Some? {
      FirstAtOrAfterSpec(ticks, 0, t0);
      ScanEndSpec(ticks, r.value.first, t0 + horizon);
    }
  }

  /** The extremes bound every price the scan covers and are prices it covers. */
  lemma ScoreExtremes(ticks: seq<Tick>, t0: real, horizon: real)
    ensures var r := Score(ticks, t0, horizon);
      r.Some? ==>
        var x := r.value;
        && (forall k :: x.first <= k <= x.last ==> x.minPrice <= ticks[k].price <= x.maxPrice)
        && PriceIn(ticks[x.first..x.last + 1], x.maxPrice)
        && PriceIn(ticks[x.first..x.last + 1], x.minPrice)
  {
    var r := Score(ticks, t0, horizon);
    if r.Some? {
      var x := r.value;
      var w := ticks[x.first..x.last + 1];
      assert x.maxPrice == MaxPrice(w, x.price0) && x.minPrice == MinPrice(w, x.price0);
      MaxPriceIsMax(w, x.price0);
      MinPriceIsMin(w, x.price0);
      assert w[0].price == x.price0;
      forall k | x.first <= k <= x.last
        ensures x.minPrice <= ticks[k].price <= x.maxPrice
      {
        assert w[k - x.first] == ticks[k];
      }
    }
  }

  /** With ordered ticks, the scan stops at the horizon: every later tick lies beyond it. */
  lemma ScoreStopsAtHorizon(ticks: seq<Tick>, t0: real, horizon: real)
    requires TimeOrdered(ticks)
    ensures var r := Score(ticks, t0, horizon);
      r.Some? ==> forall k :: r.value.last < k < |ticks| ==> ticks[k].ts > t0 + horizon
  {
    var r := Score(ticks, t0, horizon);
    if r.Some? {
      var j := r.value.last + 1;
      if j < |ticks| {
        forall k | j <= k < |ticks|
          ensures ticks[k].ts > t0 + horizon
        {
          OrderedMono(ticks, j, k);
        }
      }
    }
  }

  /** An event together with the horizon scan that scored it. */
  datatype ScoredEvent = ScoredEvent(event: SweepEvent, exc: Excursion)

  /** The events that get scored, in their input order, each with its scan. */
  function Scored(ticks: seq<Tick>, evs: seq<SweepEvent>, horizon: real): (r: seq<ScoredEvent>)
    ensures |r| <= |evs|
  {
    if evs == [] then []
    else
      var ev := evs[|evs| - 1];
      var prefix := Scored(ticks, evs[..|evs| - 1], horizon);
      match Score(ticks, ev.tsEnd, horizon)
      case None => prefix
      case Some(x) => prefix + [ScoredEvent(ev, x)]
  }

  /** Every scored event has a strictly positive reference price. */
  predicate PositiveReferences(s: seq<ScoredEvent>) {
    forall k :: 0 <= k < |s| ==> s[k].exc.price0 > 0.0
  }

  /** Every scored event's scan starts at a real tick, whose price lies between the extremes. */
  predicate WellScored(ticks: seq<Tick>, s: seq<ScoredEvent>) {
    forall k :: 0 <= k < |s| ==>
      && s[k].exc.first < |ticks|
      && s[k].exc.price0 == ticks[s[k].exc.first].price
      && s[k].exc.minPrice <= s[k].exc.price0 <= s[k].exc.maxPrice
  }

  lemma {:induction false} ScoredWellScored(ticks: seq<Tick>, evs: seq<SweepEvent>, horizon: real)
    ensures WellScored(ticks, Scored(ticks, evs, horizon))
    decreases |evs|
  {
    if evs != [] {
      ScoredWellScored(ticks, evs[..|evs| - 1], horizon);
    }
  }

  lemma ScoredReferencesPositive(ticks: seq<Tick>, evs: seq<SweepEvent>, horizon: real)
    requires PositivePrices(ticks)
    ensures PositiveReferences(Scored(ticks, evs, horizon))
  {
    ScoredWellScored(ticks, evs, horizon);
  }

  /** One output record of the evaluator: (direction, ret_h, mfe_h, mae_h, volume_total). */
  datatype OutcomeRecord = OutcomeRecord(direction: int, retH: real, mfeH: real, maeH: real, volumeTotal: real)

  /** Return to the horizon end relative to the reference price. */
  function Ret(x: Excursion): real
    requires x.price0 > 0.0
  {
    (x.priceT - x.price0) / x.price0
  }

  /**
   * Direction-adjusted excursions: for a Down event (direction < 0) the favourable one is the
   * minimum and the adverse one the maximum; for any other direction the other way round.
   */
  function Excursions(direction: int, x: Excursion): (r: (real, real))
    requires x.price0 > 0.0
  {
    var up := (x.maxPrice - x.price0) / x.price0;
    var down := (x.minPrice - x.price0) / x.price0;
    if direction < 0 then (down, up) else (up, down)
  }

  function Record(s: ScoredEvent): OutcomeRecord
    requires s.exc.price0 > 0.0
  {
    var (mfe, mae) := Excursions(s.event.direction, s.exc);
    OutcomeRecord(s.event.direction, Ret(s.exc), mfe, mae, s.event.volumeTotal)
  }

  function Records(s: seq<ScoredEvent>): (r: seq<OutcomeRecord>)
    requires PositiveReferences(s)
    ensures |r| == |s|
  {
    if s == [] then [] else Records(s[..|s| - 1]) + [Record(s[|s| - 1])]
  }

  /** The evaluator's output: one record per scored event, in event order. */
  function Evaluate(ticks: seq<Tick>, evs: seq<SweepEvent>, horizon: real): seq<OutcomeRecord>
    requires PositivePrices(ticks)
  {
    ScoredReferencesPositive(ticks, evs, horizon);
    Records(Scored(ticks, evs, horizon))
  }

  /** The index search `for i in range(n): if ts[i] >= t0: break` lands where FirstAtOrAfter says. */
  lemma {:induction false} FirstAtOrAfterIs(ticks: seq<Tick>, from: nat, i: nat, t0: real)
    requires from <= i <= |ticks|
    requires forall m :: from <= m < i ==> ticks[m].ts < t0
    requires i < |ticks| ==> ticks[i].ts >= t0
    ensures FirstAtOrAfter(ticks, from, t0) == i
    decreases i - from
  {
    if from < i {
      FirstAtOrAfterIs(ticks, from + 1, i, t0);
    }
  }

  /**
   * The horizon scan `while j < n and ts[j] <= t1`, started at the reference tick i0, keeping
   * the running maximum and minimum price.
   */
  method ScanHorizonFrom(ticks: seq<Tick>, i0: nat, t1: real) returns (j: nat, maxP: real, minP: real)
    requires i0 < |ticks|
    ensures j == ScanEnd(ticks, i0, t1)
    ensures maxP == MaxPrice(ticks[i0..j], ticks[i0].price) && minP == MinPrice(ticks[i0..j], ticks[i0].price)
  {
    var p0 := ticks[i0].price;
    maxP, minP := p0, p0;
    j := i0;
    while j < |ticks| && ticks[j].ts <= t1
      invariant i0 <= j <= |ticks|
      invariant ScanEnd(ticks, j, t1) == ScanEnd(ticks, i0, t1)
      invariant maxP == MaxPrice(ticks[i0..j], p0) && minP == MinPrice(ticks[i0..j], p0)
    {
      SliceStep(ticks, i0, j, p0);
      var p := ticks[j].price;
      if p > maxP {
        maxP := p;
      }
      if p < minP {
        minP := p;
      }
      j := j + 1;
    }
  }

  /**
   * One event's scan as analyze_sweep.py and sweep_param_scan.py write it: a linear search
   * from index 0 for the reference tick, then the horizon scan.
   */
  method ScanEvent(ticks: seq<Tick>, t0: real, horizon: real) returns (r: Option<Excursion>)
    ensures r == Score(ticks, t0, horizon)
  {
    var n := |ticks|;
    var i := 0;
    while i < n && ticks[i].ts < t0
      invariant 0 <= i <= n
      invariant forall m :: 0 <= m < i ==> ticks[m].ts < t0
    {
      i := i + 1;
    }
    FirstAtOrAfterIs(ticks, 0, i, t0);
    if i == n {
      return None;
    }
    var i0 := i;
    var j, maxP, minP := ScanHorizonFrom(ticks, i0, t0 + horizon);
    if j == i0 {
      return None;
    }
    r := Some(Excursion(i0, j - 1, ticks[i0].price, ticks[j - 1].price, maxP, minP));
  }

  /** Evaluating one more event appends at most its own record. */
  lemma EvaluateStep(ticks: seq<Tick>, evs: seq<SweepEvent>, k: nat, horizon: real)
    requires PositivePrices(ticks) && k < |evs|
    ensures Evaluate(ticks, evs[..k + 1], horizon) ==
      Evaluate(ticks, evs[..k], horizon) +
      match Score(ticks, evs[k].tsEnd, horizon)
      case None => []
      case Some(x) => [Record(ScoredEvent(evs[k], x))]
  {
    var prefix := evs[..k + 1];
    assert prefix[..|prefix| - 1] == evs[..k] && prefix[|prefix| - 1] == evs[k];
    var s := Scored(ticks, prefix, horizon);
    ScoredReferencesPositive(ticks, prefix, horizon);
    if s != [] {
      assert s[..|s| - 1] == Scored(ticks, evs[..k], horizon) || Score(ticks, evs[k].tsEnd, horizon).None?;
    }
  }

  // ---------------------------------------------------------------------------
  // Properties of the evaluator

  /** The favourable and adverse excursions have the signs the direction promises. */
  lemma ExcursionSigns(direction: int, x: Excursion)
    requires x.price0 > 0.0 && x.minPrice <= x.price0 <= x.maxPrice
    ensures var (mfe, mae) := Excursions(direction, x);
      && (direction < 0 ==> mfe <= 0.0 <= mae)
      && (direction >= 0 ==> mae <= 0.0 <= mfe)
  {
    var up := (x.maxPrice - x.price0) / x.price0;
    var down := (x.minPrice - x.price0) / x.price0;
    assert x.maxPrice - x.price0 >= 0.0;
    assert up >= 0.0;
    assert down <= 0.0;
  }

  /** Swapping an Up event for a Down one over the same scan swaps its MFE and MAE. */
  lemma ExcursionsSwapWithDirection(x: Excursion)
    requires x.price0 > 0.0
    ensures Excursions(-1, x).0 == Excursions(1, x).1
    ensures Excursions(-1, x).1 == Excursions(1, x).0
  {
  }

  /**
   * The horizon return of a scored event lies between its two excursions: for an Up event
   * mae <= ret <= mfe, for a Down event mfe <= ret <= mae.
   */
  lemma RetWithinExcursions(ticks: seq<Tick>, t0: real, horizon: real, direction: int)
    requires PositivePrices(ticks)
    requires Score(ticks, t0, horizon).Some?
    ensures var x := Score(ticks, t0, horizon).value;
      x.price0 > 0.0 &&
      var (mfe, mae) := Excursions(direction, x);
      && (direction >= 0 ==> mae <= Ret(x) <= mfe)
      && (direction < 0 ==> mfe <= Ret(x) <= mae)
  {
    ScoreExtremes(ticks, t0, horizon);
    var x := Score(ticks, t0, horizon).value;
    assert x.price0 == ticks[x.first].price > 0.0;
    assert x.minPrice <= ticks[x.last].price <= x.maxPrice;
    DivideKeepsOrder(x.minPrice - x.price0, x.priceT - x.price0, x.price0);
    DivideKeepsOrder(x.priceT - x.price0, x.maxPrice - x.price0, x.price0);
  }

  /** Dividing by a positive number keeps the order. */
  lemma DivideKeepsOrder(a: real, b: real, d: real)
    requires a <= b && d > 0.0
    ensures a / d <= b / d
  {
    assert b / d - a / d == (b - a) / d;
  }

  /** Evaluation distributes over concatenation of event lists: output order follows event order. */
  lemma {:induction false} ScoredAppend(ticks: seq<Tick>, a: seq<SweepEvent>, b: seq<SweepEvent>, horizon: real)
    ensures Scored(ticks, a + b, horizon) == Scored(ticks, a, horizon) + Scored(ticks, b, horizon)
    decreases |b|
  {
    if b == [] {
      assert a + b == a;
    } else {
      var b' := b[..|b| - 1];
      assert (a + b)[..|a + b| - 1] == a + b';
      assert (a + b)[|a + b| - 1] == b[|b| - 1];
      ScoredAppend(ticks, a, b', horizon);
    }
  }

  lemma {:induction false} RecordsAppend(s: seq<ScoredEvent>, t: seq<ScoredEvent>)
    requires PositiveReferences(s) && PositiveReferences(t)
    ensures PositiveReferences(s + t)
    ensures Records(s + t) == Records(s) + Records(t)
    decreases |t|
  {
    assert forall k :: 0 <= k < |s + t| ==> (s + t)[k] == if k < |s| then s[k] else t[k - |s|];
    if t == [] {
      assert s + t == s;
    } else {
      var t' := t[..|t| - 1];
      assert (s + t)[..|s + t| - 1] == s + t';
      RecordsAppend(s, t');
    }
  }

  /** Evaluating a concatenation gives the concatenated outputs, in order. */
  lemma EvaluateAppend(ticks: seq<Tick>, a: seq<SweepEvent>, b: seq<SweepEvent>, horizon: real)
    requires PositivePrices(ticks)
    ensures Evaluate(ticks, a + b, horizon) == Evaluate(ticks, a, horizon) + Evaluate(ticks, b, horizon)
  {
    ScoredAppend(ticks, a, b, horizon);
    ScoredReferencesPositive(ticks, a, horizon);
    ScoredReferencesPositive(ticks, b, horizon);
    RecordsAppend(Scored(ticks, a, horizon), Scored(ticks, b, horizon));
  }

  /** Every scored event is one of the input events. */
  lemma {:induction false} ScoredFromEvents(ticks: seq<Tick>, evs: seq<SweepEvent>, horizon: real)
    ensures forall k :: 0 <= k < |Scored(ticks, evs, horizon)| ==> Scored(ticks, evs, horizon)[k].event in evs
    decreases |evs|
  {
    if evs != [] {
      var init := evs[..|evs| - 1];
      ScoredFromEvents(ticks, init, horizon);
      assert forall e :: e in init ==> e in evs;
    }
  }

  /** Records maps Record over the scored events, position by position. */
  lemma {:induction false} RecordsAt(s: seq<ScoredEvent>)
    requires PositiveReferences(s)
    ensures forall k :: 0 <= k < |s| ==> Records(s)[k] == Record(s[k])
    decreases |s|
  {
    if s != [] {
      RecordsAt(s[..|s| - 1]);
    }
  }

  /**
   * Every output record comes from one input event whose direction and volume it copies,
   * there are at most as many records as events, and the MFE/MAE signs hold.
   */
  lemma EvaluateRecordsFaithful(ticks: seq<Tick>, evs: seq<SweepEvent>, horizon: real)
    requires PositivePrices(ticks)
    ensures var out := Evaluate(ticks, evs, horizon);
      && |out| <= |evs|
      && (forall k :: 0 <= k < |out| ==>
            exists e :: e in evs && out[k].direction == e.direction && out[k].volumeTotal == e.volumeTotal)
      && (forall k :: 0 <= k < |out| && out[k].direction < 0 ==> out[k].mfeH <= 0.0 <= out[k].maeH)
      && (forall k :: 0 <= k < |out| && out[k].direction >= 0 ==> out[k].maeH <= 0.0 <= out[k].mfeH)
  {
    var s := Scored(ticks, evs, horizon);
    ScoredWellScored(ticks, evs, horizon);
    ScoredReferencesPositive(ticks, evs, horizon);
    ScoredFromEvents(ticks, evs, horizon);
    RecordsAt(s);
    var out := Evaluate(ticks, evs, horizon);
    forall k | 0 <= k < |out|
      ensures exists e :: e in evs && out[k].direction == e.direction && out[k].volumeTotal == e.volumeTotal
      ensures out[k].direction < 0 ==> out[k].mfeH <= 0.0 <= out[k].maeH
      ensures out[k].direction >= 0 ==> out[k].maeH <= 0.0 <= out[k].mfeH
    {
      assert out[k] == Record(s[k]);
      assert s[k].event in evs;
      ExcursionSigns(s[k].event.direction, s[k].exc);
    }
  }

  /** If no event has a tick at or after its end time, nothing is scored (and nothing fails). */
  lemma {:induction false} NoForwardDataNoRecords(ticks: seq<Tick>, evs: seq<SweepEvent>, horizon: real)
    requires PositivePrices(ticks)
    requires forall e, k :: e in evs && 0 <= k < |ticks| ==> ticks[k].ts < e.tsEnd
    ensures Evaluate(ticks, evs, horizon) == []
    decreases |evs|
  {
    if evs != [] {
      var init := evs[..|evs| - 1];
      assert forall e :: e in init ==> e in evs;
      NoForwardDataNoRecords(ticks, init, horizon);
      assert FirstAtOrAfter(ticks, 0, evs[|evs| - 1].tsEnd) == |ticks|;
    }
  }

  /**
   * The worked example: an Up event ending at t = 10 and ticks (10, 100), (20, 102), (40, 99)
   * with a 30 s horizon give ret_h = -0.01, mfe_h = 0.02 and mae_h = -0.01.
   */
  lemma EvaluateExample()
    ensures var ticks := [Tick(10.0, 100.0, 1.0, Buy), Tick(20.0, 102.0, 1.0, Buy), Tick(40.0, 99.0, 1.0, Sell)];
      var ev := SweepEvent(0.0, 10.0, 1, 100.0, 101.0, 5.0);
      PositivePrices(ticks) &&
      Evaluate(ticks, [ev], 30.0) == [OutcomeRecord(1, -0.01, 0.02, -0.01, 5.0)]
  {
    var ticks := [Tick(10.0, 100.0, 1.0, Buy), Tick(20.0, 102.0, 1.0, Buy), Tick(40.0, 99.0, 1.0, Sell)];
    var ev := SweepEvent(0.0, 10.0, 1, 100.0, 101.0, 5.0);
    var x := Excursion(0, 2, 100.0, 99.0, 102.0, 99.0);
    assert Score(ticks, 10.0, 30.0) == Some(x) by {
      assert FirstAtOrAfter(ticks, 0, 10.0) == 0;
      assert ScanEnd(ticks, 0, 40.0) == 3 by {
        assert ScanEnd(ticks, 2, 40.0) == 3;
        assert ScanEnd(ticks, 1, 40.0) == 3;
      }
      var w := ticks[0..3];
      assert w[..1] == [ticks[0]] && w[..2] == [ticks[0], ticks[1]];
      assert [ticks[0], ticks[1]][..1] == [ticks[0]];
      assert [ticks[0]][..0] == [];
      assert MaxPrice(w[..1], 100.0) == 100.0;
      assert MaxPrice(w[..2], 100.0) == 102.0;
      assert MaxPrice(w, 100.0) == 102.0;
      assert MinPrice(w[..1], 100.0) == 100.0;
      assert MinPrice(w[..2], 100.0) == 100.0;
      assert MinPrice(w, 100.0) == 99.0;
    }
    assert [ev][..0] == [];
    assert Scored(ticks, [ev], 30.0) == [ScoredEvent(ev, x)];
    var s := [ScoredEvent(ev, x)];
    assert s[..0] == [];
    assert Records(s) == [Record(ScoredEvent(ev, x))];
  }
}
