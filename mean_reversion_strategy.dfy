/**
 * `MeanReversionStrategy` of cpp/mean_reversion_strategy.cpp: a contrarian position state
 * machine. A sweep opens a position against its direction when flat; while in position a
 * take-profit, a stop-loss, a hold timeout or an opposite sweep closes it.
 */
module MeanReversion {
  import opened Market

  /** `StrategyActionType`. */
  datatype ActionType = Idle | OpenLong | OpenShort | Close

  /** `StrategyAction`: what to do, the position direction (1 long, -1 short), price and time. */
  datatype StrategyAction = StrategyAction(kind: ActionType, dir: int, price: real, ts: real)

  /** A default-constructed `StrategyAction`. */
  const IdleAction := StrategyAction(Idle, 0, 0.0, 0.0)

  /** The four position fields as one value: flat, or holding a direction from an entry. */
  datatype Position = Flat | Holding(dir: int, entryPrice: real, entryTs: real)

  /** A held direction is long (1) or short (-1). */
  predicate WellFormed(p: Position) {
    p.Holding? ==> p.dir == 1 || p.dir == -1
  }

  // ---------------------------------------------------------------------------
  // The return of on_tick

  /**
   * `(price - entry_price) / entry_price * 10000`, in basis points. A zero entry price gives
   * the IEEE results of dividing by zero: +inf, -inf, or NaN for a zero price.
   */
  datatype Ret = Finite(v: real) | PlusInf | MinusInf | NotANumber

  function ReturnBp(price: real, entry: real): Ret {
    if entry != 0.0 then Finite((price - entry) / entry * 10000.0)
    else if price > 0.0 then PlusInf
    else if price < 0.0 then MinusInf
    else NotANumber
  }

  /** `ret >= bound` (false on NaN). */
  predicate GainAtLeast(r: Ret, bound: real) {
    match r
    case Finite(v) => v >= bound
    case PlusInf => true
    case MinusInf => false
    case NotANumber => false
  }

  /** `-ret >= bound` (false on NaN). */
  predicate LossAtLeast(r: Ret, bound: real) {
    match r
    case Finite(v) => -v >= bound
    case PlusInf => false
    case MinusInf => true
    case NotANumber => false
  }

  /**
   * With a positive entry price the basis-point tests are price thresholds: a gain of at
   * least `b` bp means `(price - entry) * 10000 >= b * entry`, a loss of at least `b` bp means
   * `(entry - price) * 10000 >= b * entry`.
   */
  lemma ReturnBpMeans(price: real, entry: real, b: real)
    requires entry > 0.0
    ensures GainAtLeast(ReturnBp(price, entry), b) <==> (price - entry) * 10000.0 >= b * entry
    ensures LossAtLeast(ReturnBp(price, entry), b) <==> (entry - price) * 10000.0 >= b * entry
  {
    var q := (price - entry) / entry;
    assert q * entry == price - entry;
    var r := q * 10000.0;
    assert (r - b) * entry == (price - entry) * 10000.0 - b * entry;
    assert (-r - b) * entry == (entry - price) * 10000.0 - b * entry;
    SignOfScaled(r - b, entry);
    SignOfScaled(-r - b, entry);
  }

  /** Scaling by a positive factor keeps the sign. */
  lemma SignOfScaled(x: real, t: real)
    requires t > 0.0
    ensures x * t >= 0.0 <==> x >= 0.0
  {
  }

  // ---------------------------------------------------------------------------
  // The transitions

  /** `on_sweep(ev)` on the position: the new position and the action returned. */
  function SweepStep(p: Position, ev: SweepEvent, delayMs: real): (Position, StrategyAction) {
    match p
    case Holding(d, _, _) =>
      if ev.direction != 0 && ev.direction == -d then (Flat, StrategyAction(Close, d, ev.priceEnd, ev.tsEnd))
      else (p, IdleAction)
    case Flat =>
      var tsEnter := ev.tsEnd + delayMs / 1000.0;
      if ev.direction > 0 then (Holding(-1, ev.priceEnd, tsEnter), StrategyAction(OpenShort, -1, ev.priceEnd, tsEnter))
      else if ev.direction < 0 then (Holding(1, ev.priceEnd, tsEnter), StrategyAction(OpenLong, 1, ev.priceEnd, tsEnter))
      else (Flat, IdleAction.(ts := tsEnter))
  }

  /** `on_tick(ts, price)` on the position: the new position and the action returned. */
  function TickStep(p: Position, ts: real, price: real, holdSec: real, tpBp: real, slBp: real): (Position, StrategyAction) {
    match p
    case Flat => (Flat, IdleAction)
    case Holding(d, entry, entryTs) =>
      var r := ReturnBp(price, entry);
      var close := (Flat, StrategyAction(Close, d, price, ts));
      if d == 1 && GainAtLeast(r, tpBp) then close
      else if d == -1 && LossAtLeast(r, tpBp) then close
      else if d == 1 && LossAtLeast(r, slBp) then close
      else if d == -1 && GainAtLeast(r, slBp) then close
      else if ts - entryTs >= holdSec then close
      else (p, IdleAction)
  }

  /**
   * `on_sweep` when flat opens against the sweep: an Up sweep (direction > 0) opens short, a
   * Down sweep opens long, both at the event's end price and at its end time plus the delay;
   * direction 0 stays flat with an Idle action.
   */
  lemma SweepStepFlat(ev: SweepEvent, delayMs: real)
    ensures var (p, act) := SweepStep(Flat, ev, delayMs);
      var tsEnter := ev.tsEnd + delayMs / 1000.0;
      && WellFormed(p)
      && (ev.direction > 0 <==> act.kind == OpenShort)
      && (ev.direction < 0 <==> act.kind == OpenLong)
      && (ev.direction == 0 <==> act.kind == Idle)
      && (ev.direction == 0 ==> p == Flat)
      && (ev.direction != 0 ==>
            && act.dir * ev.direction < 0
            && act.price == ev.priceEnd && act.ts == tsEnter
            && p == Holding(act.dir, ev.priceEnd, tsEnter))
  {
  }

  /**
   * `on_sweep` in position never opens: it closes at the event's end price and time exactly
   * when the sweep runs opposite to the position's direction and reports the direction it
   * closes; otherwise the position and an Idle action stay.
   */
  lemma SweepStepHolding(p: Position, ev: SweepEvent, delayMs: real)
    requires p.Holding? && WellFormed(p)
    ensures var (p', act) := SweepStep(p, ev, delayMs);
      && act.kind != OpenLong && act.kind != OpenShort
      && (act.kind == Close <==> ev.direction == -p.dir)
      && (act.kind == Close ==> p' == Flat && act.dir == p.dir && act.price == ev.priceEnd && act.ts == ev.tsEnd)
      && (act.kind != Close ==> p' == p && act == IdleAction)
  {
  }

  /**
   * `on_tick` when flat returns an Idle action and stays flat; in position it either closes at
   * the tick, reporting the direction it had, or keeps the position with an Idle action. A
   * tick at least `hold_sec` after the entry always closes.
   */
  lemma TickStepSpec(p: Position, ts: real, price: real, holdSec: real, tpBp: real, slBp: real)
    requires WellFormed(p)
    ensures var (p', act) := TickStep(p, ts, price, holdSec, tpBp, slBp);
      && (p == Flat ==> p' == Flat && act == IdleAction)
      && (act.kind == Idle || act.kind == Close)
      && (act.kind == Close ==> p.Holding? && p' == Flat && act.dir == p.dir && act.price == price && act.ts == ts)
      && (act.kind != Close ==> p' == p && act == IdleAction)
      && (p.Holding? && ts - p.entryTs >= holdSec ==> act.kind == Close)
  {
  }

  /**
   * A long position with a positive entry price closes exactly when the price has risen by
   * `tp_bp` basis points, fallen by `sl_bp` basis points, or `hold_sec` has passed.
   */
  lemma LongCloses(entry: real, entryTs: real, ts: real, price: real, holdSec: real, tpBp: real, slBp: real)
    requires entry > 0.0
    ensures TickStep(Holding(1, entry, entryTs), ts, price, holdSec, tpBp, slBp).1.kind == Close <==>
      || (price - entry) * 10000.0 >= tpBp * entry
      || (entry - price) * 10000.0 >= slBp * entry
      || ts - entryTs >= holdSec
  {
    ReturnBpMeans(price, entry, tpBp);
    ReturnBpMeans(price, entry, slBp);
  }

  /**
   * A short position with a positive entry price closes exactly when the price has fallen by
   * `tp_bp` basis points, risen by `sl_bp` basis points, or `hold_sec` has passed.
   */
  lemma ShortCloses(entry: real, entryTs: real, ts: real, price: real, holdSec: real, tpBp: real, slBp: real)
    requires entry > 0.0
    ensures TickStep(Holding(-1, entry, entryTs), ts, price, holdSec, tpBp, slBp).1.kind == Close <==>
      || (entry - price) * 10000.0 >= tpBp * entry
      || (price - entry) * 10000.0 >= slBp * entry
      || ts - entryTs >= holdSec
  {
    ReturnBpMeans(price, entry, tpBp);
    ReturnBpMeans(price, entry, slBp);
  }

  class MeanReversionStrategy {
    const delayMs: real
    const holdSec: real
    const tpBp: real
    const slBp: real

    var inPosition: bool
    var posDir: int
    var entryPrice: real
    var entryTs: real

    /** In position exactly when the direction is 1 or -1; flat means all four fields are zero. */
    ghost predicate Valid()
      reads this
    {
      && (inPosition <==> posDir == 1 || posDir == -1)
      && (!inPosition ==> posDir == 0 && entryPrice == 0.0 && entryTs == 0.0)
    }

    /** The four position fields as a `Position`. */
    ghost function State(): (p: Position)
      reads this
      requires Valid()
      ensures WellFormed(p)
    {
      if inPosition then Holding(posDir, entryPrice, entryTs) else Flat
    }

    constructor(delayMs: real, holdSec: real, tpBp: real, slBp: real)
      ensures Valid() && State() == Flat
      ensures this.delayMs == delayMs && this.holdSec == holdSec && this.tpBp == tpBp && this.slBp == slBp
    {
      this.delayMs := delayMs;
      this.holdSec := holdSec;
      this.tpBp := tpBp;
      this.slBp := slBp;
      inPosition := false;
      posDir := 0;
      entryPrice := 0.0;
      entryTs := 0.0;
    }

    /** `clear_position()`. */
    method ClearPosition()
      modifies this
      ensures Valid() && State() == Flat
      ensures !inPosition && posDir == 0 && entryPrice == 0.0 && entryTs == 0.0
    {
      inPosition := false;
      posDir := 0;
      entryPrice := 0.0;
      entryTs := 0.0;
    }

    /** `on_sweep(ev)`. */
    method OnSweep(ev: SweepEvent) returns (act: StrategyAction)
      requires Valid()
      modifies this
      ensures Valid() && (State(), act) == SweepStep(old(State()), ev, delayMs)
    {
      act := IdleAction;
      if inPosition {
        if ev.direction != 0 && ev.direction == -posDir {
          act := StrategyAction(Close, posDir, ev.priceEnd, ev.tsEnd);
          ClearPosition();
        }
        return;
      }
      var delaySec := delayMs / 1000.0;
      var tsEnter := ev.tsEnd + delaySec;
      act := act.(ts := tsEnter);
      if ev.direction > 0 {
        act := act.(kind := OpenShort, dir := -1);
      } else if ev.direction < 0 {
        act := act.(kind := OpenLong, dir := 1);
      } else {
        return;
      }
      act := act.(price := ev.priceEnd);
      inPosition := true;
      posDir := act.dir;
      entryPrice := act.price;
      entryTs := act.ts;
    }

    /** `on_tick(ts, price)`. */
    method OnTick(ts: real, price: real) returns (act: StrategyAction)
      requires Valid()
      modifies this
      ensures Valid() && (State(), act) == TickStep(old(State()), ts, price, holdSec, tpBp, slBp)
    {
      act := IdleAction;
      if !inPosition {
        return;
      }
      var ret := ReturnBp(price, entryPrice);
      var close := StrategyAction(Close, posDir, price, ts);
      if posDir == 1 && GainAtLeast(ret, tpBp) {
        act := close;
        ClearPosition();
        return;
      }
      if posDir == -1 && LossAtLeast(ret, tpBp) {
        act := close;
        ClearPosition();
        return;
      }
      if posDir == 1 && LossAtLeast(ret, slBp) {
        act := close;
        ClearPosition();
        return;
      }
      if posDir == -1 && GainAtLeast(ret, slBp) {
        act := close;
        ClearPosition();
        return;
      }
      if ts - entryTs >= holdSec {
        act := close;
        ClearPosition();
        return;
      }
    }
  }
}
