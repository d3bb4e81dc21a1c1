/**
 * `RollingExtreme` of cpp/orderflow_features.h: a sliding-window maximum and minimum kept in
 * two monotone deques of (timestamp, value) pairs. `add` drops from the back every entry the
 * new value covers, appends it, then evicts from the front every entry older than the window.
 */
module SlidingExtreme {

  /** One deque entry: (ts, value). */
  datatype Point = Point(ts: real, value: real)

  /** The maximum deque pops entries whose value is <= the new one, the minimum deque >=. */
  datatype Kind = Max | Min

  /** `a` is at least as extreme as `b`. */
  predicate Covers(k: Kind, a: real, b: real) {
    match k
    case Max => a >= b
    case Min => a <= b
  }

  /** `a` is strictly more extreme than `b`. */
  predicate Beats(k: Kind, a: real, b: real) {
    match k
    case Max => a > b
    case Min => a < b
  }

  /** Front to back the values strictly decrease (maximum deque) or strictly increase (minimum deque). */
  predicate Monotone(k: Kind, q: seq<Point>) {
    forall i, j :: 0 <= i < j < |q| ==> Beats(k, q[i].value, q[j].value)
  }

  /** Front to back the timestamps never decrease. */
  predicate TsSorted(q: seq<Point>) {
    forall i, j :: 0 <= i < j < |q| ==> q[i].ts <= q[j].ts
  }

  /** The entry is at most `w` seconds older than `now` (`now - ts <= window_sec_`). */
  predicate InWindow(x: Point, now: real, w: real) {
    now - x.ts <= w
  }

  // ---------------------------------------------------------------------------
  // The three deque operations

  /**
   * How many entries survive `while (!q.empty() && covers(value, q.back())) q.pop_back();`:
   * the back is popped while the new value covers it.
   */
  function Kept(q: seq<Point>, k: Kind, v: real): (n: nat)
    ensures n <= |q|
    ensures n > 0 ==> !Covers(k, v, q[n - 1].value)
  {
    if q == [] || !Covers(k, v, q[|q| - 1].value) then |q|
    else Kept(q[..|q| - 1], k, v)
  }

  /** The deque after the back-popping loop. */
  function PopCovered(q: seq<Point>, k: Kind, v: real): seq<Point> {
    q[..Kept(q, k, v)]
  }

  /** Every popped entry is covered by the new value. */
  lemma {:induction false} PopCoveredSpec(q: seq<Point>, k: Kind, v: real)
    ensures forall i :: Kept(q, k, v) <= i < |q| ==> Covers(k, v, q[i].value)
    decreases |q|
  {
    if q != [] && Covers(k, v, q[|q| - 1].value) {
      PopCoveredSpec(q[..|q| - 1], k, v);
    }
  }

  /** The back-popping loop stops at `m` when everything after `m` is covered and the entry before it is not. */
  lemma {:induction false} KeptIs(q: seq<Point>, k: Kind, v: real, m: nat)
    requires m <= |q|
    requires forall i :: m <= i < |q| ==> Covers(k, v, q[i].value)
    requires m == 0 || !Covers(k, v, q[m - 1].value)
    ensures Kept(q, k, v) == m
    decreases |q|
  {
    if m < |q| {
      var init := q[..|q| - 1];
      assert init[..m] == q[..m];
      KeptIs(init, k, v, m);
    }
  }

  /** Pop the covered entries, then `emplace_back(ts, value)`. */
  function Push(q: seq<Point>, k: Kind, p: Point): seq<Point> {
    PopCovered(q, k, p.value) + [p]
  }

  /**
   * How many entries `while (!q.empty() && ts_now - q.front().ts > window_sec_) q.pop_front();`
   * removes: the front is popped while it lies outside the window.
   */
  function Evicted(q: seq<Point>, now: real, w: real): (n: nat)
    ensures n <= |q|
    ensures n < |q| ==> InWindow(q[n], now, w)
  {
    if q == [] || InWindow(q[0], now, w) then 0
    else 1 + Evicted(q[1..], now, w)
  }

  /** The deque after the front-eviction loop. */
  function EvictFront(q: seq<Point>, now: real, w: real): seq<Point> {
    q[Evicted(q, now, w)..]
  }

  /** Only entries outside the window are evicted. */
  lemma {:induction false} EvictFrontSpec(q: seq<Point>, now: real, w: real)
    ensures forall i :: 0 <= i < Evicted(q, now, w) ==> !InWindow(q[i], now, w)
    decreases |q|
  {
    if q != [] && !InWindow(q[0], now, w) {
      EvictFrontSpec(q[1..], now, w);
    }
  }

  /** One deque's part of `add(ts, value)`: push, then `evict(ts)`. */
  function AddPoint(q: seq<Point>, k: Kind, w: real, p: Point): seq<Point> {
    EvictFront(Push(q, k, p), p.ts, w)
  }

  /** With a non-negative window the entry just added is the back of the deque, so `empty()` is false. */
  lemma AddKeepsNewest(q: seq<Point>, k: Kind, w: real, p: Point)
    requires w >= 0.0
    ensures var r := AddPoint(q, k, w, p); r != [] && r[|r| - 1] == p
  {
    var q1 := Push(q, k, p);
    EvictFrontSpec(q1, p.ts, w);
    assert InWindow(q1[|q1| - 1], p.ts, w);
    assert Evicted(q1, p.ts, w) < |q1|;
  }

  /** Pushing keeps the deque monotone, whatever it held. */
  lemma PushMonotone(q: seq<Point>, k: Kind, p: Point)
    requires Monotone(k, q)
    ensures Monotone(k, Push(q, k, p))
  {
    var r := q[..Kept(q, k, p.value)];
    var q1 := r + [p];
    forall i, j | 0 <= i < j < |q1|
      ensures Beats(k, q1[i].value, q1[j].value)
    {
      assert q1[i] == q[i];
      if j < |r| {
        assert q1[j] == q[j];
      } else {
        var last := r[|r| - 1];
        assert last == q[|r| - 1];
        assert i == |r| - 1 || Beats(k, q1[i].value, last.value);
      }
    }
  }

  /** Evicting keeps a monotone deque monotone. */
  lemma EvictMonotone(q: seq<Point>, now: real, w: real, k: Kind)
    requires Monotone(k, q)
    ensures Monotone(k, EvictFront(q, now, w))
  {
    var off := Evicted(q, now, w);
    var r := q[off..];
    forall i, j | 0 <= i < j < |r|
      ensures Beats(k, r[i].value, r[j].value)
    {
      assert r[i] == q[off + i] && r[j] == q[off + j];
    }
  }

  // ---------------------------------------------------------------------------
  // Histories of calls

  /** A call on the deques: `add(ts, value)` or a direct `evict(ts_now)`. */
  datatype Op = AddOp(p: Point) | EvictOp(now: real)

  function Time(op: Op): real {
    match op
    case AddOp(p) => p.ts
    case EvictOp(now) => now
  }

  function Step(q: seq<Point>, k: Kind, w: real, op: Op): seq<Point> {
    match op
    case AddOp(p) => AddPoint(q, k, w, p)
    case EvictOp(now) => EvictFront(q, now, w)
  }

  /** One deque after the calls `ops`, starting empty. */
  function Run(ops: seq<Op>, k: Kind, w: real): seq<Point> {
    if ops == [] then [] else Step(Run(ops[..|ops| - 1], k, w), k, w, ops[|ops| - 1])
  }

  /** Every point added by the calls, in order. */
  function Points(ops: seq<Op>): (r: seq<Point>)
    ensures |r| <= |ops|
  {
    if ops == [] then []
    else
      var prev := Points(ops[..|ops| - 1]);
      match ops[|ops| - 1]
      case AddOp(p) => prev + [p]
      case EvictOp(_) => prev
  }

  lemma RunSnoc(ops: seq<Op>, op: Op, k: Kind, w: real)
    ensures Run(ops + [op], k, w) == Step(Run(ops, k, w), k, w, op)
    ensures Points(ops + [op]) == if op.AddOp? then Points(ops) + [op.p] else Points(ops)
  {
    assert (ops + [op])[..|ops|] == ops;
  }

  /** Calls made with non-decreasing timestamps. */
  predicate TimesOrdered(ops: seq<Op>) {
    forall i, j :: 0 <= i < j < |ops| ==> Time(ops[i]) <= Time(ops[j])
  }

  /** Every added point inside the window at `now` is matched by a deque entry no older and at least as extreme. */
  predicate Dominated(k: Kind, w: real, now: real, q: seq<Point>, pts: seq<Point>) {
    forall h :: h in pts && InWindow(h, now, w) ==>
      exists j :: 0 <= j < |q| && q[j].ts >= h.ts && Covers(k, q[j].value, h.value)
  }

  /** No entry and no added point is later than `now`. */
  predicate NotAfter(now: real, s: seq<Point>) {
    forall i :: 0 <= i < |s| ==> s[i].ts <= now
  }

  /** Every entry lies inside the window at `now`. */
  predicate AllInWindow(now: real, w: real, q: seq<Point>) {
    forall i :: 0 <= i < |q| ==> InWindow(q[i], now, w)
  }

  /** What holds of a deque just before it is evicted at `now`. */
  predicate Pre(k: Kind, w: real, now: real, q: seq<Point>, pts: seq<Point>) {
    && Monotone(k, q)
    && TsSorted(q)
    && NotAfter(now, q)
    && NotAfter(now, pts)
    && Dominated(k, w, now, q, pts)
  }

  /** What holds of a deque after the last call, made at `now`. */
  predicate Inv(k: Kind, w: real, now: real, q: seq<Point>, pts: seq<Point>) {
    Pre(k, w, now, q, pts) && AllInWindow(now, w, q)
  }

  /** Evicting keeps a time-sorted deque sorted. */
  lemma EvictSorted(q: seq<Point>, t: real, w: real)
    requires TsSorted(q)
    ensures TsSorted(EvictFront(q, t, w))
  {
    var off := Evicted(q, t, w);
    var r := q[off..];
    forall i, j | 0 <= i < j < |r|
      ensures r[i].ts <= r[j].ts
    {
      assert r[i] == q[off + i] && r[j] == q[off + j];
    }
  }

  /** Evicting a time-sorted deque leaves only entries inside the window. */
  lemma EvictWindow(q: seq<Point>, now: real, t: real, w: real)
    requires TsSorted(q) && NotAfter(now, q) && now <= t
    ensures var r := EvictFront(q, t, w); NotAfter(t, r) && AllInWindow(t, w, r)
  {
    var off := Evicted(q, t, w);
    var r := q[off..];
    forall i | 0 <= i < |r|
      ensures r[i].ts <= t && InWindow(r[i], t, w)
    {
      assert r[i] == q[off + i] && r[0] == q[off];
      assert q[off].ts <= q[off + i].ts;
    }
  }

  /** Evicting at a later time keeps every added point in the new window dominated. */
  lemma EvictDominated(k: Kind, w: real, now: real, q: seq<Point>, pts: seq<Point>, t: real)
    requires Dominated(k, w, now, q, pts) && now <= t
    ensures Dominated(k, w, t, EvictFront(q, t, w), pts)
  {
    var off := Evicted(q, t, w);
    var r := q[off..];
    EvictFrontSpec(q, t, w);
    forall h | h in pts && InWindow(h, t, w)
      ensures exists j :: 0 <= j < |r| && r[j].ts >= h.ts && Covers(k, r[j].value, h.value)
    {
      assert InWindow(h, now, w);
      var i :| 0 <= i < |q| && q[i].ts >= h.ts && Covers(k, q[i].value, h.value);
      assert InWindow(q[i], t, w);
      assert r[i - off] == q[i];
    }
  }

  /** Evicting at a later time restores the invariant. */
  lemma EvictInv(k: Kind, w: real, now: real, q: seq<Point>, pts: seq<Point>, t: real)
    requires Pre(k, w, now, q, pts) && now <= t
    ensures Inv(k, w, t, EvictFront(q, t, w), pts)
  {
    EvictMonotone(q, t, w, k);
    EvictSorted(q, t, w);
    EvictWindow(q, now, t, w);
    EvictDominated(k, w, now, q, pts, t);
  }

  /** Pushing a point no older than every entry keeps the deque time-sorted and bounded by it. */
  lemma PushSorted(q: seq<Point>, k: Kind, now: real, p: Point)
    requires TsSorted(q) && NotAfter(now, q) && now <= p.ts
    ensures var q1 := Push(q, k, p); TsSorted(q1) && NotAfter(p.ts, q1)
  {
    var r := q[..Kept(q, k, p.value)];
    var q1 := r + [p];
    forall i | 0 <= i < |q1|
      ensures q1[i].ts <= p.ts
    {
      if i < |r| {
        assert q1[i] == q[i];
      }
    }
    forall i, j | 0 <= i < j < |q1|
      ensures q1[i].ts <= q1[j].ts
    {
      assert q1[i] == q[i];
      if j < |r| {
        assert q1[j] == q[j];
      }
    }
  }

  /** Pushing keeps the old points dominated (by a kept entry or by the new one) and dominates the new one. */
  lemma PushDominated(k: Kind, w: real, now: real, q: seq<Point>, pts: seq<Point>, p: Point)
    requires Dominated(k, w, now, q, pts) && NotAfter(now, pts) && now <= p.ts
    ensures Dominated(k, w, p.ts, Push(q, k, p), pts + [p])
  {
    var r := q[..Kept(q, k, p.value)];
    var q1 := r + [p];
    var last := |q1| - 1;
    assert q1[last] == p;
    PopCoveredSpec(q, k, p.value);
    forall h | h in pts + [p] && InWindow(h, p.ts, w)
      ensures exists j :: 0 <= j < |q1| && q1[j].ts >= h.ts && Covers(k, q1[j].value, h.value)
    {
      if h != p {
        assert h in pts && InWindow(h, now, w);
        var m :| 0 <= m < |pts| && pts[m] == h;
        var i :| 0 <= i < |q| && q[i].ts >= h.ts && Covers(k, q[i].value, h.value);
        if i < |r| {
          assert q1[i] == q[i];
        } else {
          assert Covers(k, p.value, q[i].value);
          assert Covers(k, q1[last].value, h.value) && q1[last].ts >= h.ts;
        }
      }
    }
  }

  /** Pushing a point no older than `now` keeps everything but the window bound. */
  lemma PushPre(k: Kind, w: real, now: real, q: seq<Point>, pts: seq<Point>, p: Point)
    requires Pre(k, w, now, q, pts) && now <= p.ts
    ensures Pre(k, w, p.ts, Push(q, k, p), pts + [p])
  {
    PushMonotone(q, k, p);
    PushSorted(q, k, now, p);
    PushDominated(k, w, now, q, pts, p);
    var pts1 := pts + [p];
    forall i | 0 <= i < |pts1|
      ensures pts1[i].ts <= p.ts
    {
      if i < |pts| {
        assert pts1[i] == pts[i];
      }
    }
  }

  /**
   * The invariant of the deque after calls with non-decreasing timestamps, relative to the
   * time of the last call.
   */
  lemma {:induction false} RunInv(ops: seq<Op>, k: Kind, w: real)
    requires TimesOrdered(ops) && ops != []
    ensures Inv(k, w, Time(ops[|ops| - 1]), Run(ops, k, w), Points(ops))
    decreases |ops|
  {
    var init := ops[..|ops| - 1];
    var op := ops[|ops| - 1];
    var q, pts := Run(init, k, w), Points(init);
    assert Run(ops, k, w) == Step(q, k, w, op);
    assert Points(ops) == if op.AddOp? then pts + [op.p] else pts;
    if init == [] {
      StepInv(k, w, Time(op), q, pts, op, Run(ops, k, w), Points(ops));
    } else {
      assert TimesOrdered(init);
      RunInv(init, k, w);
      StepInv(k, w, Time(init[|init| - 1]), q, pts, op, Run(ops, k, w), Points(ops));
    }
  }

  /** One call made no earlier than `now` re-establishes the invariant at its own time. */
  lemma StepInv(k: Kind, w: real, now: real, q: seq<Point>, pts: seq<Point>, op: Op, q': seq<Point>, pts': seq<Point>)
    requires Pre(k, w, now, q, pts) && now <= Time(op)
    requires q' == Step(q, k, w, op) && pts' == if op.AddOp? then pts + [op.p] else pts
    ensures Inv(k, w, Time(op), q', pts')
  {
    match op
    case AddOp(p) =>
      PushPre(k, w, now, q, pts, p);
      EvictInv(k, w, p.ts, Push(q, k, p), pts + [p], p.ts);
    case EvictOp(t) =>
      EvictInv(k, w, now, q, pts, t);
  }

  /** Every entry of `q` is one of `pts`. */
  predicate DrawnFrom(q: seq<Point>, pts: seq<Point>) {
    forall i :: 0 <= i < |q| ==> q[i] in pts
  }

  lemma PushDrawn(q: seq<Point>, k: Kind, p: Point, pts: seq<Point>)
    requires DrawnFrom(q, pts)
    ensures DrawnFrom(Push(q, k, p), pts + [p])
  {
    var q1 := Push(q, k, p);
    forall i | 0 <= i < |q1|
      ensures q1[i] in pts + [p]
    {
      if i < |q1| - 1 {
        assert q1[i] == q[i];
      }
    }
  }

  lemma EvictDrawn(q: seq<Point>, t: real, w: real, pts: seq<Point>)
    requires DrawnFrom(q, pts)
    ensures DrawnFrom(EvictFront(q, t, w), pts)
  {
    var off := Evicted(q, t, w);
    var e := q[off..];
    forall i | 0 <= i < |e|
      ensures e[i] in pts
    {
      assert e[i] == q[off + i];
    }
  }

  /** Every deque entry is a point some `add` call added. */
  lemma {:induction false} RunFromPoints(ops: seq<Op>, k: Kind, w: real)
    ensures DrawnFrom(Run(ops, k, w), Points(ops))
    decreases |ops|
  {
    if ops != [] {
      var init := ops[..|ops| - 1];
      var op := ops[|ops| - 1];
      assert init + [op] == ops;
      RunSnoc(init, op, k, w);
      RunFromPoints(init, k, w);
      var q, pts := Run(init, k, w), Points(init);
      match op
      case AddOp(p) =>
        PushDrawn(q, k, p, pts);
        EvictDrawn(Push(q, k, p), p.ts, w, pts + [p]);
      case EvictOp(t) =>
        EvictDrawn(q, t, w, pts);
    }
  }

  /**
   * The sliding extreme: after calls with non-decreasing timestamps the deque is empty exactly
   * when no added point lies inside the window of the last call, every entry lies inside it,
   * and the front is the most extreme value of the points inside it (the maximum for the
   * maximum deque, the minimum for the minimum deque).
   */
  lemma WindowExtreme(ops: seq<Op>, k: Kind, w: real)
    requires TimesOrdered(ops) && ops != []
    ensures var q, now, pts := Run(ops, k, w), Time(ops[|ops| - 1]), Points(ops);
      && (q != [] <==> exists h :: h in pts && InWindow(h, now, w))
      && (forall x :: x in q ==> x in pts && InWindow(x, now, w))
      && (q != [] ==> forall h :: h in pts && InWindow(h, now, w) ==> Covers(k, q[0].value, h.value))
  {
    var q, now, pts := Run(ops, k, w), Time(ops[|ops| - 1]), Points(ops);
    assert && ((exists h :: h in pts && InWindow(h, now, w)) ==> q != [])
           && (q != [] ==> forall h :: h in pts && InWindow(h, now, w) ==> Covers(k, q[0].value, h.value)) by {
      RunInv(ops, k, w);
      FrontExtreme(k, w, now, q, pts);
    }
    assert forall x :: x in q ==> x in pts && InWindow(x, now, w) by {
      RunInWindow(ops, k, w);
      RunFromPoints(ops, k, w);
      EntriesFromPoints(w, now, q, pts);
    }
    if q != [] {
      assert q[0] in q;
    }
  }

  /** After calls in time order every entry lies inside the window of the last call. */
  lemma RunInWindow(ops: seq<Op>, k: Kind, w: real)
    requires TimesOrdered(ops) && ops != []
    ensures AllInWindow(Time(ops[|ops| - 1]), w, Run(ops, k, w))
  {
    RunInv(ops, k, w);
  }

  /** A dominated monotone deque holds the most extreme point of the window at its front. */
  lemma FrontExtreme(k: Kind, w: real, now: real, q: seq<Point>, pts: seq<Point>)
    requires Monotone(k, q) && Dominated(k, w, now, q, pts)
    ensures (exists h :: h in pts && InWindow(h, now, w)) ==> q != []
    ensures q != [] ==> forall h :: h in pts && InWindow(h, now, w) ==> Covers(k, q[0].value, h.value)
  {
    if q != [] {
      forall h | h in pts && InWindow(h, now, w)
        ensures Covers(k, q[0].value, h.value)
      {
        var i :| 0 <= i < |q| && q[i].ts >= h.ts && Covers(k, q[i].value, h.value);
        assert i == 0 || Beats(k, q[0].value, q[i].value);
      }
    }
  }

  /** Entries drawn from the added points and inside the window. */
  lemma EntriesFromPoints(w: real, now: real, q: seq<Point>, pts: seq<Point>)
    requires AllInWindow(now, w, q) && DrawnFrom(q, pts)
    ensures forall x :: x in q ==> x in pts && InWindow(x, now, w)
  {
    forall x | x in q
      ensures x in pts && InWindow(x, now, w)
    {
      var i :| 0 <= i < |q| && q[i] == x;
    }
  }

  /**
   * Right after `add(ts, v)` in time order with a non-negative window, the deque is non-empty
   * and `v` is at least as extreme as its front exactly when `v` is at least as extreme as
   * every value added inside the window: the new-high (new-low) test of the extractor.
   */
  lemma NewExtremeMeans(ops: seq<Op>, k: Kind, w: real, p: Point)
    requires TimesOrdered(ops + [AddOp(p)]) && w >= 0.0
    ensures var ops1 := ops + [AddOp(p)]; var q := Run(ops1, k, w);
      && q != []
      && (Covers(k, p.value, q[0].value) <==>
          forall h :: h in Points(ops1) && InWindow(h, p.ts, w) ==> Covers(k, p.value, h.value))
  {
    var ops1 := ops + [AddOp(p)];
    var q := Run(ops1, k, w);
    RunSnoc(ops, AddOp(p), k, w);
    AddKeepsNewest(Run(ops, k, w), k, w, p);
    assert Time(ops1[|ops1| - 1]) == p.ts;
    WindowExtreme(ops1, k, w);
    assert p in Points(ops1) && InWindow(p, p.ts, w);
    assert q[0] in q;
  }

  /** Both deques are empty together when the calls came in time order. */
  lemma EmptyTogether(ops: seq<Op>, w: real)
    requires TimesOrdered(ops) && ops != []
    ensures Run(ops, Max, w) == [] <==> Run(ops, Min, w) == []
  {
    WindowExtreme(ops, Max, w);
    WindowExtreme(ops, Min, w);
  }

  /** The deques keep their monotone shape after any calls, in any time order. */
  lemma {:induction false} RunMonotone(ops: seq<Op>, k: Kind, w: real)
    ensures Monotone(k, Run(ops, k, w))
    decreases |ops|
  {
    if ops != [] {
      var init := ops[..|ops| - 1];
      RunMonotone(init, k, w);
      var q := Run(init, k, w);
      match ops[|ops| - 1]
      case AddOp(p) =>
        PushMonotone(q, k, p);
        EvictMonotone(Push(q, k, p), p.ts, w, k);
      case EvictOp(t) =>
        EvictMonotone(q, t, w, k);
    }
  }

  // ---------------------------------------------------------------------------
  // The class

  class RollingExtreme {
    /** `window_sec_`. */
    const windowSec: real
    /** `max_q_`, front first. */
    var maxQ: seq<Point>
    /** `min_q_`, front first. */
    var minQ: seq<Point>
    /** Every `add` and `evict` call so far. */
    ghost var ops: seq<Op>

    /** Both deques are what the calls so far leave behind. */
    ghost predicate Valid()
      reads this
    {
      maxQ == Run(ops, Max, windowSec) && minQ == Run(ops, Min, windowSec)
    }

    constructor(windowSec: real)
      ensures this.windowSec == windowSec && ops == [] && Valid()
    {
      this.windowSec := windowSec;
      maxQ := [];
      minQ := [];
      ops := [];
    }

    /** The two front-eviction loops of `evict`. */
    method EvictQueues(tsNow: real)
      modifies this
      ensures maxQ == EvictFront(old(maxQ), tsNow, windowSec)
      ensures minQ == EvictFront(old(minQ), tsNow, windowSec)
      ensures ops == old(ops)
    {
      while maxQ != [] && tsNow - maxQ[0].ts > windowSec
        invariant EvictFront(maxQ, tsNow, windowSec) == EvictFront(old(maxQ), tsNow, windowSec)
        invariant minQ == old(minQ) && ops == old(ops)
        decreases |maxQ|
      {
        maxQ := maxQ[1..];
      }
      while minQ != [] && tsNow - minQ[0].ts > windowSec
        invariant EvictFront(minQ, tsNow, windowSec) == EvictFront(old(minQ), tsNow, windowSec)
        invariant maxQ == EvictFront(old(maxQ), tsNow, windowSec) && ops == old(ops)
        decreases |minQ|
      {
        minQ := minQ[1..];
      }
    }

    /** `evict(ts_now)`: drop from the front every entry older than the window. */
    method Evict(tsNow: real)
      requires Valid()
      modifies this
      ensures Valid() && ops == old(ops) + [EvictOp(tsNow)]
    {
      EvictQueues(tsNow);
      RunSnoc(ops, EvictOp(tsNow), Max, windowSec);
      RunSnoc(ops, EvictOp(tsNow), Min, windowSec);
      ops := ops + [EvictOp(tsNow)];
    }

    /** The back-popping loop of `add` on `max_q_`. */
    method PopMax(value: real)
      modifies this
      ensures maxQ == PopCovered(old(maxQ), Max, value)
      ensures minQ == old(minQ) && ops == old(ops)
    {
      while maxQ != [] && maxQ[|maxQ| - 1].value <= value
        invariant |maxQ| <= |old(maxQ)| && maxQ == old(maxQ)[..|maxQ|]
        invariant forall i :: |maxQ| <= i < |old(maxQ)| ==> Covers(Max, value, old(maxQ)[i].value)
        invariant minQ == old(minQ) && ops == old(ops)
        decreases |maxQ|
      {
        maxQ := maxQ[..|maxQ| - 1];
      }
      KeptIs(old(maxQ), Max, value, |maxQ|);
    }

    /** The back-popping loop of `add` on `min_q_`. */
    method PopMin(value: real)
      modifies this
      ensures minQ == PopCovered(old(minQ), Min, value)
      ensures maxQ == old(maxQ) && ops == old(ops)
    {
      while minQ != [] && minQ[|minQ| - 1].value >= value
        invariant |minQ| <= |old(minQ)| && minQ == old(minQ)[..|minQ|]
        invariant forall i :: |minQ| <= i < |old(minQ)| ==> Covers(Min, value, old(minQ)[i].value)
        invariant maxQ == old(maxQ) && ops == old(ops)
        decreases |minQ|
      {
        minQ := minQ[..|minQ| - 1];
      }
      KeptIs(old(minQ), Min, value, |minQ|);
    }

    /**
     * `add(ts, value)`: pop covered entries from the back of each deque, append (ts, value),
     * then evict at `ts`.
     */
    method Add(ts: real, value: real)
      requires Valid()
      modifies this
      ensures Valid() && ops == old(ops) + [AddOp(Point(ts, value))]
      ensures windowSec >= 0.0 ==>
        && maxQ != [] && maxQ[|maxQ| - 1] == Point(ts, value)
        && minQ != [] && minQ[|minQ| - 1] == Point(ts, value)
    {
      var p := Point(ts, value);
      ghost var qa, qi := maxQ, minQ;
      PopMax(value);
      maxQ := maxQ + [p];
      PopMin(value);
      minQ := minQ + [p];
      EvictQueues(ts);
      assert maxQ == AddPoint(qa, Max, windowSec, p) && minQ == AddPoint(qi, Min, windowSec, p);
      RunSnoc(ops, AddOp(p), Max, windowSec);
      RunSnoc(ops, AddOp(p), Min, windowSec);
      if windowSec >= 0.0 {
        AddKeepsNewest(qa, Max, windowSec, p);
        AddKeepsNewest(qi, Min, windowSec, p);
      }
      ops := ops + [AddOp(p)];
    }

    /**
     * `empty()`: after calls in time order, true exactly when no added point lies inside the
     * window of the last call.
     */
    function Empty(): (r: bool)
      reads this
      requires Valid()
      ensures TimesOrdered(ops) && ops != [] ==>
        (r <==> forall h :: h in Points(ops) ==> !InWindow(h, Time(ops[|ops| - 1]), windowSec))
    {
      WindowFacts(ops, windowSec);
      maxQ == [] || minQ == []
    }

    /**
     * `current_max()`: 0.0 on an empty deque; after calls in time order, otherwise the largest
     * value added inside the window of the last call.
     */
    function CurrentMax(): (r: real)
      reads this
      requires Valid()
      ensures maxQ == [] ==> r == 0.0
      ensures TimesOrdered(ops) && ops != [] && maxQ != [] ==>
        var now := Time(ops[|ops| - 1]);
        && (exists h :: h in Points(ops) && InWindow(h, now, windowSec) && h.value == r)
        && (forall h :: h in Points(ops) && InWindow(h, now, windowSec) ==> h.value <= r)
    {
      WindowFacts(ops, windowSec);
      if maxQ == [] then 0.0 else maxQ[0].value
    }

    /**
     * `current_min()`: 0.0 on an empty deque; after calls in time order, otherwise the smallest
     * value added inside the window of the last call.
     */
    function CurrentMin(): (r: real)
      reads this
      requires Valid()
      ensures minQ == [] ==> r == 0.0
      ensures TimesOrdered(ops) && ops != [] && minQ != [] ==>
        var now := Time(ops[|ops| - 1]);
        && (exists h :: h in Points(ops) && InWindow(h, now, windowSec) && h.value == r)
        && (forall h :: h in Points(ops) && InWindow(h, now, windowSec) ==> r <= h.value)
    {
      WindowFacts(ops, windowSec);
      if minQ == [] then 0.0 else minQ[0].value
    }
  }

  /** WindowExtreme for both deques, for any calls (vacuous when they are out of time order). */
  lemma WindowFacts(ops: seq<Op>, w: real)
    ensures TimesOrdered(ops) && ops != [] ==>
      var now, pts := Time(ops[|ops| - 1]), Points(ops);
      var qa, qi := Run(ops, Max, w), Run(ops, Min, w);
      && (qa == [] <==> forall h :: h in pts ==> !InWindow(h, now, w))
      && (qi == [] <==> qa == [])
      && (qa != [] ==>
            (qa[0] in pts && InWindow(qa[0], now, w)
             && forall h :: h in pts && InWindow(h, now, w) ==> h.value <= qa[0].value))
      && (qi != [] ==>
            (qi[0] in pts && InWindow(qi[0], now, w)
             && forall h :: h in pts && InWindow(h, now, w) ==> qi[0].value <= h.value))
  {
    if TimesOrdered(ops) && ops != [] {
      WindowExtreme(ops, Max, w);
      WindowExtreme(ops, Min, w);
      var qa, qi := Run(ops, Max, w), Run(ops, Min, w);
      if qa != [] { assert qa[0] in qa; }
      if qi != [] { assert qi[0] in qi; }
    }
  }
}
