/**
 * One side of a level-2 order book as a price -> size map, shared by the Python probe
 * (orderbook_probe.py) and the C++ feature extractor (orderflow_features.cpp): level
 * upserts, the best (largest or smallest) price, and size sums over a price band.
 */
module BookMaps {
  import opened Wrappers

  /** price -> resting size. */
  type Book = map<real, real>

  /** One (price, size) entry of a snapshot or delta message. */
  datatype Level = Level(price: real, size: real)

  /** Every resting size is strictly positive. */
  predicate PositiveSizes(m: Book) {
    forall p :: p in m ==> m[p] > 0.0
  }

  // ---------------------------------------------------------------------------
  // Upserts

  /**
   * Applying entries in order: a size <= 0 removes the price (absent or not), any other
   * size sets it.
   */
  function Upsert(m: Book, levels: seq<Level>): Book {
    if levels == [] then m
    else
      var prev := Upsert(m, levels[..|levels| - 1]);
      var l := levels[|levels| - 1];
      if l.size <= 0.0 then prev - {l.price} else prev[l.price := l.size]
  }

  /** A price that no entry mentions keeps its level, or its absence. */
  lemma {:induction false} UpsertUntouched(m: Book, levels: seq<Level>, p: real)
    requires forall k :: 0 <= k < |levels| ==> levels[k].price != p
    ensures p in Upsert(m, levels) <==> p in m
    ensures p in m ==> Upsert(m, levels)[p] == m[p]
    decreases |levels|
  {
    if levels != [] {
      UpsertUntouched(m, levels[..|levels| - 1], p);
    }
  }

  /** The last entry for a price decides: removed if its size is <= 0, else that size. */
  lemma {:induction false} UpsertLastWins(m: Book, levels: seq<Level>, k: nat)
    requires k < |levels|
    requires forall j :: k < j < |levels| ==> levels[j].price != levels[k].price
    ensures var r, l := Upsert(m, levels), levels[k];
      && (l.size <= 0.0 ==> l.price !in r)
      && (l.size > 0.0 ==> l.price in r && r[l.price] == l.size)
    decreases |levels|
  {
    if k < |levels| - 1 {
      UpsertLastWins(m, levels[..|levels| - 1], k);
    }
  }

  /** Upserts never leave a level of size <= 0 behind. */
  lemma {:induction false} UpsertKeepsPositive(m: Book, levels: seq<Level>)
    requires PositiveSizes(m)
    ensures PositiveSizes(Upsert(m, levels))
    decreases |levels|
  {
    if levels != [] {
      UpsertKeepsPositive(m, levels[..|levels| - 1]);
    }
  }

  /**
   * The Python snapshot `{p: s for p, s in levels if s > 0}`: entries of size <= 0 are
   * filtered out (they do not erase an earlier entry of the same price), and among
   * positive entries of one price the last wins.
   */
  function PositiveLevels(levels: seq<Level>): Book {
    if levels == [] then map[]
    else
      var prev := PositiveLevels(levels[..|levels| - 1]);
      var l := levels[|levels| - 1];
      if l.size > 0.0 then prev[l.price := l.size] else prev
  }

  /** A snapshot book holds exactly the prices of its positive entries, each with a positive size. */
  lemma {:induction false} PositiveLevelsSpec(levels: seq<Level>)
    ensures PositiveSizes(PositiveLevels(levels))
    ensures forall k :: 0 <= k < |levels| && levels[k].size > 0.0 ==> levels[k].price in PositiveLevels(levels)
    ensures forall p :: p in PositiveLevels(levels) ==>
      exists k :: 0 <= k < |levels| && levels[k].price == p && levels[k].size == PositiveLevels(levels)[p]
    decreases |levels|
  {
    if levels != [] {
      var init := levels[..|levels| - 1];
      PositiveLevelsSpec(init);
      var r := PositiveLevels(levels);
      forall p | p in r
        ensures exists k :: 0 <= k < |levels| && levels[k].price == p && levels[k].size == r[p]
      {
        var l := levels[|levels| - 1];
        if !(l.size > 0.0 && l.price == p) {
          var k :| 0 <= k < |init| && init[k].price == p && init[k].size == PositiveLevels(init)[p];
          assert levels[k] == init[k];
        }
      }
    }
  }

  /** No price occurs in two entries. */
  predicate DistinctPrices(levels: seq<Level>) {
    forall i, j :: 0 <= i < j < |levels| ==> levels[i].price != levels[j].price
  }

  /** A price no entry mentions is not in the snapshot. */
  lemma {:induction false} PositiveLevelsUnmentioned(levels: seq<Level>, p: real)
    requires forall k :: 0 <= k < |levels| ==> levels[k].price != p
    ensures p !in PositiveLevels(levels)
    decreases |levels|
  {
    if levels != [] {
      PositiveLevelsUnmentioned(levels[..|levels| - 1], p);
    }
  }

  lemma RemoveAbsent(m: Book, p: real)
    requires p !in m
    ensures m - {p} == m
  {
  }

  /** Without a repeated price the Python snapshot and the C++ clear-then-upsert agree. */
  lemma {:induction false} SnapshotsAgree(levels: seq<Level>)
    requires DistinctPrices(levels)
    ensures PositiveLevels(levels) == Upsert(map[], levels)
    decreases |levels|
  {
    if levels != [] {
      var init := levels[..|levels| - 1];
      var l := levels[|levels| - 1];
      assert DistinctPrices(init);
      SnapshotsAgree(init);
      if l.size <= 0.0 {
        PositiveLevelsUnmentioned(init, l.price);
        RemoveAbsent(PositiveLevels(init), l.price);
      }
    }
  }

  /** With a repeated price they differ: a later zero entry erases in C++ but is skipped in Python. */
  lemma SnapshotsDifferOnRepeatedPrice()
    ensures var levels := [Level(100.0, 5.0), Level(100.0, 0.0)];
      PositiveLevels(levels) == map[100.0 := 5.0] && Upsert(map[], levels) == map[]
  {
    var levels := [Level(100.0, 5.0), Level(100.0, 0.0)];
    assert levels[..1] == [Level(100.0, 5.0)] && levels[..1][..0] == [];
  }

  // ---------------------------------------------------------------------------
  // Best prices

  /** A non-empty set of prices has a member. */
  lemma HasMember(s: set<real>)
    requires s != {}
    ensures exists p :: p in s
  {
    if forall p :: p !in s {
      assert false;
    }
  }

  /** The largest price of a non-empty set (`max(d)` in Python, `rbegin()` of a std::map). */
  ghost function MaxKey(s: set<real>): (r: real)
    requires s != {}
    ensures r in s && forall p :: p in s ==> p <= r
    decreases s
  {
    HasMember(s);
    var p :| p in s;
    if s == {p} then p
    else
      assert s == (s - {p}) + {p};
      var m := MaxKey(s - {p});
      if p > m then p else m
  }

  /** The smallest price of a non-empty set (`min(d)` in Python, `begin()` of a std::map). */
  ghost function MinKey(s: set<real>): (r: real)
    requires s != {}
    ensures r in s && forall p :: p in s ==> r <= p
    decreases s
  {
    HasMember(s);
    var p :| p in s;
    if s == {p} then p
    else
      assert s == (s - {p}) + {p};
      var m := MinKey(s - {p});
      if p < m then p else m
  }

  /** The largest price, by a scan over the levels (the last key of the sorted map). */
  method LargestKey(m: Book) returns (r: real)
    requires m != map[]
    ensures r in m && forall p :: p in m ==> p <= r
    ensures r == MaxKey(m.Keys)
  {
    HasMember(m.Keys);
    r :| r in m;
    var rest := m.Keys - {r};
    while rest != {}
      invariant rest <= m.Keys && r in m
      invariant forall p :: p in m && p !in rest ==> p <= r
      decreases rest
    {
      HasMember(rest);
      var p :| p in rest;
      if p > r {
        r := p;
      }
      rest := rest - {p};
    }
  }

  /** The smallest price, by a scan over the levels (the first key of the sorted map). */
  method SmallestKey(m: Book) returns (r: real)
    requires m != map[]
    ensures r in m && forall p :: p in m ==> r <= p
    ensures r == MinKey(m.Keys)
  {
    HasMember(m.Keys);
    r :| r in m;
    var rest := m.Keys - {r};
    while rest != {}
      invariant rest <= m.Keys && r in m
      invariant forall p :: p in m && p !in rest ==> r <= p
      decreases rest
    {
      HasMember(rest);
      var p :| p in rest;
      if p < r {
        r := p;
      }
      rest := rest - {p};
    }
  }

  // ---------------------------------------------------------------------------
  // Depth in a price band

  /** The band edges mid * (1 - pct) and mid * (1 + pct). */
  function Lower(mid: real, pct: real): real {
    mid * (1.0 - pct)
  }

  function Upper(mid: real, pct: real): real {
    mid * (1.0 + pct)
  }

  /** For a positive mid, a larger pct widens the band on both sides. */
  lemma ScaleMonotone(mid: real, pct1: real, pct2: real)
    requires mid > 0.0 && pct1 <= pct2
    ensures Lower(mid, pct2) <= Lower(mid, pct1) && Upper(mid, pct1) <= Upper(mid, pct2)
  {
    assert mid * (pct2 - pct1) >= 0.0;
  }

  /** Which prices a depth sum counts. */
  datatype Band =
    | AtLeast(lo: real)   // bids at or above mid * (1 - pct)
    | AtMost(hi: real)    // Python asks at or below mid * (1 + pct)
    | Below(hi: real)     // C++ asks strictly below mid * (1 + pct)

  predicate InBand(p: real, b: Band) {
    match b
    case AtLeast(lo) => p >= lo
    case AtMost(hi) => p <= hi
    case Below(hi) => p < hi
  }

  function Term(m: Book, p: real, b: Band): real
    requires p in m
  {
    if InBand(p, b) then m[p] else 0.0
  }

  /** Sum of the sizes of the prices of `ks` that lie in the band. */
  ghost function BandSum(m: Book, ks: set<real>, b: Band): real
    requires ks <= m.Keys
    decreases ks
  {
    if ks == {} then 0.0
    else
      HasMember(ks);
      var p :| p in ks;
      Term(m, p, b) + BandSum(m, ks - {p}, b)
  }

  /** The sum does not depend on the order in which the prices are visited. */
  lemma {:induction false} BandSumRemove(m: Book, ks: set<real>, p: real, b: Band)
    requires ks <= m.Keys && p in ks
    ensures BandSum(m, ks, b) == Term(m, p, b) + BandSum(m, ks - {p}, b)
    decreases ks
  {
    var q :| q in ks && BandSum(m, ks, b) == Term(m, q, b) + BandSum(m, ks - {q}, b);
    if q != p {
      BandSumRemove(m, ks - {q}, p, b);
      BandSumRemove(m, ks - {p}, q, b);
      assert ks - {q} - {p} == ks - {p} - {q};
    }
  }

  /** Depth of the whole side in the band. */
  ghost function Depth(m: Book, b: Band): real {
    BandSum(m, m.Keys, b)
  }

  /** With positive sizes, every depth is non-negative. */
  lemma {:induction false} BandSumNonNegative(m: Book, ks: set<real>, b: Band)
    requires ks <= m.Keys && PositiveSizes(m)
    ensures BandSum(m, ks, b) >= 0.0
    decreases ks
  {
    if ks != {} {
      HasMember(ks);
      var p :| p in ks;
      BandSumRemove(m, ks, p, b);
      BandSumNonNegative(m, ks - {p}, b);
    }
  }

  /** A wider band never holds less: if band b1 lies inside band b2, its depth is no larger. */
  lemma {:induction false} BandSumMonotone(m: Book, ks: set<real>, b1: Band, b2: Band)
    requires ks <= m.Keys && PositiveSizes(m)
    requires forall p :: InBand(p, b1) ==> InBand(p, b2)
    ensures BandSum(m, ks, b1) <= BandSum(m, ks, b2)
    decreases ks
  {
    if ks != {} {
      HasMember(ks);
      var p :| p in ks;
      BandSumRemove(m, ks, p, b1);
      BandSumRemove(m, ks, p, b2);
      BandSumMonotone(m, ks - {p}, b1, b2);
    }
  }

  /** A price in the band counts in full: the depth is at least its size. */
  lemma BandSumCounts(m: Book, p: real, b: Band)
    requires p in m && InBand(p, b) && PositiveSizes(m)
    ensures Depth(m, b) >= m[p]
  {
    BandSumRemove(m, m.Keys, p, b);
    BandSumNonNegative(m, m.Keys - {p}, b);
  }

  /** A band holding no price has depth 0. */
  lemma {:induction false} BandSumOutside(m: Book, ks: set<real>, b: Band)
    requires ks <= m.Keys
    requires forall p :: p in ks ==> !InBand(p, b)
    ensures BandSum(m, ks, b) == 0.0
    decreases ks
  {
    if ks != {} {
      HasMember(ks);
      var p :| p in ks;
      BandSumRemove(m, ks, p, b);
      BandSumOutside(m, ks - {p}, b);
    }
  }

  /** Two bands that agree on every price of `ks` give the same sum. */
  lemma {:induction false} BandSumAgree(m: Book, ks: set<real>, b1: Band, b2: Band)
    requires ks <= m.Keys
    requires forall p :: p in ks ==> (InBand(p, b1) <==> InBand(p, b2))
    ensures BandSum(m, ks, b1) == BandSum(m, ks, b2)
    decreases ks
  {
    if ks != {} {
      HasMember(ks);
      var p :| p in ks;
      BandSumRemove(m, ks, p, b1);
      BandSumRemove(m, ks, p, b2);
      BandSumAgree(m, ks - {p}, b1, b2);
    }
  }

  /**
   * The strict ask edge of the C++ extractor never counts more than the inclusive edge of
   * the Python probe, and counts the same unless a level sits exactly on the edge.
   */
  lemma BelowVersusAtMost(m: Book, hi: real)
    requires PositiveSizes(m)
    ensures Depth(m, Below(hi)) <= Depth(m, AtMost(hi))
    ensures hi !in m ==> Depth(m, Below(hi)) == Depth(m, AtMost(hi))
    ensures hi in m ==> Depth(m, Below(hi)) + m[hi] == Depth(m, AtMost(hi))
  {
    BandSumMonotone(m, m.Keys, Below(hi), AtMost(hi));
    if hi !in m {
      BandSumAgree(m, m.Keys, Below(hi), AtMost(hi));
    } else {
      BandSumRemove(m, m.Keys, hi, Below(hi));
      BandSumRemove(m, m.Keys, hi, AtMost(hi));
      BandSumAgree(m, m.Keys - {hi}, Below(hi), AtMost(hi));
    }
  }

  /**
   * The loop that walks one side and adds the size of every price in the band (the C++
   * `depth_within` loops; the Python generator sum is the same sum).
   */
  method SumBand(m: Book, b: Band) returns (total: real)
    ensures total == Depth(m, b)
  {
    total := 0.0;
    var rest := m.Keys;
    while rest != {}
      invariant rest <= m.Keys
      invariant total + BandSum(m, rest, b) == Depth(m, b)
      decreases rest
    {
      HasMember(rest);
      var p :| p in rest;
      BandSumRemove(m, rest, p, b);
      if InBand(p, b) {
        total := total + m[p];
      }
      rest := rest - {p};
    }
  }
}
