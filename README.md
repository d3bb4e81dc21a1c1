# Sweep detection and order-flow toolkit — a Dafny model

This project models the deterministic core of a crypto-trading research toolkit that works over
time-ordered trade ticks and a price-level order book:

- **Offline sweep detection** (`detect_sweeps_py`). Every tick starts a window. A forward scan keeps
  the running maximum and minimum price and the up and down volume. At most one Up or Down event
  is emitted per start, and Up takes precedence.
- **Forward-outcome evaluators.** For each event the reference tick is the first one at or after the
  event's end. A scan over the horizon yields the return, the most favourable excursion (MFE) and
  the most adverse excursion (MAE). The three versions are modelled:
  - `compute_ret_stats`, which splits returns into Down and Up lists;
  - the rescanning `compute_ret_mfe_mae` of analyze_sweep.py;
  - the monotone-pointer `compute_ret_mfe_mae` of offline_analyze.py, proved equal to the
    rescanning version when events are sorted by end time.
- **Python order-flow probe.**
  - An aggressive-flow tracker over sliding windows.
  - A light L2 book: snapshot and delta upserts, best prices, mid, and depth within a band.
  - A directional-run rule over the last three 1 s samples.
  - A 0.4× weak-side rule.
- **C++ `OrderFlowFeatureExtractor`.** Trade and 1 s bucket deques, the run rule on buckets, a
  price→size book per side, band depths, and a per-call feature frame. It uses `RollingExtreme`, a
  monotone-deque sliding maximum and minimum.
- **C++ streaming `SweepModel`.** A long-window tick deque with running buy/sell totals and a
  short/long volume ratio test.
- **C++ `MeanReversionStrategy`.** A four-field position state machine.
- **`parse_trade`.** Normalises exchange trade records into `(ts, price, vol, side)`.

### How the model is built

- Prices, volumes and times are `real`.
- Code that works step by step is modelled imperatively:
  - classes whose methods update fields, with `modifies` frames;
  - methods with loops and their invariants.
- Each such method is proved against a specification function. The properties are proved as
  lemmas about those functions.
- Pure code (`parse_trade`, the decision rules) is written as functions and lemmas.
- The modules are:
  - `Market`: shared ticks and scans;
  - `ForwardOutcome`: the evaluator shared by three scripts;
  - `BookMaps`: the book side shared by the Python probe and the C++ extractor;
  - one module per core source file.

### Where the Python probe and the C++ extractor differ

Both are modelled as written:

- **Ask band edge.** The C++ ask band is strict (`< mid·(1+pct)`); the Python band is inclusive.
  `BookMaps.BelowVersusAtMost` states exactly how far apart they are.
- **Snapshots.** The C++ snapshot clears and then upserts; the Python snapshot filters positive
  entries. `BookMaps.SnapshotsAgree` and `BookMaps.SnapshotsDifferOnRepeatedPrice` show they
  agree unless a price repeats.

## Model

| member | source | states |
|---|---|---|
| Market.OrderedMono | sweep_param_scan.py:43 | in ticks sorted by time, a later index never has an earlier timestamp |
| Market.ScanEnd | analyze_sweep.py:116-123 | the horizon scan stops at or after its start, within the ticks, and only at a tick beyond the limit |
| Market.ScanEndSpec | analyze_sweep.py:116-123 | every tick the horizon scan passes lies at or below the limit |
| Market.MaxPrice | sweep_param_scan.py:69-70 | the running maximum never falls below its starting value |
| Market.MinPrice | sweep_param_scan.py:71-72 | the running minimum never rises above its starting value |
| Market.MaxPriceIsMax | sweep_param_scan.py:60-72 | the running maximum bounds every scanned price and is the start value or a scanned price |
| Market.MinPriceIsMin | sweep_param_scan.py:61-72 | the running minimum bounds every scanned price from below and is attained |
| Market.SliceStep | sweep_param_scan.py:65-80 | one more tick in the scan updates the extremes and the up/down volumes by that tick alone |
| Market.BaseVolumeCountedTwice | sweep_param_scan.py:75-78 | up-volume plus down-volume is the total plus the volume priced exactly at the base: a tick at the base price counts on both sides |
| Market.VolAtOrAbove | sweep_param_scan.py:75-76 | up_vol: the volume of the ticks priced at or above the base; related to dn_vol by BaseVolumeCountedTwice, extended tick by tick by SliceStep |
| Market.VolAtOrBelow | sweep_param_scan.py:77-78 | dn_vol: the volume of the ticks priced at or below the base; see BaseVolumeCountedTwice and SliceStep |
| ForwardOutcome.FirstAtOrAfter | analyze_sweep.py:104-110 | the reference search returns an index at or after its start whose tick, if any, is at or after t0 |
| ForwardOutcome.FirstAtOrAfterSpec | analyze_sweep.py:104-108 | every tick the reference search skips lies before t0 |
| ForwardOutcome.FirstAtOrAfterResume | offline_analyze.py:67-69 | resuming the search at a pointer that has passed only ticks before t0 finds the same reference tick |
| ForwardOutcome.ScoreFrom | analyze_sweep.py:100-127 | an event is skipped iff no tick is at or after t0 or the first such tick is beyond t0 + horizon; otherwise price0 is that tick's price, priceT the last scanned tick's, and min <= price0 <= max |
| ForwardOutcome.Score | analyze_sweep.py:100-127 | the per-event search from index 0 and the horizon scan, or None for either skip; its meaning is stated by ScoreFrom, ScoreTimes, ScoreExtremes and ScoreStopsAtHorizon |
| ForwardOutcome.ScoreResume | offline_analyze.py:61-74 | scoring from a pointer behind which every tick lies before t0 equals scoring from the first tick |
| ForwardOutcome.ScoreTimes | analyze_sweep.py:104-127 | the reference tick is the first with ts >= t0, and every scanned tick lies within t0 + horizon |
| ForwardOutcome.ScoreExtremes | analyze_sweep.py:112-123 | the scan's max and min bound every scanned price and are scanned prices |
| ForwardOutcome.ScoreStopsAtHorizon | analyze_sweep.py:116-127 | with ordered ticks, priceT is the last tick with ts <= t0 + horizon: every later tick lies beyond it |
| ForwardOutcome.Scored | analyze_sweep.py:99-110 | no more events are scored than were given |
| ForwardOutcome.ScoredWellScored | analyze_sweep.py:112-123 | every scored event's reference is a real tick whose price lies between the scan's extremes |
| ForwardOutcome.ScoredReferencesPositive | analyze_sweep.py:112 | with positive prices every reference price is positive, so the divisions are defined |
| ForwardOutcome.Records | analyze_sweep.py:139 | one record per scored event |
| ForwardOutcome.FirstAtOrAfterIs | analyze_sweep.py:104-108 | the `for ... break` search lands exactly on FirstAtOrAfter |
| ForwardOutcome.Ret | analyze_sweep.py:127-128 | ret = (pT - p0) / p0, the horizon return; RetWithinExcursions places it between MAE and MFE |
| ForwardOutcome.Excursions | analyze_sweep.py:130-137 | (mfe, mae) from the scan extremes by direction; proved signed by ExcursionSigns and mirrored by ExcursionsSwapWithDirection |
| ForwardOutcome.Record | analyze_sweep.py:139 | the tuple (direction, ret, mfe, mae, volume_total) of one scored event; its fields are pinned by EvaluateRecordsFaithful |
| ForwardOutcome.Evaluate | analyze_sweep.py:90-141 | `compute_ret_mfe_mae`: the records of the scored events in event order; ComputeRetMfeMae computes it, EvaluateRecordsFaithful/EvaluateAppend/NoForwardDataNoRecords state what it means |
| ForwardOutcome.ScanHorizonFrom | analyze_sweep.py:112-123 | the horizon loop stops where ScanEnd says, with the running max and min of the scanned prices |
| ForwardOutcome.ScanEvent | analyze_sweep.py:100-127 | the per-event search and scan compute exactly Score, including both skips |
| ForwardOutcome.EvaluateStep | analyze_sweep.py:99-139 | evaluating one more event appends at most that event's own record |
| ForwardOutcome.ExcursionSigns | analyze_sweep.py:130-137 | for a Down event mfe <= 0 <= mae; for any other direction mae <= 0 <= mfe |
| ForwardOutcome.ExcursionsSwapWithDirection | analyze_sweep.py:130-137 | Down uses the minimum for MFE and the maximum for MAE, Up the other way round |
| ForwardOutcome.RetWithinExcursions | analyze_sweep.py:112-137 | a scored event's horizon return lies between its excursions: mae <= ret <= mfe for Up, mfe <= ret <= mae for Down |
| ForwardOutcome.ScoredAppend | analyze_sweep.py:99-139 | scoring distributes over concatenated event lists: output order is event order |
| ForwardOutcome.RecordsAppend | analyze_sweep.py:139 | records of a concatenation are the concatenated records |
| ForwardOutcome.EvaluateAppend | analyze_sweep.py:99-139 | evaluating a concatenation gives the concatenated outputs, in order |
| ForwardOutcome.ScoredFromEvents | analyze_sweep.py:99-139 | every scored event is one of the input events |
| ForwardOutcome.RecordsAt | analyze_sweep.py:139 | record k is the record of scored event k |
| ForwardOutcome.EvaluateRecordsFaithful | analyze_sweep.py:99-139 | at most one record per event, each copying an input event's direction and volume, with MFE/MAE signs as the direction promises |
| ForwardOutcome.NoForwardDataNoRecords | analyze_sweep.py:109-110 | events with no tick at or after their end produce no records |
| ForwardOutcome.EvaluateExample | analyze_sweep.py:90-139 | an Up event ending at 10 with ticks (10,100), (20,102), (40,99) at horizon 30 gives ret -0.01, mfe 0.02, mae -0.01 |
| AnalyzeSweep.Directed | analyze_sweep.py:69-83 | no more events are kept than were reported |
| AnalyzeSweep.CollectSweeps | analyze_sweep.py:69-83 | the event loop keeps exactly the reported events of non-zero direction, in order |
| AnalyzeSweep.DirectedSpec | analyze_sweep.py:72-73 | no event of direction 0 reaches the evaluator, and every kept event was reported |
| AnalyzeSweep.DirectedKeepsAll | analyze_sweep.py:70-83 | every reported event of non-zero direction is kept |
| AnalyzeSweep.ComputeRetMfeMae | analyze_sweep.py:90-141 | the evaluator loop returns exactly Evaluate: one (direction, ret, mfe, mae, volume) record per event with forward data, in event order |
| SweepParamScan.Window | sweep_param_scan.py:57-80 | the window scan stops at or after its start and only at a tick more than window_sec after the base; its extremes bracket the base price |
| SweepParamScan.WindowSpec | sweep_param_scan.py:65-80 | every tick in the window lies within window_sec of the base tick, and the extremes bound their prices |
| SweepParamScan.ScanWindow | sweep_param_scan.py:57-80 | the inner while loop computes exactly the window's extremes, volumes and end |
| SweepParamScan.Candidate | sweep_param_scan.py:82-106 | an emitted event has direction +1 or -1 and starts at the base tick; Up ends at or above its start price, Down at or below |
| SweepParamScan.CandidateSpan | sweep_param_scan.py:65-106 | with ordered ticks and a non-negative window an event satisfies ts_start <= ts_end <= ts_start + window_sec |
| SweepParamScan.WindowEvent | sweep_param_scan.py:57-106 | one outer-loop iteration emits exactly Candidate's event |
| SweepParamScan.DetectSweeps | sweep_param_scan.py:47-110 | the nested loops return exactly Detect: one window per start index, at most one event each |
| SweepParamScan.Detect | sweep_param_scan.py:47-110 | `detect_sweeps_py` as a function: one Candidate per start index; DetectSweeps computes it and DetectWellFormed, DetectSpans, DetectStartsOrdered, UpTakesPrecedence state its properties |
| SweepParamScan.UpTakesPrecedence | sweep_param_scan.py:85-106 | when both thresholds hold only Up is emitted, with price_end = up_max and volume_total = up_vol |
| SweepParamScan.DetectWellFormed | sweep_param_scan.py:56-108 | no more events than window starts, and every event is a directed move (+1 ending at or above its start price, -1 at or below) |
| SweepParamScan.DetectSpans | sweep_param_scan.py:65-106 | with ordered ticks every event ends inside its window, never before it starts |
| SweepParamScan.DetectStartsBounded | sweep_param_scan.py:56-108 | with ordered ticks no event starts after the last window start scanned |
| SweepParamScan.DetectStartsOrdered | sweep_param_scan.py:56-108 | with ordered ticks events come out in non-decreasing start order |
| SweepParamScan.DetectExample | sweep_param_scan.py:47-110 | ticks (0,100,1), (0.05,101.5,3), (0.1,101.6,2), window 0.2, 100 bp, volume 4 give exactly one Up event 100 -> 101.6 of volume 6 |
| SweepParamScan.AllRets | sweep_param_scan.py:125-158 | one return per record |
| SweepParamScan.DownRets | sweep_param_scan.py:155-156 | the returns of the records of direction < 0, in order; with UpRets a partition of AllRets (RetSplitPartitions) |
| SweepParamScan.UpRets | sweep_param_scan.py:157-158 | the returns of every other record, in order; see RetSplitPartitions and RetSplitStep |
| SweepParamScan.RetSplitPartitions | sweep_param_scan.py:155-158 | every record's return lands in exactly one of the Down and Up lists (as multisets, nothing lost or duplicated) |
| SweepParamScan.RetSplitStep | sweep_param_scan.py:155-158 | a record of direction < 0 extends the Down list, any other the Up list |
| SweepParamScan.ComputeRetStats | sweep_param_scan.py:113-160 | the loop returns the Down and Up returns of Evaluate: skipped events contribute nothing, direction < 0 goes Down, anything else Up |
| SweepParamScan.RetStatsCount | sweep_param_scan.py:125-158 | len(down) + len(up) equals the number of events with forward data, which is at most len(sweeps) |
| SweepParamScan.FlattenAt | sweep_param_scan.py:177-179 | element i of loop block a is run after all the earlier blocks |
| SweepParamScan.GridLength | sweep_param_scan.py:177-179 | the nested loops visit \|ws\|·\|bps\|·\|vols\| configurations |
| SweepParamScan.GridAt | sweep_param_scan.py:177-180 | configuration (ws[a], bps[b], vols[c]) is visited, after the blocks of earlier windows and thresholds |
| SweepParamScan.GridOffsets | sweep_param_scan.py:177-179 | those offsets are a·\|bps\|·\|vols\| and b·\|vols\|: step (a·\|bps\| + b)·\|vols\| + c, window outermost |
| SweepParamScan.Grid | sweep_param_scan.py:177-179 | the configurations of the three nested loops in visiting order; GridLength, GridAt and GridOffsets state its size and order |
| SweepParamScan.RunConfig | sweep_param_scan.py:180-186 | one configuration's report: the detected sweeps' count and the Down and Up returns of those sweeps; GridSearch produces one per configuration |
| SweepParamScan.RunVolumes | sweep_param_scan.py:179-181 | the innermost loop runs detection and return stats once per minimum volume, in order |
| SweepParamScan.RunThresholds | sweep_param_scan.py:178-181 | the middle loop runs every threshold for one window, in order |
| SweepParamScan.GridSearch | sweep_param_scan.py:177-181 | one report per grid configuration, in window -> bp -> vol_min order |
| SweepParamScan.DefaultGridSize | sweep_param_scan.py:10-12 | the default lists give 27 configurations |
| OfflineAnalyze.OfflineRecords | offline_analyze.py:107 | one record per scored event |
| OfflineAnalyze.OfflineRecordOf | offline_analyze.py:94-107 | the tuple (direction, ret_30, mfe_30, mae_30, price0) of one scored event; OfflineAgreesWithEvaluate relates it to the analyze_sweep.py record |
| OfflineAnalyze.OfflineStep | offline_analyze.py:63-107 | one iteration moves the pointer forward to the first tick at or after ts_end and adds at most one record |
| OfflineAnalyze.OfflineRun | offline_analyze.py:63-107 | the pointer stays within the ticks, and there are at most as many records as events |
| OfflineAnalyze.PointerMonotone | offline_analyze.py:67-69 | the pointer never decreases across events and records only accumulate |
| OfflineAnalyze.OfflineDone | offline_analyze.py:70-71 | once the pointer reaches the end, no later event changes anything (the break) |
| OfflineAnalyze.PointerIsFreshSearch | offline_analyze.py:61-74 | for events sorted by ts_end the pointer is where a fresh search from the first tick would land |
| OfflineAnalyze.PointerBehind | offline_analyze.py:67-69 | for sorted events every tick behind the pointer lies before the next event's end |
| OfflineAnalyze.OfflineMatchesRescan | offline_analyze.py:53-109 | for events sorted by ts_end the pointer version scores exactly the events the rescanning version scores, with the same scans |
| OfflineAnalyze.OfflineRecordsAt | offline_analyze.py:107 | record k is built from scored event k |
| OfflineAnalyze.OfflineAgreesWithEvaluate | offline_analyze.py:53-109 | for sorted events the output equals analyze_sweep.py's at horizon 30 in direction, ret, mfe and mae, with field 5 the reference tick's price instead of the volume |
| OfflineAnalyze.OfflineRecordsSigned | offline_analyze.py:78-107 | every record's price0 is positive and its MFE/MAE have the signs its direction promises |
| OfflineAnalyze.ScoreAtPointer | offline_analyze.py:73-107 | the loop body at the pointer skips an empty scan and otherwise builds the record of the horizon scan |
| OfflineAnalyze.AdvancePointer | offline_analyze.py:67-69 | the pointer loop stops at the first tick at or after t0 |
| OfflineAnalyze.OfflineComputeRetMfeMae | offline_analyze.py:53-109 | the event loop with its break returns exactly OfflineRun's records |
| BookMaps.Upsert | orderbook_probe.py:89-101 | `apply_delta` on one side: entries in order, size <= 0 deleting and any other size setting; UpsertUntouched, UpsertLastWins and UpsertKeepsPositive state its effect |
| BookMaps.UpsertUntouched | orderbook_probe.py:89-101 | a price that no entry mentions keeps its level, or its absence |
| BookMaps.UpsertLastWins | orderbook_probe.py:90-101 | the last entry for a price decides: size <= 0 removes it, otherwise it holds that size |
| BookMaps.UpsertKeepsPositive | orderbook_probe.py:89-101 | delta upserts never leave a level of size <= 0 |
| BookMaps.PositiveLevels | orderbook_probe.py:79-86 | `apply_snapshot` on one side, the dict of the positive entries; characterised by PositiveLevelsSpec and PositiveLevelsUnmentioned and compared with the C++ snapshot by SnapshotsAgree |
| BookMaps.PositiveLevelsSpec | orderbook_probe.py:79-86 | a snapshot holds exactly the prices of its positive entries, each with a positive size taken from an entry |
| BookMaps.PositiveLevelsUnmentioned | orderbook_probe.py:81-86 | a price absent from the snapshot message is absent from the book |
| BookMaps.RemoveAbsent | orderbook_probe.py:93 | removing an absent price changes nothing (`pop(price, None)`) |
| BookMaps.SnapshotsAgree | cpp/orderflow_features.cpp:86-107 | without a repeated price the C++ clear-then-upsert snapshot equals the Python filtered snapshot |
| BookMaps.SnapshotsDifferOnRepeatedPrice | cpp/orderflow_features.cpp:86-98 | with a repeated price a later zero entry erases in C++ but is skipped in Python |
| BookMaps.MaxKey | orderbook_probe.py:104-105 | the best bid of a non-empty side is a present price at least every other |
| BookMaps.MinKey | orderbook_probe.py:107-108 | the best ask of a non-empty side is a present price at most every other |
| BookMaps.LargestKey | cpp/orderflow_features.cpp:71-74 | the last key of the side: present and no smaller than any price |
| BookMaps.SmallestKey | cpp/orderflow_features.cpp:76-79 | the first key of the side: present and no larger than any price |
| BookMaps.BandSum | orderbook_probe.py:127-128 | the summed sizes of the given prices that lie in a band; BandSumCounts, BandSumOutside, BandSumMonotone and BandSumNonNegative state what it adds up |
| BookMaps.Depth | cpp/orderflow_features.cpp:110-123 | the depth of a whole side in a band, BandSum over its prices; SumBand computes it and BelowVersusAtMost compares the two band edges |
| BookMaps.ScaleMonotone | orderbook_probe.py:125-126 | around a positive mid a larger pct widens the band on both edges |
| BookMaps.BandSumRemove | orderbook_probe.py:127-128 | the band sum does not depend on the order in which prices are visited |
| BookMaps.BandSumNonNegative | orderbook_probe.py:127-128 | with positive sizes every depth is non-negative |
| BookMaps.BandSumMonotone | orderbook_probe.py:125-128 | a band inside another never holds more depth |
| BookMaps.BandSumCounts | orderbook_probe.py:127 | a price in the band counts in full |
| BookMaps.BandSumOutside | orderbook_probe.py:127-128 | a band holding no price has depth 0 |
| BookMaps.BandSumAgree | orderbook_probe.py:127-128 | bands that agree on every present price give the same depth |
| BookMaps.BelowVersusAtMost | cpp/orderflow_features.cpp:118-121 | the strict C++ ask edge counts the inclusive Python depth minus exactly the level sitting on the edge |
| BookMaps.SumBand | cpp/orderflow_features.cpp:113-121 | the depth loop sums exactly the sizes of the prices in the band |
| OrderbookProbe.Direction | orderbook_probe.py:33 | direction is +1 iff the side starts with "b" in either case, otherwise -1 |
| OrderbookProbe.DirectionExamples | orderbook_probe.py:33 | "Buy", "buy", "B" are +1; "Sell", "", "S" are -1 |
| OrderbookProbe.InsertWindow | orderbook_probe.py:29 | inserting into a strictly sorted window list keeps it strictly sorted with the same members plus the new one |
| OrderbookProbe.SortedWindows | orderbook_probe.py:29 | the kept window list is strictly increasing and holds exactly the given windows |
| OrderbookProbe.DropBefore | orderbook_probe.py:37-40 | pruning removes a prefix, after which the oldest trade is not before the cutoff |
| OrderbookProbe.DropBeforeDropsOld | orderbook_probe.py:37-40 | only trades older than the cutoff are removed, and only from the front |
| OrderbookProbe.DropBeforeOrdered | orderbook_probe.py:37-40 | with trades in time order no retained trade is older than the cutoff |
| OrderbookProbe.Stats | orderbook_probe.py:57-68 | the per-window report (buy, sell, total, buy_share, net) of two sums; StatsSpec states what each field is |
| OrderbookProbe.StatsSpec | orderbook_probe.py:57-68 | total = buy + sell, net = buy - sell, buy_share·total = buy when total > 0 and 0 otherwise, in [0, 1] for non-negative volumes |
| OrderbookProbe.ShareAtMostOne | orderbook_probe.py:60 | a part over a positive whole lies in [0, 1] |
| OrderbookProbe.BuyVol | orderbook_probe.py:48-55 | the buy volume of the trades at most w seconds old; WindowsNested orders it across windows, DictSumsDistinct ties the summary loop to it |
| OrderbookProbe.SellVol | orderbook_probe.py:48-55 | the sell volume of those trades, every non-positive direction being a sell; see WindowsNested and DictSumsDistinct |
| OrderbookProbe.WindowsNested | orderbook_probe.py:48-55 | for w1 <= w2 the buy and sell sums of w1 are at most those of w2 |
| OrderbookProbe.AddTo | orderbook_probe.py:50-55 | adding one trade leaves the set of windows unchanged |
| OrderbookProbe.DictSums | orderbook_probe.py:45-55 | the accumulated dictionary has exactly one entry per listed window |
| OrderbookProbe.AddToDistinct | orderbook_probe.py:50-55 | with each window listed once a trade is added once to each window it falls in and nowhere else |
| OrderbookProbe.DictSumsDistinct | orderbook_probe.py:45-55 | with each window listed once the sums are exactly each window's buy and sell volume |
| OrderbookProbe.SummaryOf | orderbook_probe.py:42-68 | the corrected `summary`: per listed window the stats of its own volumes; AggFlowTracker.Summary returns it and SummaryFromSums ties it to the accumulation loop |
| OrderbookProbe.SummaryFromSums | orderbook_probe.py:42-68 | the per-window report built from those sums is the report of each window's own volumes |
| OrderbookProbe.DictSumsDoubleCounts | orderbook_probe.py:45-55 | as written, windows [1, 1] and one buy of 2 report buy volume 4 |
| OrderbookProbe.AggFlowTracker.MaxWindow | orderbook_probe.py:38 | windows[-1] is the longest window |
| OrderbookProbe.AggFlowTracker.constructor | orderbook_probe.py:28-30 | the tracker starts with the sorted distinct windows and no trades |
| OrderbookProbe.AggFlowTracker.Prune | orderbook_probe.py:37-40 | pops from the front exactly the trades older than ts_now - longest window |
| OrderbookProbe.AggFlowTracker.AddTrade | orderbook_probe.py:32-35 | appends (ts, direction, vol) and then prunes at ts |
| OrderbookProbe.AggFlowTracker.Summary | orderbook_probe.py:42-68 | prunes, then reports for every window the stats of that window's buy and sell volume |
| OrderbookProbe.AccumulateSums | orderbook_probe.py:48-55 | the loop over trades computes the dictionary sums |
| OrderbookProbe.AddTradeToSums | orderbook_probe.py:50-55 | the loop over windows adds one trade to each window it falls in |
| OrderbookProbe.OrderBookL2.constructor | orderbook_probe.py:74-77 | the book starts with empty sides |
| OrderbookProbe.OrderBookL2.ApplySnapshot | orderbook_probe.py:79-87 | both sides are rebuilt from the positive entries; sizes stay positive |
| OrderbookProbe.OrderBookL2.ApplyDelta | orderbook_probe.py:89-102 | entries are applied in order, bids then asks: size <= 0 deletes, otherwise upserts; sizes stay positive |
| OrderbookProbe.BestBid | orderbook_probe.py:104-105 | None iff the bid side is empty, otherwise the largest bid price |
| OrderbookProbe.BestAsk | orderbook_probe.py:107-108 | None iff the ask side is empty, otherwise the smallest ask price |
| OrderbookProbe.Mid | orderbook_probe.py:110-115 | None iff either side is empty |
| OrderbookProbe.LiquidityWithin | orderbook_probe.py:117-129 | `liquidity_within`: (0, 0) without a mid, else the bid and ask depth in the inclusive band; LiquidityMonotone states its bounds |
| OrderbookProbe.LiquidityMonotone | orderbook_probe.py:117-129 | depths are non-negative and a wider band around a positive mid holds at least as much on each side |
| OrderbookProbe.Push5 | orderbook_probe.py:146 | the bias history keeps at most 5 samples, the new one last, dropping the oldest when full |
| OrderbookProbe.Push5KeepsLatest | orderbook_probe.py:146 | every sample before the newest was already in the history |
| OrderbookProbe.RunOf | orderbook_probe.py:178-196 | the run rule on the history; RunOfSpec characterises it and RunOfRecorded derives the sign of net and share of a reported run |
| OrderbookProbe.RunOfSpec | orderbook_probe.py:178-196 | a run is reported iff there are 3 samples of one non-zero direction with non-decreasing \|net\| and a decisive last share (>= 0.7 buy, <= 0.3 sell); it carries the newest direction and net |
| OrderbookProbe.RunOfRecorded | orderbook_probe.py:178-196 | over recorded samples a BUY run has three positive nets and newest share >= 0.7, a SELL run three negative nets and share <= 0.3 |
| OrderbookProbe.SampleOf | orderbook_probe.py:158-176 | a sample is recorded iff the 1 s stats exist with total > 0 and net != 0, and its direction is ±1 |
| OrderbookProbe.SampleOfRecorded | orderbook_probe.py:158-176 | a recorded sample's direction is the sign of its net, and it carries the 1 s net and buy_share |
| OrderbookProbe.RunDetector.constructor | orderbook_probe.py:146 | the history starts empty, so every sample in it is a recorded one |
| OrderbookProbe.RunDetector.DetectRun | orderbook_probe.py:157-196 | without a sample nothing is recorded and None is returned; otherwise the sample is pushed and the run rule applied to the new history; the history keeps holding only recorded samples, so RunOfRecorded applies to every run it reports |
| OrderbookProbe.ApplyRunRule | orderbook_probe.py:178-196 | the run test returns exactly RunOf |
| OrderbookProbe.WeakSideOf | orderbook_probe.py:219-227 | the weak-side verdict for a pair of depths; WeakSideSpec gives both iffs and the symmetry |
| OrderbookProbe.WeakSideSpec | orderbook_probe.py:219-227 | bid is weak iff both depths > 0 and bid < 0.4·ask; ask is weak iff both > 0 and ask < 0.4·bid; the rule is symmetric under swapping sides |
| SlidingExtreme.PopCovered | cpp/orderflow_features.h:58-66 | the deque after the back-popping loop; PopCoveredSpec says only covered entries go |
| SlidingExtreme.Push | cpp/orderflow_features.h:56-67 | pop the covered entries then append the point; PushMonotone keeps the deque monotone |
| SlidingExtreme.EvictFront | cpp/orderflow_features.h:72-79 | the deque after front eviction; EvictFrontSpec says only out-of-window entries go, from the front |
| SlidingExtreme.AddPoint | cpp/orderflow_features.h:56-70 | `add` on one deque: push then evict at the point's time; AddKeepsNewest keeps the point at the back |
| SlidingExtreme.Run | cpp/orderflow_features.h:56-79 | one deque after a sequence of add/evict calls; RunMonotone, RunInv and WindowExtreme state what it holds |
| SlidingExtreme.Kept | cpp/orderflow_features.h:58-60 | the back-popping loop stops at an entry the new value does not cover |
| SlidingExtreme.PopCoveredSpec | cpp/orderflow_features.h:58-66 | every popped entry is covered by the new value (<= for max, >= for min) |
| SlidingExtreme.Evicted | cpp/orderflow_features.h:73-78 | eviction stops at the first entry inside the window |
| SlidingExtreme.EvictFrontSpec | cpp/orderflow_features.h:72-79 | only entries with ts_now - ts > window_sec are evicted, from the front |
| SlidingExtreme.AddKeepsNewest | cpp/orderflow_features.h:56-70 | with window_sec >= 0, (ts, v) is the back of the deque after add, so it is non-empty |
| SlidingExtreme.PushMonotone | cpp/orderflow_features.h:56-67 | push keeps max_q strictly decreasing and min_q strictly increasing |
| SlidingExtreme.EvictMonotone | cpp/orderflow_features.h:72-79 | eviction keeps the deques monotone |
| SlidingExtreme.RunMonotone | cpp/orderflow_features.h:56-79 | after any calls, in any time order, max_q strictly decreases and min_q strictly increases front to back |
| SlidingExtreme.RunInv | cpp/orderflow_features.h:56-79 | after calls in time order the deques are monotone, time-sorted, inside the window, and dominate every added point in the window |
| SlidingExtreme.RunFromPoints | cpp/orderflow_features.h:56-70 | every deque entry is a point that add added |
| SlidingExtreme.RunInWindow | cpp/orderflow_features.h:72-79 | after calls in time order every entry lies inside the window of the last call |
| SlidingExtreme.FrontExtreme | cpp/orderflow_features.h:82-83 | a dominated monotone deque holds the window's extreme at its front |
| SlidingExtreme.WindowExtreme | cpp/orderflow_features.h:56-83 | after calls in time order the deque is empty iff no added point is in the window, and its front is the window's maximum (minimum) |
| SlidingExtreme.NewExtremeMeans | cpp/orderflow_features.h:56-83 | right after add(ts, v), v covers the front iff v is at least as extreme as every value added inside the window |
| SlidingExtreme.EmptyTogether | cpp/orderflow_features.h:81 | after calls in time order the two deques are empty together |
| SlidingExtreme.WindowFacts | cpp/orderflow_features.h:81-83 | both deques' fronts are in-window added points that bound every in-window value |
| SlidingExtreme.RollingExtreme.constructor | cpp/orderflow_features.h:53-54 | empty deques with the given window |
| SlidingExtreme.RollingExtreme.EvictQueues | cpp/orderflow_features.h:72-79 | both front-eviction loops compute EvictFront |
| SlidingExtreme.RollingExtreme.Evict | cpp/orderflow_features.h:72-79 | evict keeps both deques equal to the model of the calls so far |
| SlidingExtreme.RollingExtreme.PopMax | cpp/orderflow_features.h:58-60 | the max back-popping loop computes PopCovered and touches nothing else |
| SlidingExtreme.RollingExtreme.PopMin | cpp/orderflow_features.h:64-66 | the min back-popping loop computes PopCovered and touches nothing else |
| SlidingExtreme.RollingExtreme.Add | cpp/orderflow_features.h:56-70 | add keeps the deques equal to the model of the calls, with (ts, v) at the back of both when window_sec >= 0 |
| SlidingExtreme.RollingExtreme.Empty | cpp/orderflow_features.h:81 | after calls in time order empty() iff no added point lies in the window of the last call |
| SlidingExtreme.RollingExtreme.CurrentMax | cpp/orderflow_features.h:82 | 0.0 on an empty deque; otherwise, in time order, the largest value added inside the window |
| SlidingExtreme.RollingExtreme.CurrentMin | cpp/orderflow_features.h:83 | 0.0 on an empty deque; otherwise, in time order, the smallest value added inside the window |
| OrderflowFeatures.TradesDropped | cpp/orderflow_features.cpp:9-12 | trade pruning stops at a trade not older than the cutoff |
| OrderflowFeatures.Sec | cpp/orderflow_features.cpp:20 | the second of a timestamp, the exact floor |
| OrderflowFeatures.PrunedTrades | cpp/orderflow_features.cpp:9-12 | the trades left by the first loop of prune_trades; see TradesDroppedSpec and PrunedTradesRecent |
| OrderflowFeatures.PrunedBuckets | cpp/orderflow_features.cpp:13-16 | the buckets left by the second loop; see BucketsDroppedSpec |
| OrderflowFeatures.TradesDroppedSpec | cpp/orderflow_features.cpp:9-12 | only trades with ts < ts_now - 10 are removed, from the front |
| OrderflowFeatures.BucketsDropped | cpp/orderflow_features.cpp:13-16 | bucket pruning stops at a bucket not before the cutoff second |
| OrderflowFeatures.BucketsDroppedSpec | cpp/orderflow_features.cpp:13-16 | only buckets with sec < floor(ts_now) - 5 are removed, from the front |
| OrderflowFeatures.PrunedTradesRecent | cpp/orderflow_features.cpp:8-12 | with trades in time order no retained trade is older than ts_now - 10 |
| OrderflowFeatures.VolWithin | cpp/orderflow_features.cpp:154-169 | the volume of one side's trades aged 0 to horizon seconds; VolNested orders the three windows, PruneKeepsVolumes shows pruning keeps them |
| OrderflowFeatures.VolNested | cpp/orderflow_features.cpp:154-169 | per side, 0 <= 1 s volume <= 3 s volume <= 10 s volume |
| OrderflowFeatures.VolWithinOld | cpp/orderflow_features.cpp:156-158 | trades older than the window contribute nothing |
| OrderflowFeatures.PruneKeepsVolumes | cpp/orderflow_features.cpp:8-12 | pruning at ts_now - 10 loses nothing from any window of at most 10 s |
| OrderflowFeatures.WindowVolumes | cpp/orderflow_features.cpp:154-170 | the trade loop sums per side the trades aged between 0 and 1, 3, 10 s; negative ages are ignored |
| OrderflowFeatures.Share | cpp/orderflow_features.cpp:172-177 | with volume the shares add up to 1 and buy_share·total = buy; without, both are 0 |
| OrderflowFeatures.ShareBounds | cpp/orderflow_features.cpp:172-177 | with non-negative volumes both shares lie in [0, 1] |
| OrderflowFeatures.Booked | cpp/orderflow_features.cpp:20-29 | after booking there is always a last bucket |
| OrderflowFeatures.BookedSpec | cpp/orderflow_features.cpp:19-29 | a bucket is opened only for a new second, earlier buckets are untouched, and the volume goes to exactly one side |
| OrderflowFeatures.BookedIncreasing | cpp/orderflow_features.cpp:20-29 | booking a trade no older than the newest bucket keeps seconds increasing and ends at its second |
| OrderflowFeatures.EvictIncreasing | cpp/orderflow_features.cpp:30-33 | the eviction loop leaves a non-empty increasing run inside [cutoff, last] |
| OrderflowFeatures.BookAndEvict | cpp/orderflow_features.cpp:19-34 | booking then evicting leaves only the seconds sec - 5 .. sec, at most six buckets |
| OrderflowFeatures.BucketUpdate | cpp/orderflow_features.cpp:19-34 | `update_bucket`: book the trade into its second, then evict old seconds; BookAndEvict and BucketUpdateSpec state the result |
| OrderflowFeatures.BucketUpdateSpec | cpp/orderflow_features.cpp:19-34 | update_bucket in time order keeps buckets ordered by second, the trade's second newest, at most six |
| OrderflowFeatures.BucketDir | cpp/orderflow_features.cpp:46-54 | `bucket_dir`; BucketDirSpec states it without division |
| OrderflowFeatures.BucketDirSpec | cpp/orderflow_features.cpp:46-54 | a bucket is Buy iff buy > sell and buy >= 0.7 of the total, Sell iff buy < sell and buy <= 0.3 of it |
| OrderflowFeatures.AggRunOf | cpp/orderflow_features.cpp:36-69 | `refresh_agg_run`'s rule; AggRunSpec characterises it and BuyRunBuckets derives what a Buy run says of each bucket |
| OrderflowFeatures.AggRunSpec | cpp/orderflow_features.cpp:36-69 | None with fewer than 3 buckets; a run iff the 3 newest share one direction and \|net\| never falls, and then it is the newest bucket's direction |
| OrderflowFeatures.BuyRunBuckets | cpp/orderflow_features.cpp:46-69 | a Buy run means each of the 3 newest buckets has buy > sell and buy >= 0.7 of its total |
| OrderflowFeatures.MidPrice | cpp/orderflow_features.cpp:190-196 | the mid lies between uncrossed positive best prices, and is the last trade price when either is missing |
| OrderflowFeatures.FlagsMean | cpp/orderflow_features.cpp:216-224 | right after add in time order, the new-high (new-low) flag test holds iff the mid is the highest (lowest) mid in the window |
| OrderflowFeatures.OrderFlowFeatureExtractor.constructor | cpp/orderflow_features.cpp:5-6 | empty deques and book, rolling extremes of 20 s and 30 s |
| OrderflowFeatures.OrderFlowFeatureExtractor.PruneTrades | cpp/orderflow_features.cpp:8-17 | prune_trades removes the old trades and then the old buckets, from the front |
| OrderflowFeatures.OrderFlowFeatureExtractor.EvictBucketsLoop | cpp/orderflow_features.cpp:14-16 | the bucket loop pops exactly the buckets before the cutoff second |
| OrderflowFeatures.OrderFlowFeatureExtractor.UpdateBucket | cpp/orderflow_features.cpp:19-34 | update_bucket computes BucketUpdate |
| OrderflowFeatures.OrderFlowFeatureExtractor.RefreshAggRun | cpp/orderflow_features.cpp:36-69 | refresh_agg_run sets the run direction of the current buckets |
| OrderflowFeatures.OrderFlowFeatureExtractor.BestBid | cpp/orderflow_features.cpp:71-74 | 0.0 for an empty side, otherwise the largest bid price |
| OrderflowFeatures.OrderFlowFeatureExtractor.BestAsk | cpp/orderflow_features.cpp:76-79 | 0.0 for an empty side, otherwise the smallest ask price |
| OrderflowFeatures.OrderFlowFeatureExtractor.ApplyBookEntries | cpp/orderflow_features.cpp:81-108 | a snapshot clears first; entries are applied in order, size <= 0 erasing and otherwise setting; sizes stay positive |
| OrderflowFeatures.OrderFlowFeatureExtractor.ApplySnapshot | cpp/orderflow_features.cpp:134-138 | the book becomes the upserts of the entries into empty sides |
| OrderflowFeatures.OrderFlowFeatureExtractor.ApplyDelta | cpp/orderflow_features.cpp:140-144 | the entries are upserted into the current sides |
| OrderflowFeatures.OrderFlowFeatureExtractor.DepthWithin | cpp/orderflow_features.cpp:110-123 | bid depth at or above mid·(1-pct), ask depth strictly below mid·(1+pct) |
| OrderflowFeatures.OrderFlowFeatureExtractor.AddTrade | cpp/orderflow_features.cpp:125-132 | records the last price and time, appends and prunes the trade, books its bucket and refreshes the run |
| OrderflowFeatures.OrderFlowFeatureExtractor.BookPrices | cpp/orderflow_features.cpp:188-196 | the frame's best prices and mid |
| OrderflowFeatures.OrderFlowFeatureExtractor.FrameDepths | cpp/orderflow_features.cpp:197-205 | the six band depths, all 0 without a positive mid |
| OrderflowFeatures.OrderFlowFeatureExtractor.HighLow | cpp/orderflow_features.cpp:216-224 | adds the mid to both extremes; in time order each flag is set iff the mid is the window's high (low) |
| OrderflowFeatures.OrderFlowFeatureExtractor.TradeFeatures | cpp/orderflow_features.cpp:151-170 | prunes, refreshes the run and sums the windows; the sums equal those over the trades held before pruning |
| OrderflowFeatures.OrderFlowFeatureExtractor.GetFrame | cpp/orderflow_features.cpp:146-228 | the frame field by field: ts (last tick time when ts_now <= 0), windowed volumes, shares, best prices, mid, depths, weak side, high/low flags (untouched extremes and false flags without a positive mid), run direction |
| StreamingSweep.SideVolFront | cpp/sweep_model.cpp:17-33 | popping the oldest tick takes its own volume off its side's sum |
| StreamingSweep.Expired | cpp/sweep_model.cpp:17-34 | the eviction loop stops at a tick within long_win of now |
| StreamingSweep.ExpiredSpec | cpp/sweep_model.cpp:17-34 | every popped tick was older than long_win, and pops come from the front |
| StreamingSweep.EvictedRecent | cpp/sweep_model.cpp:15-34 | with ordered ticks no retained tick is older than long_win |
| StreamingSweep.ShortDropZero | cpp/sweep_model.cpp:23-30 | with short_win <= long_win no popped tick is young enough to lower the short totals |
| StreamingSweep.RatioPasses | cpp/sweep_model.cpp:81-85 | the short/long volume ratio test; RatioPassesSpec states it without division |
| StreamingSweep.RatioPassesSpec | cpp/sweep_model.cpp:81-85 | the ratio test is short_total·long_win >= threshold·long_total·short_win |
| StreamingSweep.Classify | cpp/sweep_model.cpp:74-94 | the signal of process_tick for the four totals; ClassifySpec characterises it and RatioAlwaysPasses shows when the ratio test is vacuous |
| StreamingSweep.ClassifySpec | cpp/sweep_model.cpp:74-94 | NoSignal without long volume; Up iff the ratio passes and short buy > 1.5·short sell; Down iff it passes, Up fails and sell > 1.5·buy; with non-negative volumes Up and Down conditions exclude each other |
| StreamingSweep.RatioAlwaysPasses | cpp/sweep_model.cpp:74-85 | once short totals reach the long totals, the test passes whenever long_win >= threshold·short_win |
| StreamingSweep.ConsistentStep | cpp/sweep_model.cpp:56-71 | process_tick keeps the deque the newest part of the processed ticks, and with short_win <= long_win the short totals only grow |
| StreamingSweep.SweepModel.constructor | cpp/sweep_model.cpp:4-13 | empty deque and zero totals |
| StreamingSweep.SweepModel.PopOldest | cpp/sweep_model.cpp:19-33 | one pop takes the tick's volume off the long total and, when aged <= short_win, off the short total |
| StreamingSweep.SweepModel.EvictOld | cpp/sweep_model.cpp:15-54 | pops exactly the expired ticks and keeps the long totals the side sums of the deque; the second loop changes nothing |
| StreamingSweep.SweepModel.PushTick | cpp/sweep_model.cpp:63-71 | appends the tick and adds its volume to both totals of its side |
| StreamingSweep.SweepModel.Decide | cpp/sweep_model.cpp:74-94 | the decision is Classify of the current totals and changes nothing |
| StreamingSweep.SweepModel.EvictAndPush | cpp/sweep_model.cpp:57-71 | evicts at the tick's time, then pushes it |
| StreamingSweep.SweepModel.ProcessTick | cpp/sweep_model.cpp:56-95 | the new deque, the long totals as side sums, the short deltas, only growth when short_win <= long_win, and the returned signal |
| StreamingSweep.SweepModel.RatioTestPasses | cpp/sweep_model.cpp:81-85 | with short_win <= long_win, non-negative volumes and long_win >= threshold·short_win, every state with long volume passes the ratio test |
| StreamingSweep.SweepModel.ShortCoversLong | cpp/sweep_model.cpp:23-30 | with short_win <= long_win and non-negative volumes the short totals are at least the long totals |
| MeanReversion.ReturnBp | cpp/mean_reversion_strategy.cpp:51 | the return in basis points, with IEEE results for a zero entry price; ReturnBpMeans reads its thresholds as price tests |
| MeanReversion.ReturnBpMeans | cpp/mean_reversion_strategy.cpp:51-87 | with a positive entry price, ret >= b and -ret >= b are the price thresholds (price - entry)·10000 >= b·entry and (entry - price)·10000 >= b·entry |
| MeanReversion.SweepStep | cpp/mean_reversion_strategy.cpp:3-44 | `on_sweep` on the position; SweepStepFlat and SweepStepHolding state both cases and OnSweep implements it |
| MeanReversion.SweepStepFlat | cpp/mean_reversion_strategy.cpp:19-43 | when flat, direction > 0 opens short, < 0 opens long, 0 stays flat with Idle; an open is at price_end and ts_end + delay_ms/1000 and records the position |
| MeanReversion.SweepStepHolding | cpp/mean_reversion_strategy.cpp:6-17 | in position on_sweep never opens; it closes at the event's price_end and ts_end iff the direction is -pos_dir, reporting pos_dir; otherwise nothing changes |
| MeanReversion.TickStep | cpp/mean_reversion_strategy.cpp:46-99 | `on_tick` on the position; TickStepSpec, LongCloses and ShortCloses state when it closes and OnTick implements it |
| MeanReversion.TickStepSpec | cpp/mean_reversion_strategy.cpp:46-99 | flat: Idle, stays flat; in position: Close at the tick reporting the held direction, or Idle with the position kept; a tick at least hold_sec after entry always closes |
| MeanReversion.LongCloses | cpp/mean_reversion_strategy.cpp:51-96 | a long position closes iff the price rose tp_bp, fell sl_bp, or hold_sec passed |
| MeanReversion.ShortCloses | cpp/mean_reversion_strategy.cpp:51-96 | a short position closes iff the price fell tp_bp, rose sl_bp, or hold_sec passed |
| MeanReversion.MeanReversionStrategy.State | cpp/mean_reversion_strategy.h:28-31 | the four fields read as a position whose direction is ±1 |
| MeanReversion.MeanReversionStrategy.constructor | cpp/mean_reversion_strategy.h:33-43 | the strategy starts flat with the given parameters |
| MeanReversion.MeanReversionStrategy.ClearPosition | cpp/mean_reversion_strategy.cpp:101-106 | all four position fields are reset: flat |
| MeanReversion.MeanReversionStrategy.OnSweep | cpp/mean_reversion_strategy.cpp:3-44 | the new position and the action are those of SweepStep, and in_position iff pos_dir is ±1 is kept |
| MeanReversion.MeanReversionStrategy.OnTick | cpp/mean_reversion_strategy.cpp:46-99 | the new position and the action are those of TickStep, and the invariant is kept |
| TradeRecords.ParseTrade | fetch_trades_eth.py:35-78 | `parse_trade`: timestamp, price, volume and side in that order, the first error winning; ParsedFields, MissingFamilyErrors, FirstOfSpec, the KeyWins lemmas, SideMapping, ContainerValues and ParseIsLocal state its behaviour |
| TradeRecords.ParseTs | fetch_trades_eth.py:37-44 | the timestamp family: int() of the first present key over 1000; see TsKeyWins, MsStringAgrees |
| TradeRecords.ParsePrice | fetch_trades_eth.py:46-54 | the price family: float() of the first present key; see PriceKeyWins |
| TradeRecords.ParseVol | fetch_trades_eth.py:56-64 | the volume family: float() of the first present key; see VolKeyWins |
| TradeRecords.ParseSide | fetch_trades_eth.py:66-76 | the side family mapped to "B" or "S"; see SideMapping and SideKeyWins |
| TradeRecords.ToInt | fetch_trades_eth.py:38 | Python int() of a JSON value, None where it raises; see MsStringAgrees and ContainerValues |
| TradeRecords.ToFloat | fetch_trades_eth.py:48 | Python float() of a JSON value, None where it raises; see ContainerValues |
| TradeRecords.Truthy | fetch_trades_eth.py:73-74 | Python truthiness of the maker flag, containers by emptiness; see SideMapping and ContainerValues |
| TradeRecords.Upper | fetch_trades_eth.py:70 | upper-casing keeps the length and maps each ASCII character |
| TradeRecords.UpperBuy | fetch_trades_eth.py:70 | a side string upper-cases to "BUY" iff it is one of the casings of "buy" |
| TradeRecords.FirstOf | fetch_trades_eth.py:37-44 | a chosen key is present in the record |
| TradeRecords.FirstOfSpec | fetch_trades_eth.py:37-42 | the earliest present key of a family wins, whatever later keys are present; none present iff no key is |
| TradeRecords.ParseIsLocal | fetch_trades_eth.py:35-78 | the parse reads only the twelve field keys: records agreeing on them parse the same |
| TradeRecords.TsKeyWins | fetch_trades_eth.py:37-42 | with T present, time and execTime are ignored |
| TradeRecords.PriceKeyWins | fetch_trades_eth.py:47-52 | with p present, price and execPrice are ignored |
| TradeRecords.VolKeyWins | fetch_trades_eth.py:57-62 | with v present, size and execQty are ignored |
| TradeRecords.SideKeyWins | fetch_trades_eth.py:67-74 | with S present, side and isBuyerMaker are ignored |
| TradeRecords.MissingFamilyErrors | fetch_trades_eth.py:43-76 | a missing timestamp, price, volume or side family raises its own Unknown-field error, in that order of checking |
| TradeRecords.ParsedFields | fetch_trades_eth.py:66-78 | a parsed trade is (ts, price, vol, side) of the four parsed fields, and side is "B" or "S" |
| TradeRecords.SideMapping | fetch_trades_eth.py:67-74 | S gives "B" iff exactly "Buy"; side gives "B" iff it upper-cases to "BUY"; isBuyerMaker gives "B" iff falsy |
| TradeRecords.ContainerValues | fetch_trades_eth.py:37-76 | a list or object as a field: int()/float() raise, `.upper()` raises, `== "Buy"` is false, and a maker flag counts by emptiness |
| TradeRecords.DigitsRoundTrip | fetch_trades_eth.py:38 | reading back the decimal digits of n gives n |
| TradeRecords.MsStringAgrees | fetch_trades_eth.py:38 | a millisecond timestamp given as a digit string parses like the integer |

## Left out

- Network, WebSocket and HTTP plumbing: `run_probe`, `parse_args` and `fetch_once`/`main` of fetch_trades_eth.py. These are callbacks, reconnect loops and requests, with no logic to state.
- CSV loading (`load_ticks`, `load_sweeps`, the file loop of `generate_sweeps_from_ticks`). This is file I/O. The sorts the loaders perform are preconditions instead: `TimeOrdered` for ticks, `SortedByEnd` for events.
- numpy statistics, matplotlib plots and every printout (`summarize`, `summarize_and_plot`, the prints of `main`). `SweepParamScan.GridSearch` reports the sweep count and the two return lists per configuration, not their formatted mean/std/median.
- `ProbeReporter.maybe_emit`: its wall-clock cadence, string formatting and `_log` are not modelled. Only its weak-side rule (`OrderbookProbe.WeakSideOf`) and the `_detect_run` it calls are. `OrderBookL2.last_ts` is a wall-clock reading and is not modelled.
- `agg_stats.get(1.0) or agg_stats.get(1)` is modelled as one lookup of the key 1.0, because Python's 1 and 1.0 are the same dictionary key.
- Floating point: prices, volumes and times are exact reals, with no rounding and no NaN or infinities. The one exception is `MeanReversion.ReturnBp`, which gives the IEEE results of dividing by a zero entry price.
- `static_cast<int>(std::floor(ts))` is modelled as the exact floor (`OrderflowFeatures.Sec`). The overflow of the cast for huge timestamps is not modelled.
- `std::map` and `dict` keys are exact real keys, and a side of the book is a `map<real, real>`. `rbegin()`/`begin()` and the ordered `lower_bound` walk are modelled by what they select: the largest key, the smallest key, and the keys in the band.
- `SweepModel` fields that `process_tick` never updates (`in_sweep_`, `last_sweep_ts_`, `last_price_`, `has_last_price_`) are not modelled, and neither is `get_last_event`, because `last_event_` is never assigned.
- The header of `SweepModel` declares two deques (`window_long_`, `window_short_`) while the implementation uses one `window_`. The model follows the implementation.
- The `generate_sweeps_from_ticks` loop that feeds the streaming model is not modelled as a whole. `AnalyzeSweep.CollectSweeps` takes, per tick, the event the model reported (or none) and models its direction-0 filter.
- `bindings.cpp` (pybind11 glue), offline_backtest.py, ws_long_smoketest.py, live_bybit_strategy.py and ws_test.py are not part of this model. They are replay or live drivers around the modelled objects.
- SweepParamScan.DetectSweeps: requires every price > 0; Python raises ZeroDivisionError on a zero base price instead.
- SweepParamScan.ComputeRetStats: requires every price > 0; Python raises ZeroDivisionError on a zero reference price instead.
- AnalyzeSweep.ComputeRetMfeMae: requires every price > 0; Python raises ZeroDivisionError on a zero reference price instead.
- OfflineAnalyze.OfflineComputeRetMfeMae: requires every price > 0; Python raises ZeroDivisionError on a zero reference price instead.
- OrderbookProbe.AggFlowTracker.constructor: requires a non-empty window list, because Python's `windows[-1]` raises IndexError on the first prune otherwise. It keeps each window length once, which is the corrected behaviour of the finding below.
- StreamingSweep.SweepModel.constructor: requires short_win > 0 and long_win > 0, because the ratio divides by both. Zero or negative windows (C++ infinities or sign flips) are not modelled.
- SlidingExtreme.RollingExtreme.CurrentMax: says what the value means only for calls with non-decreasing timestamps. Out of order, only the 0.0-on-empty case and the deque's monotone shape are stated.
- SlidingExtreme.RollingExtreme.CurrentMin: says what the value means only for calls with non-decreasing timestamps, like CurrentMax.
- SlidingExtreme.RollingExtreme.Empty: says what the value means only for calls with non-decreasing timestamps.
- OrderflowFeatures.BucketUpdateSpec: assumes each trade's second is no older than the newest bucket's. Out-of-order trades are booked as the code does, but the ordering and size bounds are not claimed for them.
- MeanReversion.MeanReversionStrategy.OnSweep: requires the invariant that in_position holds iff pos_dir is ±1, and that all four fields are 0 when flat. The C++ fields are public and could be set to break it.
- MeanReversion.MeanReversionStrategy.OnTick: requires the same position invariant as OnSweep.
- TradeRecords.ParseTrade: `int()`/`float()` on strings are modelled for plain signed integers and decimals only. Surrounding whitespace, underscores, exponents, "inf"/"nan", and non-ASCII digits or upper-casing are treated as errors or left unchanged.

## Findings

| source | as written | input that shows it | evidently intended | confidence | as-written member | corrected member |
|---|---|---|---|---|---|---|
| orderbook_probe.py:29 | `sorted(windows)` keeps a repeated window length. `summary` then adds each trade once per listing to the single dictionary entry for that length (orderbook_probe.py:45-55). | windows [1.0, 1.0] and one buy of volume 2 at the query time: buy volume 4 is reported where the window holds 2 | each window's sums are the volume of the trades inside it, counted once | not executed; reachable only when a caller repeats a window length | OrderbookProbe.DictSumsDoubleCounts | OrderbookProbe.DictSumsDistinct |
