# Process benchmarking pipeline, modelled in Dafny

This project models the computational core of the benchmarking notebook
`Create_benchmark_data.py`. The notebook reads an object-centric event log
(OCEL JSON) and flattens it into one row per (event, related object) pair.
It drops rows whose timestamp did not parse or whose activity is missing, and
groups the rest by `object_id` into cases (first timestamp, last timestamp,
number of rows). It then adds to every case its cycle time in hours, the
percentile ranks of cycle time and activity count, and a performance tier
binned from the cycle-time percentile.

Files, one module each:

- `wrappers.dfy` (`Wrappers`): `Option` (a missing key, null, NaT or NaN) and `Result`.
- `event_log.dfy` (`EventLog`): events, flattened rows and the flattening loop.
  `Flatten` is a method with the script's two nested loops, proved equal to
  `FlattenSpec`. `DropIncomplete` is the null filter.
- `object_ids.dfy` (`ObjectIds`): Python's string order on object ids.
  Grouping lists its groups in this order.
- `cases.dfy` (`Cases`): the group-by. `Aggregate` takes the rows in one at a
  time into an id-ordered table, like a hash aggregation. It is proved equal to
  the direct definition `CaseOf`, which is the min, max and count of the
  object's timestamps.
- `benchmark.dfy` (`Benchmarking`): the cycle time, and the "average" tie
  method percentile rank in closed form (below + (equal + 1) / 2, over n,
  times 100). It also holds `pd.cut` as `Cut` over general bins, and the tier
  table with bins 0, 25, 50, 75, 100.
- `pipeline.dfy` (`Pipeline`): the whole script as `Run` and as the method
  `RunScript`, with its end-to-end properties and three concrete scenarios.

Timestamps are whole seconds (`int`). Cycle times and percentiles are exact
`real`s, not floats. `activity_count` counts the non-null activities of a
group. After the null filter every activity is present, so this is the
group's number of rows, and the model defines it that way.

Three behaviours of the code that differ from what a reader might expect. The model follows the code in each:

- Empty log. One might expect an empty input to give an empty table. In
  the code, a log with no (event, object) pair flattens to a frame with no
  columns, and selecting `df['timestamp']` (line 40) raises. `Run` returns
  `Failure(MissingTimestampColumn)` exactly then (`RunFails`). A log whose
  rows are all dropped by the filter gives an empty case table. The summary
  statistics the script prints next (line 77) would then take percentiles of
  an empty column and fail; that step is outside the model.
- Tier of the 100th percentile. A lone case might be expected to be a
  "Top Performer". The code's bins are right-closed, so percentile 100 falls in
  (75, 100], which is "Low Performer". `OneCaseScenario` and
  `BenchmarkSingleCase` prove the code's outcome.
- Percentile 0. One might expect percentile 0 to go in the lowest band.
  The code adds no such rule: `pd.cut` leaves 0 outside every bin
  (`TierTotal`). It is proved that percentile 0 never occurs (`PercentileRange`).

## Model

| member | source | states |
|---|---|---|
| EventLog.FlattenSpec | Create_benchmark_data.py:27-37 | the flattened frame: for each event in log order, one row per related object; it has exactly `PairCount(log)` rows. `FlattenPairs` and `FlattenOrigin` state where each row comes from |
| EventLog.Flatten | Create_benchmark_data.py:27-37 | the loop over events and their `ocel:omap` objects builds exactly the flattened rows `FlattenSpec`, one row per (event, object) in log order |
| EventLog.FlattenPairs | Create_benchmark_data.py:27-37 | there are exactly as many rows as (event, object) pairs; the pair of event i and its k-th object sits at its own position and carries the event's id, activity and timestamp |
| EventLog.FlattenOrigin | Create_benchmark_data.py:28-37 | every flattened row comes from some event and one of its related objects |
| EventLog.FlattenSnoc | Create_benchmark_data.py:28-37 | one more event at the end of the log appends exactly its own rows, one per related object |
| EventLog.FlattenAppend | Create_benchmark_data.py:28-37 | flattening a log split in two gives the rows of the first part followed by those of the second |
| EventLog.NoOmapNoRows | Create_benchmark_data.py:31 | an event without an `ocel:omap` key contributes no rows: removing it leaves the flattened rows unchanged |
| EventLog.AsRow | Create_benchmark_data.py:41 | a kept record stands for a row with both timestamp and activity present |
| EventLog.ToRecord | Create_benchmark_data.py:41 | a complete row and the record it is kept as determine each other |
| EventLog.DropIncomplete | Create_benchmark_data.py:40-41 | each record is kept exactly as many times as its complete row occurs; rows with no timestamp (including unparsable ones) or no activity are removed |
| EventLog.DropIncompleteExact | Create_benchmark_data.py:41 | a row of the frame is removed exactly when its timestamp or activity is absent, and a complete row is always kept |
| ObjectIds.IdLessTransitive | Create_benchmark_data.py:47 | the group order on object ids (Python string comparison) is transitive |
| ObjectIds.IdLessTotal | Create_benchmark_data.py:47 | any two distinct object ids are ordered one way or the other |
| ObjectIds.IdLessIrreflexive | Create_benchmark_data.py:47 | no object id sorts before itself |
| ObjectIds.IdLessAsymmetric | Create_benchmark_data.py:47 | two ids never sort before each other both ways |
| Cases.TimesOf | Create_benchmark_data.py:47-50 | an object's timestamps are exactly those of its rows, and there are some exactly when the object occurs |
| Cases.CaseOf | Create_benchmark_data.py:47-50 | the case of one object computed directly: its id, the min and max of its timestamps (start <= end) and its row count, at least 1; `CaseOfBounds` states the rest |
| Cases.MinOf | Create_benchmark_data.py:48 | `start_time` is a timestamp of the group no larger than any other |
| Cases.MaxOf | Create_benchmark_data.py:49 | `end_time` is a timestamp of the group no smaller than any other |
| Cases.CaseOfBounds | Create_benchmark_data.py:47-50 | for every case, start <= end, both are timestamps of its object, no row of the object lies outside them, and `activity_count` is its row count, at least 1 |
| Cases.Lookup | Create_benchmark_data.py:47 | a found case belongs to the table and has the id asked for; if none is found, no case has that id |
| Cases.Accumulate | Create_benchmark_data.py:46-52 | taking in one row grows the case table by at most one case; `AccumulateSorted` and `AccumulateLookup` state what it does to each case |
| Cases.Aggregate | Create_benchmark_data.py:46-52 | the grouped table, built one row at a time, is in strictly increasing id order and has no more cases than rows; `AggregateSpec` and `GroupByObject` state its contents |
| Cases.AccumulateSorted | Create_benchmark_data.py:46-52 | taking in one row keeps the case table in strictly increasing id order and adds no case of another object |
| Cases.AccumulateLookup | Create_benchmark_data.py:46-52 | taking in one row opens its object's case or widens it and counts it, and leaves every other case unchanged |
| Cases.AggregateStep | Create_benchmark_data.py:46-52 | after one more row, the case of each object equals the direct min/max/count case of the longer row list |
| Cases.MinMaxSnoc | Create_benchmark_data.py:48-49 | one more timestamp lowers the minimum or raises the maximum exactly when it lies beyond them |
| Cases.AggregateSpec | Create_benchmark_data.py:46-52 | the grouped table is id-ordered and holds, for each object id, exactly the direct case, and nothing for ids that do not occur |
| Cases.GroupByObject | Create_benchmark_data.py:46-52 | grouping yields one case per distinct object id of the surviving rows and no others, no id twice, in id order, each with its first and last timestamp and its row count |
| Cases.LookupSorted | Create_benchmark_data.py:47 | in an id-ordered table, looking up a case's id finds that case |
| Benchmarking.CycleTimeHours | Create_benchmark_data.py:55 | the cycle time is non-negative exactly when start <= end, and zero exactly when start == end |
| Benchmarking.CycleTimeOfCase | Create_benchmark_data.py:55 | a grouped case's cycle time is never negative; it is zero exactly when all of its object's timestamps are equal, and so always for a single row |
| Benchmarking.AverageRank | Create_benchmark_data.py:61-62 | the "average" tie rank of a value: tied values share the mean of their positions; for a value of the column it lies between 1 and n |
| Benchmarking.PercentileRank | Create_benchmark_data.py:61-62 | `rank(pct=True) * 100` of one value — no contract of its own; `PercentileRange`, `PercentileStrictlyMonotone` and `PercentileSingle` state it |
| Benchmarking.Percentiles | Create_benchmark_data.py:61-62 | the ranked column has one percentile per value; `PercentilesProperties` and `RankSum` state what they are |
| Benchmarking.CountsPartition | Create_benchmark_data.py:61-62 | every value of a column is below, equal to or above v, and v occurs exactly when its equal count is at least 1 |
| Benchmarking.CountBelowGrows | Create_benchmark_data.py:61-62 | the values below or equal to v all lie below any larger w |
| Benchmarking.PercentileRange | Create_benchmark_data.py:61-62 | the percentile rank of a value of the column lies in (0, 100] |
| Benchmarking.PercentileStrictlyMonotone | Create_benchmark_data.py:61-62 | a strictly smaller value gets a strictly smaller percentile rank |
| Benchmarking.PercentileSingle | Create_benchmark_data.py:61-62 | the only value of a one-value column ranks at 100 |
| Benchmarking.PercentilesProperties | Create_benchmark_data.py:61-62 | for a whole column, every percentile lies in (0, 100], equal values get equal percentiles, smaller values strictly smaller ones, and one value ranks at 100 |
| Benchmarking.SumRanksExtend | Create_benchmark_data.py:61-62 | one more value x raises every other value's average rank by 1 if x is below it and by 1/2 if x ties it |
| Benchmarking.RankSum | Create_benchmark_data.py:61-62 | the average ranks of a column add up to n(n+1)/2, the sum of the positions 1..n they share out among tied values |
| Benchmarking.Cut | Create_benchmark_data.py:65-69 | `pd.cut` over general right-closed bins: any label it gives is one of the bin labels; `CutInBin` and `CutOutside` state which |
| Benchmarking.CutInBin | Create_benchmark_data.py:65-69 | with increasing edges, a value in the right-closed bin (edges[k], edges[k+1]] gets label k |
| Benchmarking.CutOutside | Create_benchmark_data.py:65-69 | with increasing edges, a value gets no label exactly when it is outside (first edge, last edge], the lowest edge excluded |
| Benchmarking.PerformanceTier | Create_benchmark_data.py:65-69 | the tier of a cycle-time percentile with bins 0, 25, 50, 75, 100 — no contract of its own; `TierTable`, `TierTotal` and `TierMonotone` state it |
| Benchmarking.TierTable | Create_benchmark_data.py:65-69 | the tier is Top Performer on (0,25], Above Average on (25,50], Below Average on (50,75], Low Performer on (75,100], and none elsewhere |
| Benchmarking.TierTotal | Create_benchmark_data.py:65-69 | a percentile gets a tier exactly when it lies in (0, 100]; percentile 0 gets none |
| Benchmarking.TierMonotone | Create_benchmark_data.py:65-69 | a higher percentile never gets a better tier |
| Benchmarking.Benchmark | Create_benchmark_data.py:55-69 | the case table with its four added columns, one row per case; `BenchmarkKeepsCases` and the `BenchmarkOrders` lemmas state the columns |
| Benchmarking.BenchmarkKeepsCases | Create_benchmark_data.py:55-69 | the added columns leave each case's id, start, end and count unchanged; each row gets its cycle time, both percentiles in (0, 100] and a tier |
| Benchmarking.BenchmarkOrdersCycleTime | Create_benchmark_data.py:55-61 | equal cycle times get equal cycle-time percentiles, and a shorter cycle time a strictly smaller one |
| Benchmarking.BenchmarkOrdersTiers | Create_benchmark_data.py:61-69 | every case gets a tier, and a case with a longer cycle time never gets a better tier than a shorter one |
| Benchmarking.BenchmarkOrdersActivityCount | Create_benchmark_data.py:62 | equal activity counts get equal activity-count percentiles, and a smaller count a strictly smaller one |
| Benchmarking.BenchmarkSingleCase | Create_benchmark_data.py:55-69 | a single case ranks at 100 on both metrics and gets tier Low Performer |
| Pipeline.Run | Create_benchmark_data.py:27-69 | the whole script as one function: on success, no more output rows than (event, object) pairs; `RunFails` and `RunProperties` state when it fails and what it returns |
| Pipeline.RunScript | Create_benchmark_data.py:27-69 | the script's steps, with flattening done by its loop, compute the benchmark table `Run` |
| Pipeline.RunFails | Create_benchmark_data.py:39-40 | the script raises exactly when no event relates to any object (the frame has no `timestamp` column) |
| Pipeline.RunProperties | Create_benchmark_data.py:27-69 | end to end: one row per distinct object of the complete rows and no others, each with its object's first and last timestamp and row count (at least 1), a non-negative cycle time, percentiles in (0, 100] and a tier |
| Pipeline.OneCaseScenario | Create_benchmark_data.py:27-69 | two events an hour apart on one object give one case: count 2, 1.0 hours, both percentiles 100, tier Low Performer |
| Pipeline.ThreeCaseScenario | Create_benchmark_data.py:55-69 | cycle times of 1, 2 and 3 hours rank at 100/3, 200/3 and 100, with tiers Above Average, Below Average and Low Performer; three equal counts all rank at 200/3 |
| Pipeline.DistinctRanks | Create_benchmark_data.py:61 | three distinct values 1, 2, 3 rank at 100/3, 200/3 and 100 |
| Pipeline.TiedRanks | Create_benchmark_data.py:62 | three equal values all rank at 200/3, the average of positions 1, 2 and 3 |
| Pipeline.DroppedEventScenario | Create_benchmark_data.py:27-69 | an event whose timestamp did not parse yields no case, even though it names an object |

## Left out

- Reading the JSON file (lines 19-22) is file I/O and is not modelled. The log is given as the `ocel:events` mapping, as a sequence of (event id, event) pairs in iteration order. A missing `ocel:events` key (a KeyError) is not modelled.
- Timestamp parsing with `pd.to_datetime(..., errors='coerce')` (line 40) is a library call. An event's timestamp is given already parsed, as `Option<int>` seconds. `None` stands for a missing key, a null or a value coerced to NaT. Sub-second precision is not modelled.
- An `ocel:omap` that is present but null would raise a TypeError on iteration. The model reads `ocel:omap` as either absent or a list of string ids.
- Floating-point rounding of `total_seconds() / 3600` and of `rank(pct=True) * 100` is not modelled; the model uses exact `real` arithmetic. With floats, two nearly equal cycle times could round to the same value and tie.
- The summary statistics and printing (lines 74-86) are display-only floating-point statistics and are not modelled.
- The SAP HANA connection, table creation, row inserts and commit (lines 91-140) are database I/O and are not modelled.
- Create_SQL_Agent.py only configures a LangChain SQL agent and loops over sample questions. It has no logic of its own and is not part of this model.
