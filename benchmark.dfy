/**
 * The benchmark columns of every case: cycle time in hours, percentile ranks
 * of cycle time and activity count ("average" tie method, scaled to 100), and
 * the performance tier binned from the cycle-time percentile.
 */
module Benchmarking {
  import opened Wrappers
  import opened EventLog
  import opened Cases

  /** Cycle time of a case: the seconds from its first to its last event, in hours. */
  function CycleTimeHours(c: Case): (hours: real)
    ensures hours >= 0.0 <==> c.startTime <= c.endTime
    ensures hours == 0.0 <==> c.startTime == c.endTime
  {
    (c.endTime - c.startTime) as real / 3600.0
  }

  /**
   * The cycle time of a grouped case is never negative, and it is zero exactly
   * when all of the object's timestamps are equal (so always for a single row).
   */
  lemma CycleTimeOfCase(recs: seq<Record>, id: ObjectId)
    requires id in Ids(recs)
    ensures CycleTimeHours(CaseOf(recs, id)) >= 0.0
    ensures CycleTimeHours(CaseOf(recs, id)) == 0.0
        <==> forall t :: t in TimesOf(recs, id) ==> t == TimesOf(recs, id)[0]
    ensures |TimesOf(recs, id)| == 1 ==> CycleTimeHours(CaseOf(recs, id)) == 0.0
  {
    var ts := TimesOf(recs, id);
    CaseOfBounds(recs, id);
    assert ts[0] in ts;
    if CycleTimeHours(CaseOf(recs, id)) == 0.0 {
      forall t | t in ts ensures t == ts[0] {
        var j :| 0 <= j < |recs| && recs[j].objectId == id && recs[j].time == t;
        var j0 :| 0 <= j0 < |recs| && recs[j0].objectId == id && recs[j0].time == ts[0];
      }
    }
  }

  /** How many of vals lie strictly below v. */
  function CountBelow(vals: seq<real>, v: real): nat {
    if |vals| == 0 then 0
    else CountBelow(vals[..|vals| - 1], v) + (if vals[|vals| - 1] < v then 1 else 0)
  }

  /** How many of vals equal v. */
  function CountEqual(vals: seq<real>, v: real): nat {
    if |vals| == 0 then 0
    else CountEqual(vals[..|vals| - 1], v) + (if vals[|vals| - 1] == v then 1 else 0)
  }

  /** How many of vals lie strictly above v. */
  function CountAbove(vals: seq<real>, v: real): nat {
    if |vals| == 0 then 0
    else CountAbove(vals[..|vals| - 1], v) + (if v < vals[|vals| - 1] then 1 else 0)
  }

  /**
   * The "average" rank of v among vals: the values below v take positions
   * 1 to CountBelow, and the values equal to v share the mean of the next
   * CountEqual positions.
   */
  function AverageRank(vals: seq<real>, v: real): (rank: real)
    ensures v in vals ==> 1.0 <= rank <= |vals| as real
  {
    CountsPartition(vals, v);
    CountBelow(vals, v) as real + (CountEqual(vals, v) as real + 1.0) / 2.0
  }

  /** The percentile rank of v: its average rank over the number of values, times 100. */
  function PercentileRank(vals: seq<real>, v: real): real
    requires |vals| > 0
  {
    AverageRank(vals, v) / |vals| as real * 100.0
  }

  /** A whole column ranked: the percentile rank of each value among all of them. */
  function Percentiles(vals: seq<real>): (pcts: seq<real>)
    ensures |pcts| == |vals|
  {
    seq(|vals|, i requires 0 <= i < |vals| => PercentileRank(vals, vals[i]))
  }

  /** Every value is below, equal to or above v, and v itself is among the equal ones. */
  lemma {:induction false} CountsPartition(vals: seq<real>, v: real)
    ensures CountBelow(vals, v) + CountEqual(vals, v) + CountAbove(vals, v) == |vals|
    ensures v in vals <==> CountEqual(vals, v) >= 1
  {
    if |vals| > 0 {
      var init := vals[..|vals| - 1];
      CountsPartition(init, v);
      assert vals == init + [vals[|vals| - 1]];
    }
  }

  /** Every value below or equal to v is below a larger w. */
  lemma {:induction false} CountBelowGrows(vals: seq<real>, v: real, w: real)
    requires v < w
    ensures CountBelow(vals, v) + CountEqual(vals, v) <= CountBelow(vals, w)
  {
    if |vals| > 0 {
      CountBelowGrows(vals[..|vals| - 1], v, w);
    }
  }

  /** A value of the column has a percentile rank in (0, 100]. */
  lemma PercentileRange(vals: seq<real>, v: real)
    requires v in vals
    ensures 0.0 < PercentileRank(vals, v) <= 100.0
  {
    CountsPartition(vals, v);
    var n := |vals| as real;
    var rank := AverageRank(vals, v);
    assert 1.0 <= rank <= n;
    assert PercentileRank(vals, v) == (rank / n) * 100.0;
    DivideWithin(rank, n);
  }

  lemma DivideWithin(a: real, n: real)
    requires 0.0 < a <= n
    ensures 0.0 < a / n <= 1.0
  {
  }

  /** A strictly smaller value of the column gets a strictly smaller percentile rank. */
  lemma PercentileStrictlyMonotone(vals: seq<real>, v: real, w: real)
    requires v in vals && w in vals && v < w
    ensures PercentileRank(vals, v) < PercentileRank(vals, w)
  {
    CountsPartition(vals, v);
    CountBelowGrows(vals, v, w);
    var n := |vals| as real;
    assert AverageRank(vals, v) < AverageRank(vals, w);
    DivideMonotone(AverageRank(vals, v), AverageRank(vals, w), n);
  }

  lemma DivideMonotone(a: real, b: real, n: real)
    requires a < b && 0.0 < n
    ensures a / n * 100.0 < b / n * 100.0
  {
  }

  /** The only value of a one-value column ranks at 100. */
  lemma PercentileSingle(v: real)
    ensures PercentileRank([v], v) == 100.0
  {
    var single := [v];
    assert single[..|single| - 1] == [];
    assert CountBelow(single, v) == CountBelow([], v) + 0 == 0;
    assert CountEqual(single, v) == CountEqual([], v) + 1 == 1;
    assert AverageRank([v], v) == 1.0;
  }

  /**
   * Ranking a column: every percentile lies in (0, 100], equal values get
   * equal percentiles, a smaller value a strictly smaller one, and a column
   * of one value ranks it at 100.
   */
  lemma PercentilesProperties(vals: seq<real>)
    ensures forall i :: 0 <= i < |vals| ==> 0.0 < Percentiles(vals)[i] <= 100.0
    ensures forall i, j :: 0 <= i < |vals| && 0 <= j < |vals| && vals[i] == vals[j]
              ==> Percentiles(vals)[i] == Percentiles(vals)[j]
    ensures forall i, j :: 0 <= i < |vals| && 0 <= j < |vals| && vals[i] < vals[j]
              ==> Percentiles(vals)[i] < Percentiles(vals)[j]
    ensures |vals| == 1 ==> Percentiles(vals) == [100.0]
  {
    var pcts := Percentiles(vals);
    forall i | 0 <= i < |vals| ensures 0.0 < pcts[i] <= 100.0 {
      PercentileRange(vals, vals[i]);
    }
    forall i, j | 0 <= i < |vals| && 0 <= j < |vals| && vals[i] < vals[j] ensures pcts[i] < pcts[j] {
      PercentileStrictlyMonotone(vals, vals[i], vals[j]);
    }
    if |vals| == 1 {
      assert vals == [vals[0]];
      PercentileSingle(vals[0]);
    }
  }

  /** The sum of the average ranks, within vals, of the given items. */
  function SumRanks(items: seq<real>, vals: seq<real>): real {
    if |items| == 0 then 0.0
    else SumRanks(items[..|items| - 1], vals) + AverageRank(vals, items[|items| - 1])
  }

  /** Appending x to the column raises each item's rank by 1 if x is below it and by 1/2 if x ties it. */
  lemma {:induction false} SumRanksExtend(items: seq<real>, vals: seq<real>, x: real)
    ensures SumRanks(items, vals + [x])
         == SumRanks(items, vals) + CountAbove(items, x) as real + CountEqual(items, x) as real / 2.0
  {
    assert (vals + [x])[..|vals|] == vals;
    if |items| > 0 {
      SumRanksExtend(items[..|items| - 1], vals, x);
    }
  }

  /**
   * Average ranks redistribute the positions 1 to n of the sorted column:
   * they add up to n (n + 1) / 2 whatever the ties.
   */
  lemma {:induction false} RankSum(vals: seq<real>)
    ensures 2.0 * SumRanks(vals, vals) == (|vals| * (|vals| + 1)) as real
  {
    if |vals| > 0 {
      var m := |vals| - 1;
      var init, x := vals[..m], vals[m];
      assert vals == init + [x];
      RankSum(init);
      SumRanksExtend(init, init, x);
      CountsPartition(init, x);
      var below, equal, above := CountBelow(init, x), CountEqual(init, x), CountAbove(init, x);
      assert CountBelow(vals, x) == below;
      assert CountEqual(vals, x) == equal + 1;
      assert AverageRank(vals, x) == below as real + (equal as real + 2.0) / 2.0;
      assert SumRanks(vals, vals) == SumRanks(init, vals) + AverageRank(vals, x);
      assert SumRanks(init, vals) == SumRanks(init, init) + above as real + equal as real / 2.0;
      RankSumStep(SumRanks(init, init), m);
      assert SumRanks(vals, vals) == SumRanks(init, init) + (m + 1) as real;
    }
  }

  lemma RankSumStep(sum: real, m: nat)
    requires 2.0 * sum == (m * (m + 1)) as real
    ensures 2.0 * (sum + (m + 1) as real) == ((m + 1) * (m + 2)) as real
  {
    assert (m + 1) * (m + 2) == m * (m + 1) + 2 * (m + 1);
  }

  /** The four performance tiers, best first. */
  datatype Tier = TopPerformer | AboveAverage | BelowAverage | LowPerformer

  /** The position of a tier in the order best to worst. */
  function Ordinal(t: Tier): nat {
    match t
    case TopPerformer => 0
    case AboveAverage => 1
    case BelowAverage => 2
    case LowPerformer => 3
  }

  /** The bin edges of the performance tiers. */
  const Bins: seq<real> := [0.0, 25.0, 50.0, 75.0, 100.0]

  /** The labels of the bins, lowest bin first. */
  const Labels: seq<Tier> := [TopPerformer, AboveAverage, BelowAverage, LowPerformer]

  predicate Increasing(edges: seq<real>) {
    forall i, j :: 0 <= i < j < |edges| ==> edges[i] < edges[j]
  }

  /**
   * Binning with right-closed bins whose lowest edge is excluded: x falls in
   * bin k when edges[k] < x <= edges[k + 1]; outside every bin it is None (NaN).
   */
  function Cut(x: real, edges: seq<real>, labels: seq<Tier>): (r: Option<Tier>)
    requires |edges| == |labels| + 1
    ensures r.Some? ==> r.value in labels
  {
    if |labels| == 0 then None
    else if edges[0] < x <= edges[1] then Some(labels[0])
    else Cut(x, edges[1..], labels[1..])
  }

  /** With increasing edges, x gets the label of the one bin that holds it. */
  lemma {:induction false} CutInBin(x: real, edges: seq<real>, labels: seq<Tier>, k: nat)
    requires |edges| == |labels| + 1 && Increasing(edges)
    requires k < |labels| && edges[k] < x <= edges[k + 1]
    ensures Cut(x, edges, labels) == Some(labels[k])
  {
    if k > 0 {
      assert edges[1] <= edges[k];
      CutInBin(x, edges[1..], labels[1..], k - 1);
    }
  }

  /** With increasing edges, x gets no label exactly when it lies outside (first edge, last edge]. */
  lemma {:induction false} CutOutside(x: real, edges: seq<real>, labels: seq<Tier>)
    requires |edges| == |labels| + 1 && Increasing(edges)
    ensures Cut(x, edges, labels).None? <==> !(edges[0] < x <= edges[|edges| - 1])
  {
    if |labels| > 0 {
      CutOutside(x, edges[1..], labels[1..]);
      assert edges[0] < edges[1] <= edges[|edges| - 1];
    }
  }

  /** The tier of a cycle-time percentile. */
  function PerformanceTier(p: real): Option<Tier> {
    Cut(p, Bins, Labels)
  }

  /** The tier table: (0,25], (25,50], (50,75] and (75,100], and no tier elsewhere. */
  lemma TierTable(p: real)
    ensures PerformanceTier(p) == if 0.0 < p <= 25.0 then Some(TopPerformer)
                                  else if 25.0 < p <= 50.0 then Some(AboveAverage)
                                  else if 50.0 < p <= 75.0 then Some(BelowAverage)
                                  else if 75.0 < p <= 100.0 then Some(LowPerformer)
                                  else None
  {
    assert Increasing(Bins);
    CutOutside(p, Bins, Labels);
    if 0.0 < p <= 25.0 {
      CutInBin(p, Bins, Labels, 0);
    } else if 25.0 < p <= 50.0 {
      CutInBin(p, Bins, Labels, 1);
    } else if 50.0 < p <= 75.0 {
      CutInBin(p, Bins, Labels, 2);
    } else if 75.0 < p <= 100.0 {
      CutInBin(p, Bins, Labels, 3);
    }
  }

  /** Every percentile in (0, 100] gets a tier; 0 itself falls outside every bin. */
  lemma TierTotal(p: real)
    ensures PerformanceTier(p).Some? <==> 0.0 < p <= 100.0
    ensures PerformanceTier(0.0).None?
  {
    TierTable(p);
    TierTable(0.0);
  }

  /** A higher percentile never gets a better tier. */
  lemma TierMonotone(p: real, q: real)
    requires 0.0 < p <= q <= 100.0
    ensures PerformanceTier(p).Some? && PerformanceTier(q).Some?
    ensures Ordinal(PerformanceTier(p).value) <= Ordinal(PerformanceTier(q).value)
  {
    TierTable(p);
    TierTable(q);
  }

  /** One row of the benchmark table. */
  datatype BenchmarkRow = BenchmarkRow(
    objectId: ObjectId,
    startTime: Timestamp,
    endTime: Timestamp,
    activityCount: nat,
    cycleTimeHours: real,
    cycleTimePercentile: real,
    activityCountPercentile: real,
    performanceTier: Option<Tier>)

  /** The cycle-time column of the grouped frame. */
  function CycleTimes(cases: seq<Case>): seq<real> {
    seq(|cases|, i requires 0 <= i < |cases| => CycleTimeHours(cases[i]))
  }

  /** The activity-count column of the grouped frame. */
  function ActivityCounts(cases: seq<Case>): seq<real> {
    seq(|cases|, i requires 0 <= i < |cases| => cases[i].activityCount as real)
  }

  /** Adds the cycle time, both percentile columns and the tier to every case. */
  function Benchmark(cases: seq<Case>): (rows: seq<BenchmarkRow>)
    ensures |rows| == |cases|
  {
    var hours := CycleTimes(cases);
    var cyclePct := Percentiles(hours);
    var countPct := Percentiles(ActivityCounts(cases));
    seq(|cases|, i requires 0 <= i < |cases| =>
      BenchmarkRow(cases[i].objectId, cases[i].startTime, cases[i].endTime, cases[i].activityCount,
                   hours[i], cyclePct[i], countPct[i], PerformanceTier(cyclePct[i])))
  }

  /**
   * The benchmark keeps every case's id, times and count, and adds its
   * cycle time, percentiles in (0, 100] and a tier for every case.
   */
  lemma BenchmarkKeepsCases(cases: seq<Case>)
    ensures |Benchmark(cases)| == |cases|
    ensures forall i :: 0 <= i < |cases| ==>
              var row := Benchmark(cases)[i];
              && row.objectId == cases[i].objectId
              && row.startTime == cases[i].startTime
              && row.endTime == cases[i].endTime
              && row.activityCount == cases[i].activityCount
              && row.cycleTimeHours == CycleTimeHours(cases[i])
              && 0.0 < row.cycleTimePercentile <= 100.0
              && 0.0 < row.activityCountPercentile <= 100.0
              && row.performanceTier.Some?
  {
    var rows := Benchmark(cases);
    var hours := CycleTimes(cases);
    PercentilesProperties(hours);
    PercentilesProperties(ActivityCounts(cases));
    forall i | 0 <= i < |cases| ensures rows[i].performanceTier.Some? {
      TierTotal(rows[i].cycleTimePercentile);
    }
  }

  /** Cycle-time percentiles order cases as their cycle times do, ties included. */
  lemma BenchmarkOrdersCycleTime(cases: seq<Case>)
    ensures forall i, j :: 0 <= i < |cases| && 0 <= j < |cases| && CycleTimeHours(cases[i]) == CycleTimeHours(cases[j])
              ==> Benchmark(cases)[i].cycleTimePercentile == Benchmark(cases)[j].cycleTimePercentile
    ensures forall i, j :: 0 <= i < |cases| && 0 <= j < |cases| && CycleTimeHours(cases[i]) < CycleTimeHours(cases[j])
              ==> Benchmark(cases)[i].cycleTimePercentile < Benchmark(cases)[j].cycleTimePercentile
  {
    var hours := CycleTimes(cases);
    PercentilesProperties(hours);
    forall i, j | 0 <= i < |cases| && 0 <= j < |cases| && CycleTimeHours(cases[i]) < CycleTimeHours(cases[j])
      ensures Benchmark(cases)[i].cycleTimePercentile < Benchmark(cases)[j].cycleTimePercentile
    {
      assert hours[i] < hours[j];
    }
  }

  /** Every case gets a tier, and a longer cycle time never a better one. */
  lemma BenchmarkOrdersTiers(cases: seq<Case>)
    ensures forall i, j :: 0 <= i < |cases| && 0 <= j < |cases| && CycleTimeHours(cases[i]) <= CycleTimeHours(cases[j])
              ==> && Benchmark(cases)[i].performanceTier.Some?
                  && Benchmark(cases)[j].performanceTier.Some?
                  && Ordinal(Benchmark(cases)[i].performanceTier.value) <= Ordinal(Benchmark(cases)[j].performanceTier.value)
  {
    var rows := Benchmark(cases);
    var hours := CycleTimes(cases);
    var pcts := Percentiles(hours);
    PercentilesProperties(hours);
    forall i, j | 0 <= i < |cases| && 0 <= j < |cases| && CycleTimeHours(cases[i]) <= CycleTimeHours(cases[j])
      ensures && rows[i].performanceTier.Some? && rows[j].performanceTier.Some?
              && Ordinal(rows[i].performanceTier.value) <= Ordinal(rows[j].performanceTier.value)
    {
      assert hours[i] <= hours[j];
      assert pcts[i] <= pcts[j];
      TierMonotone(pcts[i], pcts[j]);
    }
  }

  /** Activity-count percentiles order cases as their activity counts do, ties included. */
  lemma BenchmarkOrdersActivityCount(cases: seq<Case>)
    ensures forall i, j :: 0 <= i < |cases| && 0 <= j < |cases| && cases[i].activityCount == cases[j].activityCount
              ==> Benchmark(cases)[i].activityCountPercentile == Benchmark(cases)[j].activityCountPercentile
    ensures forall i, j :: 0 <= i < |cases| && 0 <= j < |cases| && cases[i].activityCount < cases[j].activityCount
              ==> Benchmark(cases)[i].activityCountPercentile < Benchmark(cases)[j].activityCountPercentile
  {
    var counts := ActivityCounts(cases);
    PercentilesProperties(counts);
    forall i, j | 0 <= i < |cases| && 0 <= j < |cases| && cases[i].activityCount < cases[j].activityCount
      ensures Benchmark(cases)[i].activityCountPercentile < Benchmark(cases)[j].activityCountPercentile
    {
      assert counts[i] < counts[j];
    }
  }

  /** A single case ranks at 100 on both metrics, which is the bin (75, 100]. */
  lemma BenchmarkSingleCase(c: Case)
    ensures Benchmark([c]) == [BenchmarkRow(c.objectId, c.startTime, c.endTime, c.activityCount,
                                            CycleTimeHours(c), 100.0, 100.0, Some(LowPerformer))]
  {
    PercentilesProperties(CycleTimes([c]));
    PercentilesProperties(ActivityCounts([c]));
    TierTable(100.0);
  }
}
