/**
 * The benchmarking script end to end: flatten the event log, drop rows
 * without a timestamp or activity, group by object, and add the benchmark
 * columns.
 */
module Pipeline {
  import opened Wrappers
  import opened EventLog
  import opened Cases
  import opened Benchmarking

  /**
   * Why the script stops. A log without any (event, object) pair flattens to
   * a frame without columns, and selecting its `timestamp` column raises.
   */
  datatype PipelineError = MissingTimestampColumn

  /** The benchmark table the script computes from an event log. */
  function Run(log: Log): (r: Result<seq<BenchmarkRow>, PipelineError>)
    ensures r.Success? ==> |r.value| <= PairCount(log)
  {
    var rows := FlattenSpec(log);
    if |rows| == 0 then Failure(MissingTimestampColumn)
    else Success(Benchmark(Aggregate(DropIncomplete(rows))))
  }

  /** The script's steps in order, with the flattening done by its loop. */
  method RunScript(log: Log) returns (result: Result<seq<BenchmarkRow>, PipelineError>)
    ensures result == Run(log)
  {
    var rows := Flatten(log);
    if |rows| == 0 {
      return Failure(MissingTimestampColumn);
    }
    var records := DropIncomplete(rows);
    result := Success(Benchmark(Aggregate(records)));
  }

  /** The script fails exactly when no event relates to any object. */
  lemma RunFails(log: Log)
    ensures Run(log).Failure? <==> PairCount(log) == 0
  {
  }

  /**
   * End to end: one benchmark row per distinct object of the complete rows
   * and no others, each carrying its object's first and last timestamp and
   * row count, a non-negative cycle time, percentiles in (0, 100] and a tier.
   */
  lemma RunProperties(log: Log)
    requires Run(log).Success?
    ensures var recs := DropIncomplete(FlattenSpec(log));
            forall row :: row in Run(log).value ==>
              && row.objectId in Ids(recs)
              && row.startTime == CaseOf(recs, row.objectId).startTime
              && row.endTime == CaseOf(recs, row.objectId).endTime
              && row.activityCount == CaseOf(recs, row.objectId).activityCount >= 1
              && 0.0 <= row.cycleTimeHours
              && 0.0 < row.cycleTimePercentile <= 100.0
              && 0.0 < row.activityCountPercentile <= 100.0
              && row.performanceTier.Some?
    ensures var recs := DropIncomplete(FlattenSpec(log));
            forall id :: id in Ids(recs) ==> exists row :: row in Run(log).value && row.objectId == id
    ensures forall i, j :: 0 <= i < j < |Run(log).value| ==> Run(log).value[i].objectId != Run(log).value[j].objectId
  {
    var recs := DropIncomplete(FlattenSpec(log));
    var cases := Aggregate(recs);
    var out := Run(log).value;
    GroupByObject(recs);
    BenchmarkKeepsCases(cases);
    forall row | row in out
      ensures && row.objectId in Ids(recs)
              && row.startTime == CaseOf(recs, row.objectId).startTime
              && row.endTime == CaseOf(recs, row.objectId).endTime
              && row.activityCount == CaseOf(recs, row.objectId).activityCount >= 1
              && 0.0 <= row.cycleTimeHours
    {
      var k :| 0 <= k < |out| && out[k] == row;
      assert cases[k] in cases;
      CaseOfBounds(recs, row.objectId);
    }
    forall id | id in Ids(recs) ensures exists row :: row in out && row.objectId == id {
      var c :| c in cases && c.objectId == id;
      var k :| 0 <= k < |cases| && cases[k] == c;
      assert out[k] in out;
    }
  }

  /**
   * Two events one hour apart on the same object: one case with two
   * activities, one hour of cycle time, both percentiles at 100, and so the
   * tier of the top bin (75, 100].
   */
  lemma OneCaseScenario()
    ensures Run([("e1", Event(Some(0), Some("A"), Some(["o1"]))),
                 ("e2", Event(Some(3600), Some("B"), Some(["o1"])))])
         == Success([BenchmarkRow("o1", 0, 3600, 2, 1.0, 100.0, 100.0, Some(LowPerformer))])
  {
    var log := [("e1", Event(Some(0), Some("A"), Some(["o1"]))),
                ("e2", Event(Some(3600), Some("B"), Some(["o1"])))];
    OneCaseRecords();
    OneCaseGrouped();
    OneCaseRow();
    assert |FlattenSpec(log)| >= |DropIncomplete(FlattenSpec(log))| == 2;
  }

  /** The two records of the one-case scenario group into one case spanning an hour. */
  lemma OneCaseGrouped()
    ensures Aggregate([Record("e1", "o1", "A", 0), Record("e2", "o1", "B", 3600)])
         == [Case("o1", 0, 3600, 2)]
  {
    var recs := [Record("e1", "o1", "A", 0), Record("e2", "o1", "B", 3600)];
    assert recs[..1][..0] == [];
    assert Aggregate(recs[..1]) == [Case("o1", 0, 0, 1)];
  }

  /** The lone case of the one-case scenario ranks at 100 on both metrics. */
  lemma OneCaseRow()
    ensures Benchmark([Case("o1", 0, 3600, 2)])
         == [BenchmarkRow("o1", 0, 3600, 2, 1.0, 100.0, 100.0, Some(LowPerformer))]
  {
    var c := Case("o1", 0, 3600, 2);
    PercentilesProperties([1.0]);
    PercentilesProperties([2.0]);
    assert CycleTimes([c]) == [1.0];
    assert ActivityCounts([c]) == [2.0];
    TierTable(100.0);
    assert Benchmark([c])[0] == BenchmarkRow("o1", 0, 3600, 2, 1.0, 100.0, 100.0, Some(LowPerformer));
  }

  /** The two events of the one-case scenario flatten and survive the filter as two records. */
  lemma OneCaseRecords()
    ensures DropIncomplete(FlattenSpec([("e1", Event(Some(0), Some("A"), Some(["o1"]))),
                                        ("e2", Event(Some(3600), Some("B"), Some(["o1"])))]))
         == [Record("e1", "o1", "A", 0), Record("e2", "o1", "B", 3600)]
  {
    var log := [("e1", Event(Some(0), Some("A"), Some(["o1"]))),
                ("e2", Event(Some(3600), Some("B"), Some(["o1"])))];
    var r1, r2 := Row("e1", "o1", Some("A"), Some(0)), Row("e2", "o1", Some("B"), Some(3600));
    assert log[..1][..0] == [];
    assert FlattenSpec(log[..1]) == [r1];
    assert FlattenSpec(log) == [r1, r2];
    assert [r1, r2][1..] == [r2];
  }

  /**
   * Three cases of one, two and three hours: fractional ranking puts them at
   * 100/3, 200/3 and 100, in the second, third and fourth tier; their equal
   * activity counts share the average rank 2 of 3.
   */
  lemma ThreeCaseScenario()
    ensures Benchmark([Case("a", 0, 3600, 1), Case("b", 0, 7200, 1), Case("c", 0, 10800, 1)])
         == [BenchmarkRow("a", 0, 3600, 1, 1.0, 100.0 / 3.0, 200.0 / 3.0, Some(AboveAverage)),
             BenchmarkRow("b", 0, 7200, 1, 2.0, 200.0 / 3.0, 200.0 / 3.0, Some(BelowAverage)),
             BenchmarkRow("c", 0, 10800, 1, 3.0, 100.0, 200.0 / 3.0, Some(LowPerformer))]
  {
    var cases := [Case("a", 0, 3600, 1), Case("b", 0, 7200, 1), Case("c", 0, 10800, 1)];
    assert CycleTimes(cases) == [1.0, 2.0, 3.0];
    assert ActivityCounts(cases) == [1.0, 1.0, 1.0];
    DistinctRanks();
    TiedRanks();
    TierTable(100.0 / 3.0);
    TierTable(200.0 / 3.0);
    TierTable(100.0);
  }

  /** Three distinct values rank at 100/3, 200/3 and 100. */
  lemma DistinctRanks()
    ensures Percentiles([1.0, 2.0, 3.0]) == [100.0 / 3.0, 200.0 / 3.0, 100.0]
  {
    var hours := [1.0, 2.0, 3.0];
    var one, two := hours[..1], hours[..2];
    assert one == [1.0] && one[..0] == [];
    assert two == [1.0, 2.0] && two[..1] == one;
    assert hours[..2] == two;
    assert CountBelow(one, 1.0) == 0;
    assert CountBelow(one, 2.0) == 1;
    assert CountBelow(one, 3.0) == 1;
    assert CountEqual(one, 1.0) == 1;
    assert CountEqual(one, 2.0) == 0;
    assert CountEqual(one, 3.0) == 0;
    assert CountBelow(two, 1.0) == 0;
    assert CountBelow(two, 2.0) == 1;
    assert CountBelow(two, 3.0) == 2;
    assert CountEqual(two, 1.0) == 1;
    assert CountEqual(two, 2.0) == 1;
    assert CountEqual(two, 3.0) == 0;
    assert CountBelow(hours, 1.0) == 0;
    assert CountBelow(hours, 2.0) == 1;
    assert CountBelow(hours, 3.0) == 2;
    assert CountEqual(hours, 1.0) == 1;
    assert CountEqual(hours, 2.0) == 1;
    assert CountEqual(hours, 3.0) == 1;
    assert AverageRank(hours, 1.0) == 1.0;
    assert AverageRank(hours, 2.0) == 2.0;
    assert AverageRank(hours, 3.0) == 3.0;
  }

  /** Three equal values share the average of ranks 1, 2 and 3, that is 200/3 percent. */
  lemma TiedRanks()
    ensures Percentiles([1.0, 1.0, 1.0]) == [200.0 / 3.0, 200.0 / 3.0, 200.0 / 3.0]
  {
    var counts := [1.0, 1.0, 1.0];
    var one, two := counts[..1], counts[..2];
    assert one == [1.0] && one[..0] == [];
    assert two == [1.0, 1.0] && two[..1] == one;
    assert counts[..2] == two;
    assert CountBelow(one, 1.0) == 0;
    assert CountEqual(one, 1.0) == 1;
    assert CountBelow(two, 1.0) == 0;
    assert CountEqual(two, 1.0) == 2;
    assert CountBelow(counts, 1.0) == 0;
    assert CountEqual(counts, 1.0) == 3;
    assert AverageRank(counts, 1.0) == 2.0;
  }

  /** An event without a parsed timestamp contributes no case, even when it names objects. */
  lemma DroppedEventScenario()
    ensures Run([("e1", Event(None, Some("A"), Some(["o1"]))),
                 ("e2", Event(Some(60), Some("B"), Some(["o2"])))])
         == Success([BenchmarkRow("o2", 60, 60, 1, 0.0, 100.0, 100.0, Some(LowPerformer))])
  {
    var log := [("e1", Event(None, Some("A"), Some(["o1"]))),
                ("e2", Event(Some(60), Some("B"), Some(["o2"])))];
    var r1, r2 := Row("e1", "o1", Some("A"), None), Row("e2", "o2", Some("B"), Some(60));
    assert log[..1][..0] == [];
    assert FlattenSpec(log[..1]) == [r1];
    assert FlattenSpec(log) == [r1, r2];
    assert [r1, r2][1..] == [r2];
    var recs := [Record("e2", "o2", "B", 60)];
    assert DropIncomplete([r1, r2]) == recs;
    assert recs[..0] == [];
    var c := Case("o2", 60, 60, 1);
    assert Aggregate(recs) == [c];
    PercentilesProperties([0.0]);
    PercentilesProperties([1.0]);
    assert CycleTimes([c]) == [0.0];
    assert ActivityCounts([c]) == [1.0];
    TierTable(100.0);
    assert Run(log) == Success(Benchmark([c]));
    assert Benchmark([c])[0] == BenchmarkRow("o2", 60, 60, 1, 0.0, 100.0, 100.0, Some(LowPerformer));
    assert Benchmark([c]) == [BenchmarkRow("o2", 60, 60, 1, 0.0, 100.0, 100.0, Some(LowPerformer))];
  }
}
