/**
 * Grouping the filtered rows by `object_id` into cases: first and last
 * timestamp and number of rows per object, one case per object, listed in
 * object id order.
 */
module Cases {
  import opened Wrappers
  import opened EventLog
  import opened ObjectIds

  /** One row of the grouped frame. */
  datatype Case = Case(objectId: ObjectId, startTime: Timestamp, endTime: Timestamp, activityCount: nat)

  /** The distinct object ids among the records. */
  function Ids(recs: seq<Record>): set<ObjectId> {
    set r | r in recs :: r.objectId
  }

  /** The timestamps of the records of one object, in record order. */
  function TimesOf(recs: seq<Record>, id: ObjectId): (ts: seq<Timestamp>)
    ensures forall t :: t in ts ==> exists j :: 0 <= j < |recs| && recs[j].objectId == id && recs[j].time == t
    ensures forall j :: 0 <= j < |recs| && recs[j].objectId == id ==> recs[j].time in ts
    ensures |ts| > 0 <==> id in Ids(recs)
  {
    if |recs| == 0 then []
    else
      var init, last := recs[..|recs| - 1], recs[|recs| - 1];
      assert recs == init + [last];
      assert Ids(recs) == Ids(init) + {last.objectId};
      TimesOf(init, id) + (if last.objectId == id then [last.time] else [])
  }

  /** The smallest element of a non-empty sequence. */
  function MinOf(s: seq<int>): (m: int)
    requires |s| > 0
    ensures m in s && forall t :: t in s ==> m <= t
  {
    if |s| == 1 then s[0]
    else
      var init, last := s[..|s| - 1], s[|s| - 1];
      var m := MinOf(init);
      assert forall t :: t in s ==> t in init || t == last;
      if last < m then last else m
  }

  /** The largest element of a non-empty sequence. */
  function MaxOf(s: seq<int>): (m: int)
    requires |s| > 0
    ensures m in s && forall t :: t in s ==> t <= m
  {
    if |s| == 1 then s[0]
    else
      var init, last := s[..|s| - 1], s[|s| - 1];
      var m := MaxOf(init);
      assert forall t :: t in s ==> t in init || t == last;
      if m < last then last else m
  }

  /** The case of one object, stated directly: min, max and number of its timestamps. */
  function CaseOf(recs: seq<Record>, id: ObjectId): (c: Case)
    requires id in Ids(recs)
    ensures c.objectId == id && c.startTime <= c.endTime && c.activityCount >= 1
  {
    var ts := TimesOf(recs, id);
    Case(id, MinOf(ts), MaxOf(ts), |ts|)
  }

  /**
   * Every case spans exactly its object's rows: start and end are timestamps
   * of that object, no row of it lies outside them, and the count is the
   * number of its rows, hence at least one.
   */
  lemma CaseOfBounds(recs: seq<Record>, id: ObjectId)
    requires id in Ids(recs)
    ensures CaseOf(recs, id).startTime <= CaseOf(recs, id).endTime
    ensures CaseOf(recs, id).startTime in TimesOf(recs, id)
    ensures CaseOf(recs, id).endTime in TimesOf(recs, id)
    ensures forall j :: 0 <= j < |recs| && recs[j].objectId == id ==>
              CaseOf(recs, id).startTime <= recs[j].time <= CaseOf(recs, id).endTime
    ensures CaseOf(recs, id).activityCount == |TimesOf(recs, id)| >= 1
  {
  }

  /** The first case of the table with the given id, if any. */
  function Lookup(table: seq<Case>, id: ObjectId): (found: Option<Case>)
    ensures found.Some? ==> found.value in table && found.value.objectId == id
    ensures found.None? ==> forall c :: c in table ==> c.objectId != id
  {
    if |table| == 0 then None
    else if table[0].objectId == id then Some(table[0])
    else Lookup(table[1..], id)
  }

  /** Cases listed in strictly increasing object id order (so no id twice). */
  predicate Sorted(table: seq<Case>) {
    forall i, j :: 0 <= i < j < |table| ==> IdLess(table[i].objectId, table[j].objectId)
  }

  /** The case a first row of a new object opens. */
  function Start(r: Record): Case {
    Case(r.objectId, r.time, r.time, 1)
  }

  /** A case after taking in one more row of its object. */
  function Absorb(c: Case, r: Record): Case {
    Case(c.objectId,
         if r.time < c.startTime then r.time else c.startTime,
         if c.endTime < r.time then r.time else c.endTime,
         c.activityCount + 1)
  }

  /** Takes one row into the id-ordered table of cases. */
  function Accumulate(table: seq<Case>, r: Record): (updated: seq<Case>)
    ensures |table| <= |updated| <= |table| + 1
  {
    if |table| == 0 then [Start(r)]
    else if table[0].objectId == r.objectId then [Absorb(table[0], r)] + table[1..]
    else if IdLess(r.objectId, table[0].objectId) then [Start(r)] + table
    else [table[0]] + Accumulate(table[1..], r)
  }

  /** The grouped frame: every row taken in, in row order. */
  function Aggregate(recs: seq<Record>): (table: seq<Case>)
    ensures Sorted(table)
    ensures |table| <= |recs|
  {
    if |recs| == 0 then []
    else
      var before := Aggregate(recs[..|recs| - 1]);
      AccumulateSorted(before, recs[|recs| - 1]);
      Accumulate(before, recs[|recs| - 1])
  }

  /** What taking in one row does to an id-ordered table. */
  function Updated(before: Option<Case>, r: Record): Case {
    match before
    case None => Start(r)
    case Some(c) => Absorb(c, r)
  }

  /** Taking in a row keeps the table id-ordered and adds no case of another object. */
  lemma {:induction false} AccumulateSorted(table: seq<Case>, r: Record)
    requires Sorted(table)
    ensures Sorted(Accumulate(table, r))
    ensures forall c :: c in Accumulate(table, r) ==> c in table || c.objectId == r.objectId
  {
    var result := Accumulate(table, r);
    if |table| == 0 {
    } else if table[0].objectId == r.objectId {
      assert result == [Absorb(table[0], r)] + table[1..];
    } else if IdLess(r.objectId, table[0].objectId) {
      assert result == [Start(r)] + table;
      forall c | c in table ensures IdLess(r.objectId, c.objectId) {
        var k :| 0 <= k < |table| && table[k] == c;
        if k > 0 {
          IdLessTransitive(r.objectId, table[0].objectId, c.objectId);
        }
      }
      PrependSorted(Start(r), table);
    } else {
      var rest := table[1..];
      IdLessTotal(r.objectId, table[0].objectId);
      AccumulateSorted(rest, r);
      var tail := Accumulate(rest, r);
      assert result == [table[0]] + tail;
      forall c | c in tail ensures IdLess(table[0].objectId, c.objectId) {
        if c in rest {
          var k :| 0 <= k < |rest| && rest[k] == c;
          assert table[k + 1] == c;
        }
      }
      PrependSorted(table[0], tail);
    }
  }

  /** A case whose id sorts before every id of an ordered table may go in front of it. */
  lemma PrependSorted(head: Case, tail: seq<Case>)
    requires Sorted(tail)
    requires forall c :: c in tail ==> IdLess(head.objectId, c.objectId)
    ensures Sorted([head] + tail)
  {
    var table := [head] + tail;
    forall i, j | 0 <= i < j < |table| ensures IdLess(table[i].objectId, table[j].objectId) {
      if i == 0 {
        assert table[j] in tail;
      } else {
        assert table[i] == tail[i - 1] && table[j] == tail[j - 1];
      }
    }
  }

  /** Taking in a row opens or updates its object's case and leaves every other case as it was. */
  lemma {:induction false} AccumulateLookup(table: seq<Case>, r: Record, id: ObjectId)
    requires Sorted(table)
    ensures Lookup(Accumulate(table, r), id)
         == if id == r.objectId then Some(Updated(Lookup(table, id), r)) else Lookup(table, id)
  {
    var result := Accumulate(table, r);
    if |table| == 0 {
    } else if table[0].objectId == r.objectId {
      assert result[1..] == table[1..];
    } else if IdLess(r.objectId, table[0].objectId) {
      assert result[1..] == table;
      if id == r.objectId && Lookup(table, id).Some? {
        var c := Lookup(table, id).value;
        var k :| 0 <= k < |table| && table[k] == c;
        if k > 0 {
          IdLessTransitive(r.objectId, table[0].objectId, c.objectId);
        }
        IdLessIrreflexive(r.objectId);
        assert false;
      }
    } else {
      assert Sorted(table[1..]);
      AccumulateLookup(table[1..], r, id);
      assert result[1..] == Accumulate(table[1..], r);
    }
  }

  /**
   * The grouping invariant: after taking in a prefix of the rows the table is
   * id-ordered and holds, for each object seen so far, exactly its direct case.
   */
  lemma {:induction false} AggregateSpec(recs: seq<Record>)
    ensures Sorted(Aggregate(recs))
    ensures forall id :: Lookup(Aggregate(recs), id) == if id in Ids(recs) then Some(CaseOf(recs, id)) else None
  {
    if |recs| > 0 {
      var init, last := recs[..|recs| - 1], recs[|recs| - 1];
      assert recs == init + [last];
      AggregateSpec(init);
      AccumulateSorted(Aggregate(init), last);
      forall id ensures Lookup(Aggregate(recs), id) == if id in Ids(recs) then Some(CaseOf(recs, id)) else None {
        AggregateStep(init, last, id);
      }
    }
  }

  /** One row more: its object's case is updated to the direct case of the longer row list. */
  lemma AggregateStep(init: seq<Record>, last: Record, id: ObjectId)
    requires Sorted(Aggregate(init))
    requires Lookup(Aggregate(init), id) == if id in Ids(init) then Some(CaseOf(init, id)) else None
    ensures Lookup(Aggregate(init + [last]), id)
         == if id in Ids(init + [last]) then Some(CaseOf(init + [last], id)) else None
  {
    var recs := init + [last];
    assert recs[..|recs| - 1] == init;
    assert Aggregate(recs) == Accumulate(Aggregate(init), last);
    AccumulateLookup(Aggregate(init), last, id);
    assert Ids(recs) == Ids(init) + {last.objectId};
    var ts := TimesOf(recs, id);
    if id == last.objectId {
      assert ts == TimesOf(init, id) + [last.time];
      if id in Ids(init) {
        var c0 := CaseOf(init, id);
        MinMaxSnoc(TimesOf(init, id), last.time);
        assert CaseOf(recs, id) == Absorb(c0, last);
        assert Lookup(Aggregate(recs), id) == Some(Absorb(c0, last));
      } else {
        assert TimesOf(init, id) == [];
        assert ts == [last.time];
        assert CaseOf(recs, id) == Start(last);
        assert Lookup(Aggregate(recs), id) == Some(Start(last));
      }
    } else {
      assert ts == TimesOf(init, id);
      assert id in Ids(recs) <==> id in Ids(init);
      assert Lookup(Aggregate(recs), id) == Lookup(Aggregate(init), id);
    }
  }

  /** The smallest and largest timestamp after one more. */
  lemma MinMaxSnoc(s: seq<int>, t: int)
    requires |s| > 0
    ensures MinOf(s + [t]) == if t < MinOf(s) then t else MinOf(s)
    ensures MaxOf(s + [t]) == if MaxOf(s) < t then t else MaxOf(s)
  {
    assert (s + [t])[..|s|] == s;
  }

  /**
   * Grouping by object id yields one case per distinct object id of the
   * filtered rows and no others, in id order, each with its object's
   * first timestamp, last timestamp and row count.
   */
  lemma GroupByObject(recs: seq<Record>)
    ensures Sorted(Aggregate(recs))
    ensures forall i, j :: 0 <= i < j < |Aggregate(recs)| ==> Aggregate(recs)[i].objectId != Aggregate(recs)[j].objectId
    ensures forall c :: c in Aggregate(recs) ==> c.objectId in Ids(recs) && c == CaseOf(recs, c.objectId)
    ensures forall id :: id in Ids(recs) ==> exists c :: c in Aggregate(recs) && c.objectId == id
  {
    var cs := Aggregate(recs);
    AggregateSpec(recs);
    forall i, j | 0 <= i < j < |cs| ensures cs[i].objectId != cs[j].objectId {
      IdLessIrreflexive(cs[i].objectId);
    }
    forall c | c in cs ensures c.objectId in Ids(recs) && c == CaseOf(recs, c.objectId) {
      var k :| 0 <= k < |cs| && cs[k] == c;
      LookupSorted(cs, k);
    }
    forall id | id in Ids(recs) ensures exists c :: c in cs && c.objectId == id {
      assert Lookup(cs, id).Some?;
    }
  }

  /** In an id-ordered table every case is the one found under its id. */
  lemma {:induction false} LookupSorted(table: seq<Case>, k: nat)
    requires Sorted(table) && k < |table|
    ensures Lookup(table, table[k].objectId) == Some(table[k])
  {
    if k > 0 {
      IdLessIrreflexive(table[0].objectId);
      assert table[0].objectId != table[k].objectId;
      assert Sorted(table[1..]);
      LookupSorted(table[1..], k - 1);
    }
  }
}
