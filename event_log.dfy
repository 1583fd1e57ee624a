/**
 * The object-centric event log and its flattening into one row per
 * (event, related object) pair, followed by the null filter on the
 * parsed timestamp and the activity.
 */
module EventLog {
  import opened Wrappers

  type EventId = string
  type ObjectId = string

  /** A parsed event time, in whole seconds. */
  type Timestamp = int

  /**
   * One value of the `ocel:events` mapping. `timestamp` is the parsed
   * `ocel:timestamp` (None when the key is missing or parsing coerced it to
   * NaT), `activity` is `ocel:activity` (None when missing or null) and
   * `omap` is `ocel:omap` (None when the key is missing).
   */
  datatype Event = Event(timestamp: Option<Timestamp>, activity: Option<string>, omap: Option<seq<ObjectId>>)

  /** The `ocel:events` mapping, in its iteration order. */
  type Log = seq<(EventId, Event)>

  /** One flattened row, before the null filter. */
  datatype Row = Row(eventId: EventId, objectId: ObjectId, activity: Option<string>, timestamp: Option<Timestamp>)

  /** A row that survived the null filter: its timestamp and activity are present. */
  datatype Record = Record(eventId: EventId, objectId: ObjectId, activity: string, time: Timestamp)

  /** The objects an event relates to; a missing `ocel:omap` reads as an empty list. */
  function Related(e: Event): seq<ObjectId> {
    match e.omap
    case None => []
    case Some(objects) => objects
  }

  /** The rows one event contributes, one per related object, in `ocel:omap` order. */
  function EventRows(id: EventId, e: Event): seq<Row> {
    seq(|Related(e)|, k requires 0 <= k < |Related(e)| => Row(id, Related(e)[k], e.activity, e.timestamp))
  }

  /** The flattened rows of a log: each event's rows, events in log order. */
  function FlattenSpec(log: Log): (rows: seq<Row>)
    ensures |rows| == PairCount(log)
  {
    if |log| == 0 then []
    else FlattenSpec(log[..|log| - 1]) + EventRows(log[|log| - 1].0, log[|log| - 1].1)
  }

  /** The number of (event, related object) pairs of a log. */
  function PairCount(log: Log): nat {
    if |log| == 0 then 0 else PairCount(log[..|log| - 1]) + |Related(log[|log| - 1].1)|
  }

  /** Flattening loop: for every event, append one row per related object. */
  method Flatten(log: Log) returns (rows: seq<Row>)
    ensures rows == FlattenSpec(log)
  {
    rows := [];
    for i := 0 to |log|
      invariant rows == FlattenSpec(log[..i])
    {
      var (id, event) := log[i];
      var objects := Related(event);
      ghost var before := rows;
      for k := 0 to |objects|
        invariant rows == before + EventRows(id, event)[..k]
      {
        rows := rows + [Row(id, objects[k], event.activity, event.timestamp)];
      }
      assert EventRows(id, event)[..|objects|] == EventRows(id, event);
      assert log[..i + 1][..i] == log[..i];
    }
    assert log[..|log|] == log;
  }

  /**
   * Flattening yields exactly one row per (event, related object) pair: the
   * pair of event i and its k-th object sits at position PairCount(log[..i]) + k,
   * and carries the event's id, activity and timestamp.
   */
  lemma {:induction false} FlattenPairs(log: Log, i: nat, k: nat)
    requires i < |log| && k < |Related(log[i].1)|
    ensures |FlattenSpec(log)| == PairCount(log)
    ensures PairCount(log[..i]) + k < PairCount(log)
    ensures PairCount(log[..i + 1]) == PairCount(log[..i]) + |Related(log[i].1)|
    ensures FlattenSpec(log)[PairCount(log[..i]) + k]
         == Row(log[i].0, Related(log[i].1)[k], log[i].1.activity, log[i].1.timestamp)
  {
    var n := |log| - 1;
    var init := log[..n];
    assert log == init + [log[n]];
    FlattenSnoc(init, log[n]);
    assert log[..i + 1][..i] == log[..i];
    if i == n {
      assert log[..i] == init;
      assert log[..i + 1] == log;
    } else {
      FlattenPairs(init, i, k);
      assert init[..i] == log[..i] && init[..i + 1] == log[..i + 1];
      assert init[i] == log[i];
    }
  }

  /** Every flattened row comes from some event and one of its related objects. */
  lemma {:induction false} FlattenOrigin(log: Log, p: nat)
    requires p < |FlattenSpec(log)|
    ensures exists i, k :: 0 <= i < |log| && 0 <= k < |Related(log[i].1)|
                        && FlattenSpec(log)[p] == Row(log[i].0, Related(log[i].1)[k], log[i].1.activity, log[i].1.timestamp)
  {
    var n := |log| - 1;
    var init := log[..n];
    if p < |FlattenSpec(init)| {
      FlattenOrigin(init, p);
      var i, k :| 0 <= i < |init| && 0 <= k < |Related(init[i].1)|
               && FlattenSpec(init)[p] == Row(init[i].0, Related(init[i].1)[k], init[i].1.activity, init[i].1.timestamp);
      assert log[i] == init[i];
    } else {
      var k := p - |FlattenSpec(init)|;
      assert FlattenSpec(log)[p] == EventRows(log[n].0, log[n].1)[k];
    }
  }

  /** Flattening distributes over concatenation of logs. */
  lemma {:induction false} FlattenAppend(a: Log, b: Log)
    ensures FlattenSpec(a + b) == FlattenSpec(a) + FlattenSpec(b)
  {
    if |b| == 0 {
      assert a + b == a;
    } else {
      var n := |b| - 1;
      var init, last := b[..n], b[n];
      assert b == init + [last];
      assert a + b == (a + init) + [last];
      FlattenSnoc(a + init, last);
      FlattenSnoc(init, last);
      FlattenAppend(a, init);
    }
  }

  /** One event more at the end adds its rows at the end. */
  lemma FlattenSnoc(log: Log, event: (EventId, Event))
    ensures FlattenSpec(log + [event]) == FlattenSpec(log) + EventRows(event.0, event.1)
  {
    assert (log + [event])[..|log|] == log;
  }

  /** An event without an `ocel:omap` key contributes no rows: dropping it changes nothing. */
  lemma NoOmapNoRows(log: Log, i: nat)
    requires i < |log| && log[i].1.omap.None?
    ensures FlattenSpec(log) == FlattenSpec(log[..i] + log[i + 1..])
  {
    var pre, ev, post := log[..i], [log[i]], log[i + 1..];
    assert log == (pre + ev) + post;
    assert ev[..0] == [];
    assert FlattenSpec(ev) == [] by {
      assert FlattenSpec(ev) == FlattenSpec([]) + EventRows(ev[0].0, ev[0].1);
    }
    calc {
      FlattenSpec(log);
      { FlattenAppend(pre + ev, post); }
      FlattenSpec(pre + ev) + FlattenSpec(post);
      { FlattenAppend(pre, ev); }
      FlattenSpec(pre) + FlattenSpec(post);
      { FlattenAppend(pre, post); }
      FlattenSpec(pre + post);
    }
  }

  /** A row survives the null filter when both its timestamp and its activity are present. */
  predicate Complete(r: Row) {
    r.timestamp.Some? && r.activity.Some?
  }

  /** The complete row a record was kept from. */
  function AsRow(rec: Record): (r: Row)
    ensures Complete(r)
  {
    Row(rec.eventId, rec.objectId, Some(rec.activity), Some(rec.time))
  }

  /** The record a complete row is kept as. */
  function ToRecord(r: Row): (rec: Record)
    requires Complete(r)
    ensures AsRow(rec) == r
  {
    Record(r.eventId, r.objectId, r.activity.value, r.timestamp.value)
  }

  /**
   * The null filter on the timestamp and the activity: incomplete rows are
   * removed, complete rows are kept, each as often as it occurs.
   */
  function DropIncomplete(rows: seq<Row>): (kept: seq<Record>)
    ensures forall rec :: multiset(kept)[rec] == multiset(rows)[AsRow(rec)]
    ensures |kept| <= |rows|
  {
    if |rows| == 0 then []
    else
      var rest := DropIncomplete(rows[1..]);
      assert rows == [rows[0]] + rows[1..];
      if Complete(rows[0]) then [ToRecord(rows[0])] + rest else rest
  }

  /** A row is removed exactly when its timestamp or its activity is absent. */
  lemma DropIncompleteExact(rows: seq<Row>, r: Row)
    requires r in rows
    ensures Complete(r) ==> ToRecord(r) in DropIncomplete(rows)
    ensures !Complete(r) ==> forall rec :: rec in DropIncomplete(rows) ==> AsRow(rec) != r
  {
    if Complete(r) {
      assert multiset(DropIncomplete(rows))[ToRecord(r)] == multiset(rows)[r] > 0;
    }
  }
}
