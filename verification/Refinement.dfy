/** The relay method and the relay moves of the composite system are one and the same behaviour. */
module Refinement {
  import opened Values
  import opened Sorting
  import opened Invariant
  import opened Delivery
  import opened Drain

  // ----- The moves of one call -----

  /** The call reads its batch, publishes until one publish raises, and commits or dies. */
  function CallMoves(
      r: nat, limit: nat, published: nat, failed: nat, transport: nat -> Relay.Sent, crash: bool): seq<Move> {
    [StartRelay(limit)] + Times(Publish(r), published) +
    (if failed > 0 then [Fail(r, transport(published).Unanswered?)] else []) +
    [if crash then CrashRelay(r) else CommitRelay(r)]
  }

  /** The call has published that many events and, if one raised, stopped; reach of them are with the broker. */
  ghost predicate Stopped(w: World, after: World, r: nat, published: nat, reach: nat, failed: bool) {
    && r < |w.calls| && reach <= |w.calls[r].batch|
    && after == w.(accepted := w.accepted + Ids(w.calls[r].batch[..reach]),
                   calls := w.calls[r := w.calls[r].(done := published, failed := failed)])
  }

  lemma FailStops(env: Env, w: World, sent: World, r: nat, published: nat, took: bool)
    requires OpenCall(w, r) && !w.calls[r].failed && published < |w.calls[r].batch|
    requires PublishedSoFar(w, sent, r, published)
    ensures Stopped(w, Step(env, sent, Fail(r, took)), r, published, if took then published + 1 else published, true)
  {
    var call := w.calls[r];
    IdsSnoc(call.batch, published + 1);
    assert w.calls[r := call.(done := published)][r := call.(done := published, failed := true)] ==
           w.calls[r := call.(done := published, failed := true)];
  }

  lemma StopEnds(env: Env, w: World, stopped: World, r: nat, published: nat, reach: nat, failed: bool, crash: bool)
    requires OpenCall(w, r) && Stopped(w, stopped, r, published, reach, failed)
    requires published <= reach && (failed || published == |w.calls[r].batch|)
    ensures var after := Step(env, stopped, if crash then CrashRelay(r) else CommitRelay(r));
      && after.ledger == w.ledger && after.counted == w.counted
      && after.accepted == w.accepted + Ids(w.calls[r].batch[..reach])
      && after.published == w.published + (if crash then {} else Ids(w.calls[r].batch[..published]))
  {
  }

  /** What the moves of a call do: the broker gets what reached it, and a commit marks what was acknowledged. */
  lemma CallEffect(
      env: Env, w: World, limit: nat, published: nat, failed: nat, transport: nat -> Relay.Sent, crash: bool)
    requires published + failed == |BatchOf(w.ledger.db.events, w.published, limit)|
    ensures
      var batch := BatchOf(w.ledger.db.events, w.published, limit);
      var after := History(env, w, CallMoves(|w.calls|, limit, published, failed, transport, crash));
      && after.ledger == w.ledger && after.counted == w.counted
      && after.accepted == w.accepted + Ids(batch[..Relay.Reach(published, failed, transport)])
      && after.published == w.published + (if crash then {} else Ids(batch[..published]))
  {
    var r, begun := |w.calls|, Opened(w, limit);
    var first := [StartRelay(limit)] + Times(Publish(r), published);
    HistoryOne(env, w, StartRelay(limit));
    HistoryJoin(env, w, [StartRelay(limit)], Times(Publish(r), published));
    PublishMany(env, begun, r, published);
    var sent := History(env, w, first);
    var last := if crash then CrashRelay(r) else CommitRelay(r);
    if failed > 0 {
      var fail := Fail(r, transport(published).Unanswered?);
      FailStops(env, begun, sent, r, published, transport(published).Unanswered?);
      HistorySnoc(env, w, first, fail);
      HistorySnoc(env, w, first + [fail], last);
      var reach := Relay.Reach(published, failed, transport);
      StopEnds(env, begun, History(env, w, first + [fail]), r, published, reach, true, crash);
    } else {
      assert first + [] == first;
      HistorySnoc(env, w, first, last);
      StopEnds(env, begun, sent, r, published, published, false, crash);
    }
  }

  // ----- The method -----

  lemma UniqueRows(table: seq<Relay.OutboxRow>)
    requires UniqueEvents(EventsOf(table))
    ensures NoRepeats(table)
  {
    forall i, j | 0 <= i < j < |table|
      ensures table[i] != table[j]
    {
      assert EventsOf(table)[i].id != EventsOf(table)[j].id;
    }
  }

  lemma SameIdSameRow(table: seq<Relay.OutboxRow>, i: nat, row: Relay.OutboxRow)
    requires UniqueEvents(EventsOf(table)) && i < |table| && row in table && row.event.id == table[i].event.id
    ensures row == table[i]
  {
    var j :| 0 <= j < |table| && table[j] == row;
    assert EventsOf(table)[i].id == EventsOf(table)[j].id;
  }

  /** An id is among those of some rows of the table exactly when its own row is. */
  lemma RowOfId(table: seq<Relay.OutboxRow>, rows: seq<Relay.OutboxRow>, i: nat)
    requires UniqueEvents(EventsOf(table)) && i < |table|
    requires forall k :: 0 <= k < |rows| ==> rows[k] in table
    ensures table[i].event.id in Ids(EventsOf(rows)) <==> table[i] in rows
  {
    if table[i] in rows {
      var k :| 0 <= k < |rows| && rows[k] == table[i];
      assert EventsOf(rows)[k] in EventsOf(rows);
    }
    if table[i].event.id in Ids(EventsOf(rows)) {
      var e :| e in EventsOf(rows) && e.id == table[i].event.id;
      var k :| 0 <= k < |rows| && EventsOf(rows)[k] == e;
      SameIdSameRow(table, i, rows[k]);
    }
  }

  lemma IdsOfRows(rows: seq<Relay.OutboxRow>)
    ensures Ids(EventsOf(rows)) == set id | id in Relay.Ids(rows)
  {
    forall id | id in Ids(EventsOf(rows))
      ensures id in Relay.Ids(rows)
    {
      var e :| e in EventsOf(rows) && e.id == id;
      var k :| 0 <= k < |rows| && EventsOf(rows)[k] == e;
      assert Relay.Ids(rows)[k] == id;
    }
    forall id | id in Relay.Ids(rows)
      ensures id in Ids(EventsOf(rows))
    {
      var k :| 0 <= k < |rows| && Relay.Ids(rows)[k] == id;
      assert EventsOf(rows)[k] in EventsOf(rows);
    }
  }

  lemma EventsOfSlice(rows: seq<Relay.OutboxRow>, n: nat)
    requires n <= |rows|
    ensures EventsOf(rows[..n]) == EventsOf(rows)[..n]
  {
  }

  lemma BatchInTable(table: seq<Relay.OutboxRow>, limit: nat)
    requires NoRepeats(table)
    ensures forall k :: 0 <= k < |Relay.Batch(Relay.Queue(table), limit)| ==>
      Relay.Batch(Relay.Queue(table), limit)[k] in table
  {
    var rows := Relay.Queue(table);
    Relay.QueueRows(table);
    var batch := Relay.Batch(rows, limit);
    forall k | 0 <= k < |batch|
      ensures batch[k] in table
    {
      assert batch[k] in batch;
      var i :| 0 <= i < |rows| && rows[i] == batch[k];
    }
  }

  /** A relay call on the table and its moves in the composite system change the marks and the broker alike, whatever
      the transport does and whether the call commits or dies. */
  method RelayCall(env: Env, ghost w: World, table: seq<Relay.OutboxRow>, limit: nat, transport: nat -> Relay.Sent,
                   clock: nat -> int, crash: bool)
      returns (published: nat, failed: nat, reached: seq<Uuid>)
    requires EventsOf(table) == w.ledger.db.events && UniqueEvents(EventsOf(table)) && MarksAgree(table, w.published)
    modifies table
    ensures published + failed == |BatchOf(w.ledger.db.events, w.published, limit)|
    ensures
      var after := History(env, w, CallMoves(|w.calls|, limit, published, failed, transport, crash));
      && MarksAgree(table, after.published)
      && after.accepted == w.accepted + (set id | id in reached)
      && after.ledger == w.ledger && after.counted == w.counted
  {
    hide History, CallMoves, BatchOf, UniqueEvents;
    UniqueRows(table);
    ghost var batch := Relay.Batch(Relay.Queue(table), limit);
    BatchAgrees(table, w.published, limit);
    BatchInTable(table, limit);
    var marks := Relay.Marks(table);
    published, failed, reached := Relay.OutboxPublish(table, limit, transport, clock);
    ghost var reach := Relay.Reach(published, failed, transport);
    CallEffect(env, w, limit, published, failed, transport, crash);
    EventsOfSlice(batch, published);
    EventsOfSlice(batch, reach);
    IdsOfRows(batch[..reach]);
    if crash {
      Relay.Rollback(table, marks);
    } else {
      forall i | 0 <= i < |table|
        ensures table[i].publishedAt.Some? <==> table[i].event.id in w.published + Ids(EventsOf(batch[..published]))
      {
        RowOfId(table, batch[..published], i);
        if table[i] in batch[..published] {
          var k :| 0 <= k < published && batch[..published][k] == table[i];
          assert batch[k] == table[i];
        }
      }
    }
  }
}
