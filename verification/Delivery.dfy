/** End to end: the concurrent ledger, overlapping relay calls that fail or crash, and a consumer that may see any
    accepted message any number of times, in any order. */
module Delivery {
  import opened Values
  import opened Text
  import opened Sorting
  import opened Invariant
  import opened Protocol
  import opened Concurrency
  import opened Consumer
  import Relay

  /** One relay call: the batch it read, how many events the transport took, and whether it stopped at a failure. */
  datatype RelayCall = RelayCall(batch: seq<Event>, done: nat, failed: bool, open: bool)

  /** published is the set of event ids whose published_at is committed; accepted, those the broker ever took. */
  datatype World = World(
    ledger: State,
    published: set<Uuid>,
    calls: seq<RelayCall>,
    accepted: set<Uuid>,
    counted: Counted)

  datatype Move =
    | Write(action: Action)
    | StartRelay(limit: nat)
    | Publish(call: nat)
    | Fail(call: nat, took: bool)
    | CommitRelay(call: nat)
    | CrashRelay(call: nat)
    | Deliver(event: nat)

  function CreatedAt(e: Event): int {
    e.createdAt
  }

  function Unpublished(events: seq<Event>, published: set<Uuid>): (r: seq<Event>)
    ensures forall e :: e in r ==> e in events && e.id !in published
  {
    if events == [] then []
    else
      Unpublished(events[..|events| - 1], published) +
      (if events[|events| - 1].id in published then [] else [events[|events| - 1]])
  }

  /** The batch a call reads: unpublished events, oldest first, up to the limit. */
  function BatchOf(events: seq<Event>, published: set<Uuid>, limit: nat): seq<Event> {
    var pending := Unpublished(SortBy(CreatedAt, events), published);
    pending[..Relay.Min(limit, |pending|)]
  }

  function MessageOf(e: Event): Message {
    Message(Some(UuidText(e.id)), Some(e.eventType), Object(Some(e.payload.kind)))
  }

  function Ids(events: seq<Event>): set<Uuid> {
    set e | e in events :: e.id
  }

  predicate OpenCall(w: World, r: nat) {
    r < |w.calls| && w.calls[r].open
  }

  /** One move; a move that is not possible changes nothing. A publish that raises may still have reached the broker. */
  ghost function Step(env: Env, w: World, move: Move): World {
    match move
    case Write(action) => w.(ledger := Exec(env, w.ledger, action))
    case StartRelay(limit) =>
      w.(calls := w.calls + [RelayCall(BatchOf(w.ledger.db.events, w.published, limit), 0, false, true)])
    case Publish(r) =>
      if OpenCall(w, r) && !w.calls[r].failed && w.calls[r].done < |w.calls[r].batch|
      then w.(accepted := w.accepted + {w.calls[r].batch[w.calls[r].done].id},
              calls := w.calls[r := w.calls[r].(done := w.calls[r].done + 1)])
      else w
    case Fail(r, took) =>
      if OpenCall(w, r) && w.calls[r].done < |w.calls[r].batch|
      then w.(accepted := if took then w.accepted + {w.calls[r].batch[w.calls[r].done].id} else w.accepted,
              calls := w.calls[r := w.calls[r].(failed := true)])
      else w
    case CommitRelay(r) =>
      if OpenCall(w, r) && w.calls[r].done <= |w.calls[r].batch| &&
         (w.calls[r].failed || w.calls[r].done == |w.calls[r].batch|)
      then w.(published := w.published + Ids(w.calls[r].batch[..w.calls[r].done]),
              calls := w.calls[r := w.calls[r].(open := false)])
      else w
    case CrashRelay(r) => if OpenCall(w, r) then w.(calls := w.calls[r := w.calls[r].(open := false)]) else w
    case Deliver(k) =>
      if k < |w.ledger.db.events| && w.ledger.db.events[k].id in w.accepted
      then w.(counted := Received(w.counted, MessageOf(w.ledger.db.events[k])))
      else w
  }

  ghost function History(env: Env, w: World, moves: seq<Move>): World {
    if moves == [] then w else Step(env, History(env, w, moves[..|moves| - 1]), moves[|moves| - 1])
  }

  // ----- The batch is the one the relay method reads -----

  function EventsOf(rows: seq<Relay.OutboxRow>): seq<Event> {
    seq(|rows|, i requires 0 <= i < |rows| => rows[i].event)
  }

  lemma {:induction false} EventsOfInsert(x: Relay.OutboxRow, s: seq<Relay.OutboxRow>)
    ensures EventsOf(Insert(Relay.Age, x, s)) == Insert(CreatedAt, x.event, EventsOf(s))
  {
    if s != [] && Relay.Age(x) > Relay.Age(s[0]) {
      EventsOfInsert(x, s[1..]);
      assert EventsOf(s)[1..] == EventsOf(s[1..]);
    }
  }

  lemma {:induction false} EventsOfQueue(table: seq<Relay.OutboxRow>)
    ensures EventsOf(Relay.Queue(table)) == SortBy(CreatedAt, EventsOf(table))
  {
    if table != [] {
      EventsOfQueue(table[1..]);
      EventsOfInsert(table[0], Relay.Queue(table[1..]));
      assert EventsOf(table)[1..] == EventsOf(table[1..]);
    }
  }

  ghost predicate MarksAgree(rows: seq<Relay.OutboxRow>, published: set<Uuid>)
    reads rows
  {
    forall i :: 0 <= i < |rows| ==> (rows[i].publishedAt.Some? <==> rows[i].event.id in published)
  }

  lemma {:induction false} EventsOfPending(rows: seq<Relay.OutboxRow>, published: set<Uuid>)
    requires MarksAgree(rows, published)
    ensures EventsOf(Relay.Pending(rows)) == Unpublished(EventsOf(rows), published)
  {
    if rows != [] {
      var front := rows[..|rows| - 1];
      EventsOfPending(front, published);
      assert EventsOf(rows)[..|rows| - 1] == EventsOf(front);
      EventsOfSnoc(Relay.Pending(front), rows[|rows| - 1]);
    }
  }

  lemma EventsOfSnoc(rows: seq<Relay.OutboxRow>, row: Relay.OutboxRow)
    ensures EventsOf(rows + [row]) == EventsOf(rows) + [row.event]
  {
  }

  /** With published_at set on exactly the published ids, the query of outbox_publish reads the batch of the model. */
  lemma BatchAgrees(table: seq<Relay.OutboxRow>, published: set<Uuid>, limit: nat)
    requires MarksAgree(table, published) && NoRepeats(table)
    ensures EventsOf(Relay.Batch(Relay.Queue(table), limit)) == BatchOf(EventsOf(table), published, limit)
  {
    var rows := Relay.Queue(table);
    Relay.QueueRows(table);
    forall i | 0 <= i < |rows|
      ensures rows[i].publishedAt.Some? <==> rows[i].event.id in published
    {
      assert rows[i] in table;
    }
    EventsOfQueue(table);
    EventsOfPending(rows, published);
  }

  /** Nothing relayed and nothing consumed yet. */
  ghost predicate Start(env: Env, w: World) {
    Initial(env, w.ledger) && w.ledger.db.events == [] && w == World(w.ledger, {}, [], {}, Counted({}, ZERO_TOTALS))
  }

  // ----- Counting -----

  /** How many events of a type the consumer has marked. */
  function SeenOfKind(events: seq<Event>, seen: set<Option<string>>, kind: string): nat {
    if events == [] then 0
    else
      var last := events[|events| - 1];
      SeenOfKind(events[..|events| - 1], seen, kind) +
      (if last.payload.kind == kind && Some(UuidText(last.id)) in seen then 1 else 0)
  }

  function TxnsOfKind(txns: seq<Txn>, kind: TxnType): nat {
    if txns == [] then 0
    else TxnsOfKind(txns[..|txns| - 1], kind) + (if txns[|txns| - 1].kind == kind then 1 else 0)
  }

  /** The positions of the transactions of one type. */
  ghost function OfKind(txns: seq<Txn>, kind: TxnType): set<int> {
    set i | 0 <= i < |txns| && txns[i].kind == kind
  }

  lemma {:induction false} TxnsOfKindMeaning(txns: seq<Txn>, kind: TxnType)
    ensures TxnsOfKind(txns, kind) == |OfKind(txns, kind)|
  {
    if txns != [] {
      var n := |txns| - 1;
      TxnsOfKindMeaning(txns[..n], kind);
      assert OfKind(txns, kind) == OfKind(txns[..n], kind) + if txns[n].kind == kind then {n} else {};
    }
  }

  lemma SameTypeText(a: TxnType, b: TxnType)
    ensures TypeText(a) == TypeText(b) <==> a == b
  {
    ParseTypeText(a);
    ParseTypeText(b);
  }

  /** Event i announces the type of transaction i. */
  ghost predicate KindsMatch(txns: seq<Txn>, events: seq<Event>) {
    |txns| == |events| && forall i :: 0 <= i < |txns| ==> events[i].payload.kind == TypeText(txns[i].kind)
  }

  lemma {:induction false} SeenAtMostCommitted(
      txns: seq<Txn>, events: seq<Event>, seen: set<Option<string>>, kind: TxnType)
    requires KindsMatch(txns, events)
    ensures SeenOfKind(events, seen, TypeText(kind)) <= TxnsOfKind(txns, kind)
  {
    if txns != [] {
      var n := |txns| - 1;
      SeenAtMostCommitted(txns[..n], events[..n], seen, kind);
      SameTypeText(kind, txns[n].kind);
    }
  }

  lemma {:induction false} AllSeenAllCounted(
      txns: seq<Txn>, events: seq<Event>, seen: set<Option<string>>, kind: TxnType)
    requires KindsMatch(txns, events)
    requires forall i :: 0 <= i < |events| ==> Some(UuidText(events[i].id)) in seen
    ensures SeenOfKind(events, seen, TypeText(kind)) == TxnsOfKind(txns, kind)
  {
    if txns != [] {
      var n := |txns| - 1;
      AllSeenAllCounted(txns[..n], events[..n], seen, kind);
      SameTypeText(kind, txns[n].kind);
    }
  }

  /** Marking an event not yet seen adds one to its type, once. */
  lemma {:induction false} MarkCountsOnce(events: seq<Event>, seen: set<Option<string>>, k: nat, kind: string)
    requires UniqueEvents(events) && k < |events|
    requires Some(UuidText(events[k].id)) !in seen
    ensures SeenOfKind(events, seen + {Some(UuidText(events[k].id))}, kind) ==
            SeenOfKind(events, seen, kind) + (if events[k].payload.kind == kind then 1 else 0)
  {
    var n := |events| - 1;
    if k == n {
      MarkElsewhere(events[..n], seen, events[k].id, kind);
    } else {
      MarkCountsOnce(events[..n], seen, k, kind);
      DifferentText(events[n].id, events[k].id);
    }
  }

  lemma DifferentText(a: Uuid, b: Uuid)
    requires a != b
    ensures UuidText(a) != UuidText(b)
  {
    if UuidText(a) == UuidText(b) {
      UuidTextInjective(a, b);
    }
  }

  lemma {:induction false} MarkElsewhere(events: seq<Event>, seen: set<Option<string>>, id: Uuid, kind: string)
    requires forall i :: 0 <= i < |events| ==> events[i].id != id
    ensures SeenOfKind(events, seen + {Some(UuidText(id))}, kind) == SeenOfKind(events, seen, kind)
  {
    if events != [] {
      MarkElsewhere(events[..|events| - 1], seen, id, kind);
      DifferentText(events[|events| - 1].id, id);
    }
  }

  // ----- The invariant -----

  ghost predicate CallOk(w: World, r: nat)
    requires r < |w.calls|
  {
    && w.calls[r].done <= |w.calls[r].batch|
    && (forall e :: e in w.calls[r].batch ==> e in w.ledger.db.events)
    && forall i :: 0 <= i < w.calls[r].done ==> w.calls[r].batch[i].id in w.accepted
  }

  /** Only accepted events are marked seen, and the totals count exactly those. */
  ghost predicate CountsOk(events: seq<Event>, accepted: set<Uuid>, counted: Counted) {
    && counted.totals.Keys == {"deposit", "withdrawal", "transfer"}
    && (forall x :: x in counted.seen ==> exists id :: id in accepted && x == Some(UuidText(id)))
    && forall kind :: kind in counted.totals ==> counted.totals[kind] == SeenOfKind(events, counted.seen, kind)
  }

  ghost predicate WorldInv(env: Env, w: World) {
    && StateInv(env, w.ledger)
    && w.accepted <= Ids(w.ledger.db.events)
    && w.published <= w.accepted
    && (forall r :: 0 <= r < |w.calls| ==> CallOk(w, r))
    && CountsOk(w.ledger.db.events, w.accepted, w.counted)
  }

  lemma StartInv(env: Env, w: World)
    requires Start(env, w)
    ensures WorldInv(env, w)
  {
    InitialInv(env, w.ledger);
  }

  /** A ledger step adds at most one event, with an id no table used. */
  lemma EventsGrow(env: Env, s: State, a: Action) returns (more: seq<Event>)
    requires StateInv(env, s)
    ensures Exec(env, s, a).db.events == s.db.events + more
    ensures forall e :: e in more ==> e.id !in Ids(s.db.events)
  {
    more := [];
    ActionIsAtomic(env, s, a);
    if Enabled(s, a) && a.Advance? && s.procs[a.p].pc == Commit {
      more := s.procs[a.p].pend.events;
      assert ProcAt(env, s, a.p);
      CommitDraws(env, s.db, s.procs[a.p]);
    }
  }

  lemma SeenOfSnoc(events: seq<Event>, e: Event, seen: set<Option<string>>, kind: string)
    requires Some(UuidText(e.id)) !in seen
    ensures SeenOfKind(events + [e], seen, kind) == SeenOfKind(events, seen, kind)
  {
    assert (events + [e])[..|events|] == events;
  }

  lemma {:induction false} UnseenEvents(events: seq<Event>, more: seq<Event>, seen: set<Option<string>>, kind: string)
    requires forall e :: e in more ==> Some(UuidText(e.id)) !in seen
    ensures SeenOfKind(events + more, seen, kind) == SeenOfKind(events, seen, kind)
  {
    if more == [] {
      assert events + more == events;
    } else {
      hide SeenOfKind;
      var front, last := more[..|more| - 1], more[|more| - 1];
      UnseenEvents(events, front, seen, kind);
      SeenOfSnoc(events + front, last, seen, kind);
      SplitLast(events, more);
    }
  }

  lemma CountsSurviveWrites(events: seq<Event>, more: seq<Event>, accepted: set<Uuid>, counted: Counted)
    requires CountsOk(events, accepted, counted) && accepted <= Ids(events)
    requires forall e :: e in more ==> e.id !in Ids(events)
    ensures CountsOk(events + more, accepted, counted)
  {
    forall e | e in more
      ensures Some(UuidText(e.id)) !in counted.seen
    {
      if Some(UuidText(e.id)) in counted.seen {
        var id :| id in accepted && Some(UuidText(e.id)) == Some(UuidText(id));
        UuidTextInjective(e.id, id);
      }
    }
    forall kind | kind in counted.totals
      ensures SeenOfKind(events + more, counted.seen, kind) == SeenOfKind(events, counted.seen, kind)
    {
      UnseenEvents(events, more, counted.seen, kind);
    }
  }

  lemma WriteKeepsInv(env: Env, w: World, a: Action)
    requires WorldInv(env, w)
    ensures WorldInv(env, Step(env, w, Write(a)))
  {
    var after := Step(env, w, Write(a));
    ExecKeepsInv(env, w.ledger, a);
    var more := EventsGrow(env, w.ledger, a);
    CountsSurviveWrites(w.ledger.db.events, more, w.accepted, w.counted);
    forall r | 0 <= r < |after.calls|
      ensures CallOk(after, r)
    {
      assert CallOk(w, r);
    }
  }

  lemma BatchIsCommitted(events: seq<Event>, published: set<Uuid>, limit: nat)
    ensures forall e :: e in BatchOf(events, published, limit) ==> e in events && e.id !in published
  {
    var sorted := SortBy(CreatedAt, events);
    SortMembers(CreatedAt, events);
    forall e | e in BatchOf(events, published, limit)
      ensures e in events && e.id !in published
    {
      assert e in Unpublished(sorted, published);
      var i :| 0 <= i < |sorted| && sorted[i] == e;
    }
  }

  /** A call that nothing touches stays in order while events and acceptances are only added. */
  lemma SameCallOk(w: World, after: World, r: nat)
    requires r < |w.calls| && CallOk(w, r) && r < |after.calls| && after.calls[r] == w.calls[r]
    requires after.ledger.db.events == w.ledger.db.events && w.accepted <= after.accepted
    ensures CallOk(after, r)
  {
  }

  lemma StartKeepsInv(env: Env, w: World, limit: nat)
    requires WorldInv(env, w)
    ensures WorldInv(env, Step(env, w, StartRelay(limit)))
  {
    var after := Step(env, w, StartRelay(limit));
    BatchIsCommitted(w.ledger.db.events, w.published, limit);
    forall r | 0 <= r < |after.calls|
      ensures CallOk(after, r)
    {
      if r < |w.calls| {
        SameCallOk(w, after, r);
      }
    }
  }

  /** What a move does to the call it belongs to, and to the sets. */
  lemma CallMoveOk(env: Env, w: World, move: Move)
    requires WorldInv(env, w) && !move.Write? && !move.Deliver? && !move.StartRelay?
    requires OpenCall(w, move.call)
    ensures var after := Step(env, w, move);
      && after == w.(published := after.published, accepted := after.accepted, calls := after.calls)
      && |after.calls| == |w.calls| && CallOk(after, move.call)
      && (forall r :: 0 <= r < |w.calls| && r != move.call ==> after.calls[r] == w.calls[r])
      && w.accepted <= after.accepted <= Ids(w.ledger.db.events)
      && after.published <= after.accepted
  {
    assert CallOk(w, move.call);
  }

  lemma RelayKeepsInv(env: Env, w: World, move: Move)
    requires WorldInv(env, w) && !move.Write? && !move.Deliver? && !move.StartRelay?
    ensures WorldInv(env, Step(env, w, move))
  {
    if OpenCall(w, move.call) {
      CallMoveOk(env, w, move);
      var after := Step(env, w, move);
      forall r | 0 <= r < |after.calls|
        ensures CallOk(after, r)
      {
        if r != move.call {
          SameCallOk(w, after, r);
        }
      }
    }
  }

  lemma DeliverKeepsCounts(events: seq<Event>, accepted: set<Uuid>, counted: Counted, k: nat)
    requires CountsOk(events, accepted, counted) && UniqueEvents(events)
    requires k < |events| && events[k].id in accepted
    ensures CountsOk(events, accepted, Received(counted, MessageOf(events[k])))
  {
    var after := Received(counted, MessageOf(events[k]));
    if Some(UuidText(events[k].id)) !in counted.seen {
      forall kind | kind in after.totals
        ensures after.totals[kind] == SeenOfKind(events, after.seen, kind)
      {
        MarkCountsOnce(events, counted.seen, k, kind);
      }
    }
  }

  lemma DeliverKeepsInv(env: Env, w: World, k: nat)
    requires WorldInv(env, w)
    ensures WorldInv(env, Step(env, w, Deliver(k)))
  {
    if k < |w.ledger.db.events| && w.ledger.db.events[k].id in w.accepted {
      DeliverKeepsCounts(w.ledger.db.events, w.accepted, w.counted, k);
      var after := Step(env, w, Deliver(k));
      forall r | 0 <= r < |after.calls|
        ensures CallOk(after, r)
      {
        SameCallOk(w, after, r);
      }
    }
  }

  lemma StepKeepsInv(env: Env, w: World, move: Move)
    requires WorldInv(env, w)
    ensures WorldInv(env, Step(env, w, move))
  {
    hide WorldInv, Step;
    match move
    case Write(a) => WriteKeepsInv(env, w, a);
    case Deliver(k) => DeliverKeepsInv(env, w, k);
    case StartRelay(limit) => StartKeepsInv(env, w, limit);
    case _ => RelayKeepsInv(env, w, move);
  }

  lemma {:induction false} HistoryKeepsInv(env: Env, w: World, moves: seq<Move>)
    requires WorldInv(env, w)
    ensures WorldInv(env, History(env, w, moves))
  {
    if moves != [] {
      HistoryKeepsInv(env, w, moves[..|moves| - 1]);
      StepKeepsInv(env, History(env, w, moves[..|moves| - 1]), moves[|moves| - 1]);
    }
  }

  // ----- Exactly-once counting -----

  /** Every committed event is marked published, and every accepted message has been handled. */
  ghost predicate Drained(w: World) {
    && (forall e :: e in w.ledger.db.events ==> e.id in w.published)
    && (forall id :: id in w.accepted ==> Some(UuidText(id)) in w.counted.seen)
  }

  /** Under any interleaving of writers, relay calls, failures, crashes, redeliveries and reorderings the consumer
      never counts more transactions of a type than are committed, and once the outbox is drained it counts them all. */
  lemma ExactlyOnce(env: Env, w: World, moves: seq<Move>, kind: TxnType)
    requires Start(env, w)
    ensures TypeText(kind) in History(env, w, moves).counted.totals
    ensures
      var now := History(env, w, moves);
      && now.counted.totals[TypeText(kind)] <= |OfKind(now.ledger.db.txns, kind)|
      && (Drained(now) ==> now.counted.totals[TypeText(kind)] == |OfKind(now.ledger.db.txns, kind)|)
  {
    StartInv(env, w);
    HistoryKeepsInv(env, w, moves);
    var now := History(env, w, moves);
    var db := now.ledger.db;
    forall i | 0 <= i < |db.txns|
      ensures db.events[i].payload.kind == TypeText(db.txns[i].kind)
    {
      assert RecordedAt(db, i);
    }
    TxnsOfKindMeaning(db.txns, kind);
    SeenAtMostCommitted(db.txns, db.events, now.counted.seen, kind);
    if Drained(now) {
      AllSeenAllCounted(db.txns, db.events, now.counted.seen, kind);
    }
  }
}
