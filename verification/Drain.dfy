/** Draining: from every reachable state of the whole system, a finite continuation without failures answers every
    request, empties the outbox and lets the consumer count everything. */
module Drain {
  import opened Values
  import opened Text
  import opened Sorting
  import opened Protocol
  import opened Consumer
  import opened Progress
  import opened Delivery

  lemma HistorySnoc(env: Env, w: World, a: seq<Move>, m: Move)
    ensures History(env, w, a + [m]) == Step(env, History(env, w, a), m)
  {
    assert (a + [m])[..|a|] == a;
  }

  lemma {:induction false} HistoryJoin(env: Env, w: World, a: seq<Move>, b: seq<Move>)
    ensures History(env, w, a + b) == History(env, History(env, w, a), b)
  {
    if b == [] {
      assert a + b == a;
    } else {
      hide Step, History;
      var front, last := b[..|b| - 1], b[|b| - 1];
      HistoryJoin(env, w, a, front);
      HistorySnoc(env, w, a + front, last);
      HistorySnoc(env, History(env, w, a), front, last);
      SplitLast(a, b);
    }
  }

  lemma HistoryOne(env: Env, w: World, m: Move)
    ensures History(env, w, [m]) == Step(env, w, m)
  {
    assert [m][..0] == [];
  }

  /** No abort, no failed publish, no crash. */
  predicate Smooth(m: Move, limit: nat) {
    match m
    case Write(a) => a.Advance?
    case StartRelay(l) => l == limit
    case Fail(_, _) => false
    case CrashRelay(_) => false
    case _ => true
  }

  ghost predicate AllSmooth(moves: seq<Move>, limit: nat) {
    forall m :: m in moves ==> Smooth(m, limit)
  }

  // ----- The requests finish -----

  function Writes(rest: seq<Action>): seq<Move> {
    if rest == [] then [] else Writes(rest[..|rest| - 1]) + [Write(rest[|rest| - 1])]
  }

  lemma {:induction false} WritesRun(env: Env, w: World, rest: seq<Action>, limit: nat)
    requires forall a :: a in rest ==> a.Advance?
    ensures History(env, w, Writes(rest)) == w.(ledger := Run(env, w.ledger, rest))
    ensures AllSmooth(Writes(rest), limit)
  {
    if rest != [] {
      var n := |rest| - 1;
      WritesRun(env, w, rest[..n], limit);
      HistorySnoc(env, w, Writes(rest[..n]), Write(rest[n]));
    }
  }

  // ----- The outbox empties -----

  function Times(m: Move, n: nat): seq<Move> {
    if n == 0 then [] else Times(m, n - 1) + [m]
  }

  lemma {:induction false} TimesSmooth(m: Move, n: nat, limit: nat)
    requires Smooth(m, limit)
    ensures AllSmooth(Times(m, n), limit)
  {
    if n > 0 {
      TimesSmooth(m, n - 1, limit);
    }
  }

  /** Call r has published n events of its batch, and nothing else has changed. */
  predicate PublishedSoFar(w: World, after: World, r: nat, n: nat) {
    && r < |w.calls| && n <= |w.calls[r].batch|
    && after == w.(accepted := w.accepted + Ids(w.calls[r].batch[..n]), calls := w.calls[r := w.calls[r].(done := n)])
  }

  lemma IdsSnoc(batch: seq<Event>, n: nat)
    requires 0 < n <= |batch|
    ensures Ids(batch[..n]) == Ids(batch[..n - 1]) + {batch[n - 1].id}
  {
    assert batch[..n] == batch[..n - 1] + [batch[n - 1]];
  }

  lemma PublishOne(env: Env, w: World, before: World, r: nat, n: nat)
    requires OpenCall(w, r) && !w.calls[r].failed && 0 < n <= |w.calls[r].batch|
    requires PublishedSoFar(w, before, r, n - 1)
    ensures PublishedSoFar(w, Step(env, before, Publish(r)), r, n)
  {
    var call := w.calls[r];
    IdsSnoc(call.batch, n);
    assert w.calls[r := call.(done := n - 1)][r := call.(done := n)] == w.calls[r := call.(done := n)];
  }

  lemma {:induction false} PublishMany(env: Env, w: World, r: nat, n: nat)
    requires OpenCall(w, r) && !w.calls[r].failed && w.calls[r].done == 0 && n <= |w.calls[r].batch|
    ensures PublishedSoFar(w, History(env, w, Times(Publish(r), n)), r, n)
  {
    if n == 0 {
      assert w.calls[r := w.calls[r].(done := 0)] == w.calls;
    } else {
      PublishMany(env, w, r, n - 1);
      HistorySnoc(env, w, Times(Publish(r), n - 1), Publish(r));
      PublishOne(env, w, History(env, w, Times(Publish(r), n - 1)), r, n);
    }
  }

  function Opened(w: World, limit: nat): World {
    w.(calls := w.calls + [RelayCall(BatchOf(w.ledger.db.events, w.published, limit), 0, false, true)])
  }

  lemma StartOpens(env: Env, w: World, limit: nat)
    ensures Step(env, w, StartRelay(limit)) == Opened(w, limit)
  {
  }

  lemma CommitBatch(env: Env, w: World, sent: World, r: nat)
    requires OpenCall(w, r) && !w.calls[r].failed && PublishedSoFar(w, sent, r, |w.calls[r].batch|)
    ensures var after := Step(env, sent, CommitRelay(r));
      && after.ledger == w.ledger && after.counted == w.counted
      && after.published == w.published + Ids(w.calls[r].batch)
  {
    assert w.calls[r].batch[..|w.calls[r].batch|] == w.calls[r].batch;
  }

  /** One relay call with a working transport publishes its batch. */
  lemma OneCall(env: Env, w: World, limit: nat) returns (moves: seq<Move>)
    ensures AllSmooth(moves, limit)
    ensures var after := History(env, w, moves);
      && after.ledger == w.ledger && after.counted == w.counted
      && after.published == w.published + Ids(BatchOf(w.ledger.db.events, w.published, limit))
  {
    StartOpens(env, w, limit);
    hide Step, BatchOf, PublishedSoFar;
    var r, size := |w.calls|, |BatchOf(w.ledger.db.events, w.published, limit)|;
    var publishes := Times(Publish(r), size);
    TimesSmooth(Publish(r), size, limit);
    HistoryOne(env, w, StartRelay(limit));
    HistoryJoin(env, w, [StartRelay(limit)], publishes);
    HistorySnoc(env, w, [StartRelay(limit)] + publishes, CommitRelay(r));
    PublishMany(env, Opened(w, limit), r, size);
    CommitBatch(env, Opened(w, limit), History(env, Opened(w, limit), publishes), r);
    moves := [StartRelay(limit)] + publishes + [CommitRelay(r)];
  }

  function Remaining(w: World): set<Uuid> {
    Ids(w.ledger.db.events) - w.published
  }

  lemma {:induction false} UnpublishedHas(events: seq<Event>, published: set<Uuid>, e: Event)
    requires e in events && e.id !in published
    ensures e in Unpublished(events, published)
  {
    if events[|events| - 1] != e {
      UnpublishedHas(events[..|events| - 1], published, e);
    }
  }

  lemma BatchShrinks(events: seq<Event>, published: set<Uuid>, limit: nat, e: Event)
    requires limit > 0 && e in events && e.id !in published
    ensures exists b :: b in BatchOf(events, published, limit) && b in events && b.id !in published
  {
    var sorted := SortBy(CreatedAt, events);
    SortMembers(CreatedAt, events);
    var i :| 0 <= i < |events| && events[i] == e;
    assert events[i] in sorted;
    UnpublishedHas(sorted, published, e);
    var batch := BatchOf(events, published, limit);
    BatchIsCommitted(events, published, limit);
    assert batch[0] in batch;
  }

  /** Calls of any permitted size publish everything, one after the other. */
  lemma PublishAll(env: Env, w: World, limit: nat) returns (moves: seq<Move>)
    requires limit > 0
    ensures AllSmooth(moves, limit)
    ensures var after := History(env, w, moves);
      after.ledger == w.ledger && after.counted == w.counted && Ids(w.ledger.db.events) <= after.published
    decreases |Remaining(w)|
  {
    var events := w.ledger.db.events;
    if e :| e in events && e.id !in w.published {
      var first := OneCall(env, w, limit);
      var next := History(env, w, first);
      BatchShrinks(events, w.published, limit, e);
      var b :| b in BatchOf(events, w.published, limit) && b in events && b.id !in w.published;
      assert b.id in Remaining(w) && b.id !in Remaining(next);
      Fewer(Remaining(next), Remaining(w), b.id);
      var rest := PublishAll(env, next, limit);
      HistoryJoin(env, w, first, rest);
      moves := first + rest;
    } else {
      moves := [];
    }
  }

  lemma Fewer(a: set<Uuid>, b: set<Uuid>, x: Uuid)
    requires a <= b && x in b && x !in a
    ensures |a| < |b|
  {
    assert a <= b - {x};
    assert b == (b - {x}) + {x};
    SubsetSize(a, b - {x});
  }

  lemma {:induction false} SubsetSize(a: set<Uuid>, b: set<Uuid>)
    requires a <= b
    ensures |a| <= |b|
  {
    assert b == a + (b - a);
  }

  // ----- The consumer catches up -----

  function DeliverUpTo(n: nat): seq<Move> {
    if n == 0 then [] else DeliverUpTo(n - 1) + [Deliver(n - 1)]
  }

  /** What was accepted among the first n events has been handled; nothing else changed. */
  ghost predicate HandledUpTo(w: World, after: World, n: nat) {
    && after == w.(counted := after.counted)
    && n <= |w.ledger.db.events|
    && forall k :: 0 <= k < n && w.ledger.db.events[k].id in w.accepted ==>
         Some(UuidText(w.ledger.db.events[k].id)) in after.counted.seen
  }

  lemma ReceivedIsSeen(c: Counted, e: Event)
    ensures Some(UuidText(e.id)) in Received(c, MessageOf(e)).seen && c.seen <= Received(c, MessageOf(e)).seen
  {
  }

  lemma DeliverOne(env: Env, w: World, mid: World, k: nat)
    requires HandledUpTo(w, mid, k) && k < |w.ledger.db.events|
    ensures HandledUpTo(w, Step(env, mid, Deliver(k)), k + 1)
  {
    ReceivedIsSeen(mid.counted, w.ledger.db.events[k]);
  }

  lemma {:induction false} DeliverSmooth(n: nat, limit: nat)
    ensures AllSmooth(DeliverUpTo(n), limit)
  {
    if n > 0 {
      DeliverSmooth(n - 1, limit);
    }
  }

  lemma {:induction false} DeliverAll(env: Env, w: World, n: nat)
    requires n <= |w.ledger.db.events|
    ensures HandledUpTo(w, History(env, w, DeliverUpTo(n)), n)
  {
    if n == 0 {
      assert History(env, w, DeliverUpTo(0)) == w;
    } else {
      DeliverAll(env, w, n - 1);
      DeliverNext(env, w, History(env, w, DeliverUpTo(n - 1)), n);
    }
  }

  lemma DeliverNext(env: Env, w: World, mid: World, n: nat)
    requires 0 < n <= |w.ledger.db.events| && mid == History(env, w, DeliverUpTo(n - 1)) && HandledUpTo(w, mid, n - 1)
    ensures HandledUpTo(w, History(env, w, DeliverUpTo(n)), n)
  {
    hide HandledUpTo, Step;
    HistorySnoc(env, w, DeliverUpTo(n - 1), Deliver(n - 1));
    DeliverOne(env, w, mid, n - 1);
  }

  // ----- All together -----

  ghost predicate AllAnswered(s: State) {
    forall p :: 0 <= p < |s.procs| ==> s.procs[p].pc.Done?
  }

  lemma HandledIsDrained(env: Env, w: World, after: World)
    requires WorldInv(env, w) && HandledUpTo(w, after, |w.ledger.db.events|)
    requires Ids(w.ledger.db.events) <= w.published
    ensures Drained(after)
  {
    forall id | id in w.accepted
      ensures Some(UuidText(id)) in after.counted.seen
    {
      assert id in Ids(w.ledger.db.events);
      var e :| e in w.ledger.db.events && e.id == id;
      var k :| 0 <= k < |w.ledger.db.events| && w.ledger.db.events[k] == e;
    }
  }

  /** From every state of the invariant, with any page size, the system can be drained without failures. */
  lemma CanAlwaysDrain(env: Env, w: World, limit: nat) returns (moves: seq<Move>)
    requires WorldInv(env, w) && limit > 0
    ensures AllSmooth(moves, limit)
    ensures Drained(History(env, w, moves)) && AllAnswered(History(env, w, moves).ledger)
  {
    var rest := CanAlwaysFinish(env, w.ledger);
    WritesRun(env, w, rest, limit);
    var answered := History(env, w, Writes(rest));
    HistoryKeepsInv(env, w, Writes(rest));
    var relay := PublishAll(env, answered, limit);
    var published := History(env, answered, relay);
    HistoryKeepsInv(env, answered, relay);
    var n := |published.ledger.db.events|;
    DeliverAll(env, published, n);
    DeliverSmooth(n, limit);
    HandledIsDrained(env, published, History(env, published, DeliverUpTo(n)));
    HistoryJoin(env, w, Writes(rest), relay);
    HistoryJoin(env, w, Writes(rest) + relay, DeliverUpTo(n));
    moves := Writes(rest) + relay + DeliverUpTo(n);
  }

  /** After any history, whatever failed or crashed in it, the counts can still be made exact. */
  lemma EventuallyExact(env: Env, w: World, before: seq<Move>, limit: nat) returns (moves: seq<Move>)
    requires Start(env, w) && limit > 0
    ensures AllSmooth(moves, limit) && AllAnswered(History(env, w, before + moves).ledger)
    ensures forall kind: TxnType :: TypeText(kind) in History(env, w, before + moves).counted.totals
    ensures forall kind: TxnType ::
      History(env, w, before + moves).counted.totals[TypeText(kind)] ==
      |OfKind(History(env, w, before + moves).ledger.db.txns, kind)|
  {
    StartInv(env, w);
    HistoryKeepsInv(env, w, before);
    moves := CanAlwaysDrain(env, History(env, w, before), limit);
    HistoryJoin(env, w, before, moves);
    forall kind: TxnType
      ensures TypeText(kind) in History(env, w, before + moves).counted.totals
      ensures History(env, w, before + moves).counted.totals[TypeText(kind)] ==
              |OfKind(History(env, w, before + moves).ledger.db.txns, kind)|
    {
      ExactlyOnce(env, w, before + moves, kind);
    }
  }
}
