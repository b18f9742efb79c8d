/** The outbox relay: one call over the pending rows, and what any series of calls delivers. */
module Relay {
  import opened Values
  import opened Sorting

  // ----- One call -----

  class OutboxRow {
    const event: Event
    var publishedAt: Option<int>

    constructor (event: Event)
      ensures this.event == event && publishedAt == None
    {
      this.event := event;
      publishedAt := None;
    }
  }

  function Ids(rows: seq<OutboxRow>): seq<Uuid> {
    seq(|rows|, i requires 0 <= i < |rows| => rows[i].event.id)
  }

  /** WHERE published_at IS NULL, in query order. */
  function Pending(rows: seq<OutboxRow>): (pending: seq<OutboxRow>)
    reads rows
    ensures forall r :: r in pending ==> r in rows && r.publishedAt.None?
  {
    if rows == [] then []
    else
      Pending(rows[..|rows| - 1]) + (if rows[|rows| - 1].publishedAt.None? then [rows[|rows| - 1]] else [])
  }

  function Batch(rows: seq<OutboxRow>, limit: nat): (batch: seq<OutboxRow>)
    reads rows
    ensures forall r :: r in batch ==> r in rows
  {
    Pending(rows)[..Min(limit, |Pending(rows)|)]
  }

  lemma {:induction false} PendingDistinct(rows: seq<OutboxRow>)
    requires NoRepeats(rows)
    ensures NoRepeats(Pending(rows))
  {
    if rows != [] {
      PendingDistinct(rows[..|rows| - 1]);
    }
  }

  /** What one publish does: it returns; or it raises, and the broker may have taken the message all the same. */
  datatype Sent = Accepted | Unanswered | Refused

  /** How many events of a batch reach the broker when published of them were acknowledged. */
  function Reach(published: nat, failed: nat, transport: nat -> Sent): (reach: nat)
    ensures published <= reach <= published + failed
  {
    if failed > 0 && transport(published).Unanswered? then published + 1 else published
  }

  /** The loop of outbox_publish over rows in query order. transport(k) is the outcome of the k-th publish of this call;
      the first that raises leaves its row and the rest of the batch pending. */
  method PublishBatch(rows: seq<OutboxRow>, limit: nat, transport: nat -> Sent, clock: nat -> int)
      returns (published: nat, failed: nat, reached: seq<Uuid>)
    requires NoRepeats(rows)
    modifies rows
    ensures published + failed == |old(Batch(rows, limit))|
    ensures forall k :: 0 <= k < published ==> transport(k).Accepted?
    ensures failed > 0 ==> !transport(published).Accepted?
    ensures reached == Ids(old(Batch(rows, limit))[..Reach(published, failed, transport)])
    ensures forall k :: 0 <= k < published ==> old(Batch(rows, limit))[k].publishedAt == Some(clock(k))
    ensures forall r :: r in rows && r !in old(Batch(rows, limit))[..published] ==> r.publishedAt == old(r.publishedAt)
  {
    var events := Batch(rows, limit);
    PendingDistinct(rows);
    published, failed, reached := 0, 0, [];
    for i := 0 to |events|
      invariant published == i && failed == 0
      invariant forall k :: 0 <= k < i ==> transport(k).Accepted? && events[k].publishedAt == Some(clock(k))
      invariant reached == Ids(events[..i])
      invariant forall r :: r in rows && r !in events[..i] ==> r.publishedAt == old(r.publishedAt)
    {
      IdsOneMore(events, i);
      if !transport(i).Refused? {
        reached := reached + [events[i].event.id];
      }
      if !transport(i).Accepted? {
        failed := |events| - published;
        return;
      }
      assert events[..i + 1][..i] == events[..i] && events[i] in events;
      events[i].publishedAt := Some(clock(i));
      published := published + 1;
    }
    assert events[..|events|] == events;
  }

  function Age(row: OutboxRow): int {
    row.event.createdAt
  }

  /** ORDER BY created_at; rows with equal timestamps stay in physical order. */
  function Queue(table: seq<OutboxRow>): seq<OutboxRow> {
    SortBy(Age, table)
  }

  lemma QueueRows(table: seq<OutboxRow>)
    requires NoRepeats(table)
    ensures NoRepeats(Queue(table))
    ensures forall i :: 0 <= i < |Queue(table)| ==> Queue(table)[i] in table
    ensures forall i :: 0 <= i < |table| ==> table[i] in Queue(table)
  {
    SortNoRepeats(Age, table);
    SortMembers(Age, table);
  }

  /** outbox_publish over the table in any physical order. */
  method OutboxPublish(table: seq<OutboxRow>, limit: nat, transport: nat -> Sent, clock: nat -> int)
      returns (published: nat, failed: nat, reached: seq<Uuid>)
    requires NoRepeats(table)
    modifies table
    ensures published + failed == |old(Batch(Queue(table), limit))|
    ensures forall k :: 0 <= k < published ==> transport(k).Accepted?
    ensures failed > 0 ==> !transport(published).Accepted?
    ensures reached == Ids(old(Batch(Queue(table), limit))[..Reach(published, failed, transport)])
    ensures |reached| == published + if failed > 0 && transport(published) == Unanswered then 1 else 0
    ensures forall k :: 0 <= k < published ==> old(Batch(Queue(table), limit))[k].publishedAt == Some(clock(k))
    ensures forall r :: r in table && r !in old(Batch(Queue(table), limit))[..published] ==>
      r.publishedAt == old(r.publishedAt)
  {
    var rows := Queue(table);
    QueueRows(table);
    published, failed, reached := PublishBatch(rows, limit, transport, clock);
  }

  lemma {:induction false} PendingExactly(rows: seq<OutboxRow>)
    ensures forall r :: r in Pending(rows) <==> r in rows && r.publishedAt.None?
    ensures Ascending(Age, rows) ==> Ascending(Age, Pending(rows))
  {
    if rows != [] {
      var front, last := rows[..|rows| - 1], rows[|rows| - 1];
      PendingExactly(front);
      assert rows == front + [last];
      if Ascending(Age, rows) {
        assert Ascending(Age, front);
        forall r | r in Pending(front)
          ensures Age(r) <= Age(last)
        {
          var i :| 0 <= i < |front| && front[i] == r;
          assert Age(rows[i]) <= Age(rows[|rows| - 1]);
        }
      }
    }
  }

  /** The batch of a call: pending rows, oldest first, none of them younger than a pending row left out, and as many as
      the limit allows. */
  lemma BatchIsOldest(table: seq<OutboxRow>, limit: nat)
    ensures
      var batch := Batch(Queue(table), limit);
      && (forall r :: r in batch ==> r in table && r.publishedAt.None?)
      && (forall i, j :: 0 <= i < j < |batch| ==> batch[i].event.createdAt <= batch[j].event.createdAt)
      && (forall r, b :: r in table && r.publishedAt.None? && r !in batch && b in batch ==>
            b.event.createdAt <= r.event.createdAt)
      && |batch| <= limit
      && (|batch| < limit ==> forall r :: r in table && r.publishedAt.None? ==> r in batch)
  {
    hide Queue, Pending;
    QueueMembers(table);
    PendingExactly(Queue(table));
    OldestTaken(Pending(Queue(table)), Min(limit, |Pending(Queue(table))|));
  }

  lemma QueueMembers(table: seq<OutboxRow>)
    ensures Ascending(Age, Queue(table))
    ensures forall r :: r in Queue(table) <==> r in table
  {
    SortAscending(Age, table);
    SortMembers(Age, table);
  }

  lemma OldestTaken(pending: seq<OutboxRow>, size: nat)
    requires Ascending(Age, pending) && size <= |pending|
    ensures forall i, j :: 0 <= i < j < size ==>
      pending[..size][i].event.createdAt <= pending[..size][j].event.createdAt
    ensures forall r, b :: r in pending && r !in pending[..size] && b in pending[..size] ==>
      b.event.createdAt <= r.event.createdAt
    ensures size == |pending| ==> pending[..size] == pending
  {
    forall i, j | 0 <= i < j < size
      ensures pending[..size][i].event.createdAt <= pending[..size][j].event.createdAt
    {
      assert Age(pending[i]) <= Age(pending[j]);
    }
    forall r, b | r in pending && r !in pending[..size] && b in pending[..size]
      ensures b.event.createdAt <= r.event.createdAt
    {
      assert pending == pending[..size] + pending[size..];
      var i :| 0 <= i < |pending[size..]| && pending[size..][i] == r;
      var j :| 0 <= j < size && pending[..size][j] == b;
      assert Age(pending[j]) <= Age(pending[size + i]);
    }
  }

  lemma IdsOneMore(rows: seq<OutboxRow>, i: nat)
    requires i < |rows|
    ensures Ids(rows[..i + 1]) == Ids(rows[..i]) + [rows[i].event.id]
  {
  }

  // ----- The published rows always form a prefix -----

  ghost predicate PrefixPublished(rows: seq<OutboxRow>, m: nat)
    reads rows
  {
    m <= |rows| && forall i :: 0 <= i < |rows| ==> (rows[i].publishedAt.Some? <==> i < m)
  }

  lemma {:induction false} PendingOfPrefix(rows: seq<OutboxRow>, m: nat)
    requires PrefixPublished(rows, m)
    ensures Pending(rows) == rows[m..]
  {
    if rows != [] {
      var front := rows[..|rows| - 1];
      if m <= |front| {
        PendingOfPrefix(front, m);
        assert rows[m..] == front[m..] + [rows[|rows| - 1]];
      } else {
        PendingOfPrefix(front, |front|);
      }
    }
  }

  function Min(a: nat, b: nat): nat {
    if a <= b then a else b
  }

  function Max(a: nat, b: nat): nat {
    if a <= b then b else a
  }

  lemma BatchOfPrefix(rows: seq<OutboxRow>, m: nat, limit: nat)
    requires PrefixPublished(rows, m)
    ensures var size := Min(limit, |rows| - m);
      m + size <= |rows| && Batch(rows, limit) == rows[m..m + size]
  {
    PendingOfPrefix(rows, m);
    assert rows[m..|rows|] == rows[m..];
  }

  lemma PrefixOfSlice<T>(s: seq<T>, m: nat, size: nat, k: nat)
    requires k <= size && m + size <= |s|
    ensures s[m..m + size][..k] == s[m..m + k]
  {
  }

  lemma OutsideSlice(rows: seq<OutboxRow>, from: nat, to: nat, i: nat)
    requires NoRepeats(rows) && from <= to <= |rows| && i < |rows| && !(from <= i < to)
    ensures rows[i] !in rows[from..to]
  {
  }

  /** Over a queue published up to m, a call sends the next rows in order and moves the mark past the acknowledged. */
  method PublishNext(rows: seq<OutboxRow>, limit: nat, transport: nat -> Sent, clock: nat -> int, ghost m: nat)
      returns (published: nat, failed: nat, reached: seq<Uuid>)
    requires NoRepeats(rows) && PrefixPublished(rows, m)
    modifies rows
    ensures published + failed == Min(limit, |rows| - m)
    ensures forall k :: 0 <= k < published ==> transport(k).Accepted?
    ensures failed > 0 ==> !transport(published).Accepted?
    ensures reached == Ids(rows[m..m + Reach(published, failed, transport)])
    ensures PrefixPublished(rows, m + published)
  {
    BatchOfPrefix(rows, m, limit);
    ghost var batch := Batch(rows, limit);
    published, failed, reached := PublishBatch(rows, limit, transport, clock);
    PrefixOfSlice(rows, m, |batch|, published);
    PrefixOfSlice(rows, m, |batch|, Reach(published, failed, transport));
    forall i | 0 <= i < |rows|
      ensures rows[i].publishedAt.Some? <==> i < m + published
    {
      if m <= i < m + published {
        assert rows[i] == batch[i - m];
      } else {
        OutsideSlice(rows, m, m + published, i);
      }
    }
  }

  // ----- A series of calls, one after the other -----

  /** What happens in one call: how many publishes return before one raises or the process dies, whether the broker took
      that last one too, and whether the call dies before its commit. */
  datatype Attempt = Attempt(limit: nat, good: nat, took: bool, crash: bool)

  /** Rows published so far, and every event the broker took, in order. */
  datatype Delivered = Delivered(marked: nat, log: seq<Uuid>)

  /** How many publishes of the call return. */
  function Acked(n: nat, marked: nat, a: Attempt): (k: nat)
    requires marked <= n
    ensures k <= n - marked
  {
    Min(a.good, Min(a.limit, n - marked))
  }

  /** How many of its events the broker takes. */
  function Taken(n: nat, marked: nat, a: Attempt): (k: nat)
    requires marked <= n
    ensures Acked(n, marked, a) <= k <= n - marked
  {
    var acked := Acked(n, marked, a);
    if a.took && acked < Min(a.limit, n - marked) then acked + 1 else acked
  }

  /** One more call. */
  function Called(queue: seq<Uuid>, d: Delivered, a: Attempt): (after: Delivered)
    requires d.marked <= |queue|
    ensures d.marked <= after.marked <= |queue|
  {
    Delivered(if a.crash then d.marked else d.marked + Acked(|queue|, d.marked, a),
              d.log + queue[d.marked..d.marked + Taken(|queue|, d.marked, a)])
  }

  function Series(queue: seq<Uuid>, attempts: seq<Attempt>): (d: Delivered)
    ensures d.marked <= |queue|
  {
    if attempts == [] then Delivered(0, [])
    else Called(queue, Series(queue, attempts[..|attempts| - 1]), attempts[|attempts| - 1])
  }

  /** The transport does in this call what the attempt says. */
  ghost predicate Describes(a: Attempt, transport: nat -> Sent) {
    && (forall k :: 0 <= k < a.good ==> transport(k).Accepted?)
    && (a.good < a.limit ==> transport(a.good) == if a.took then Unanswered else Refused)
  }

  /** How many publishes are acknowledged, and how many reach the broker, is determined by the transport. */
  lemma HowMany(size: nat, a: Attempt, transport: nat -> Sent, published: nat, failed: nat)
    requires Describes(a, transport) && size <= a.limit
    requires published + failed == size
    requires forall k :: 0 <= k < published ==> transport(k).Accepted?
    requires failed > 0 ==> !transport(published).Accepted?
    ensures published == Min(a.good, size)
    ensures Reach(published, failed, transport) == if a.took && published < size then published + 1 else published
  {
  }

  lemma IdsOfSlice(rows: seq<OutboxRow>, from: nat, to: nat)
    requires from <= to <= |rows|
    ensures Ids(rows[from..to]) == Ids(rows)[from..to]
  {
  }

  /** What PublishNext guarantees leaves one possibility: the next step of the series. */
  lemma CallIsNextStep(
      rows: seq<OutboxRow>, d: Delivered, a: Attempt, transport: nat -> Sent, published: nat, failed: nat)
    requires d.marked <= |rows| && Describes(a, transport)
    requires published + failed == Min(a.limit, |rows| - d.marked)
    requires forall k :: 0 <= k < published ==> transport(k).Accepted?
    requires failed > 0 ==> !transport(published).Accepted?
    ensures Called(Ids(rows), d, a) ==
            Delivered(if a.crash then d.marked else d.marked + published,
                      d.log + Ids(rows[d.marked..d.marked + Reach(published, failed, transport)]))
  {
    HowMany(published + failed, a, transport, published, failed);
    IdsOfSlice(rows, d.marked, d.marked + Reach(published, failed, transport));
  }

  /** The published_at column. */
  function Marks(rows: seq<OutboxRow>): (marks: seq<Option<int>>)
    reads rows
    ensures |marks| == |rows| && forall i :: 0 <= i < |rows| ==> marks[i] == rows[i].publishedAt
  {
    if rows == [] then [] else Marks(rows[..|rows| - 1]) + [rows[|rows| - 1].publishedAt]
  }

  /** What the database does with the updates of a call that dies before its commit. */
  method Rollback(rows: seq<OutboxRow>, marks: seq<Option<int>>)
    requires NoRepeats(rows) && |marks| == |rows|
    modifies rows
    ensures forall i :: 0 <= i < |rows| ==> rows[i].publishedAt == marks[i]
  {
    for i := 0 to |rows|
      invariant forall k :: 0 <= k < i ==> rows[k].publishedAt == marks[k]
    {
      rows[i].publishedAt := marks[i];
    }
  }

  /** One call, committed or crashed: what reaches the broker stays there, what is marked may not. */
  method RunCall(rows: seq<OutboxRow>, a: Attempt, transport: nat -> Sent, clock: nat -> int, ghost d: Delivered)
      returns (reached: seq<Uuid>)
    requires NoRepeats(rows) && PrefixPublished(rows, d.marked) && Describes(a, transport)
    modifies rows
    ensures PrefixPublished(rows, Called(Ids(rows), d, a).marked)
    ensures Called(Ids(rows), d, a).log == d.log + reached
  {
    var before := Marks(rows);
    var published, failed;
    published, failed, reached := PublishNext(rows, a.limit, transport, clock, d.marked);
    CallIsNextStep(rows, d, a, transport, published, failed);
    if a.crash {
      Rollback(rows, before);
    }
  }

  /** Calls one after the other over a fixed pending set are the series. */
  method RunSeries(table: seq<OutboxRow>, attempts: seq<Attempt>, transports: seq<nat -> Sent>, clock: nat -> int)
      returns (log: seq<Uuid>)
    requires NoRepeats(table) && PrefixPublished(Queue(table), 0)
    requires |transports| == |attempts| && forall j :: 0 <= j < |attempts| ==> Describes(attempts[j], transports[j])
    modifies table
    ensures log == Series(Ids(Queue(table)), attempts).log
    ensures PrefixPublished(Queue(table), Series(Ids(Queue(table)), attempts).marked)
  {
    var rows := Queue(table);
    QueueRows(table);
    log := [];
    for j := 0 to |attempts|
      invariant log == Series(Ids(rows), attempts[..j]).log
      invariant PrefixPublished(rows, Series(Ids(rows), attempts[..j]).marked)
    {
      assert attempts[..j + 1][..j] == attempts[..j];
      var reached := RunCall(rows, attempts[j], transports[j], clock, Series(Ids(rows), attempts[..j]));
      log := log + reached;
    }
    assert attempts[..|attempts|] == attempts;
  }

  /** The log without repetitions: who was accepted first. */
  function FirstSeen(log: seq<Uuid>): seq<Uuid> {
    if log == [] then []
    else
      var front, last := FirstSeen(log[..|log| - 1]), log[|log| - 1];
      if last in front then front else front + [last]
  }

  /** One more acceptance, of an event already seen or of the next one. */
  lemma SeenOneMore(queue: seq<Uuid>, log: seq<Uuid>, seen: nat, i: nat)
    requires NoRepeats(queue) && i <= seen <= |queue| && i < |queue|
    requires FirstSeen(log) == queue[..seen]
    ensures FirstSeen(log + [queue[i]]) == queue[..Max(seen, i + 1)]
  {
    assert (log + [queue[i]])[..|log|] == log;
    if i < seen {
      assert queue[i] == queue[..seen][i];
    } else {
      assert queue[..i + 1] == queue[..i] + [queue[i]];
    }
  }

  lemma SliceSnoc(log: seq<Uuid>, queue: seq<Uuid>, from: nat, to: nat)
    requires from < to <= |queue|
    ensures log + queue[from..to] == log + queue[from..to - 1] + [queue[to - 1]]
  {
  }

  /** Accepting queue[from..to] after the first f events leaves max(f, to) events seen, still in queue order. */
  lemma {:induction false} SeenInOrder(queue: seq<Uuid>, log: seq<Uuid>, f: nat, from: nat, to: nat)
    requires NoRepeats(queue) && from <= f <= |queue| && from <= to <= |queue|
    requires FirstSeen(log) == queue[..f]
    ensures FirstSeen(log + queue[from..to]) == queue[..Max(f, to)]
  {
    if from == to {
      assert log + queue[from..to] == log;
    } else {
      SeenInOrder(queue, log, f, from, to - 1);
      SeenOneMore(queue, log + queue[from..to - 1], Max(f, to - 1), to - 1);
      SliceSnoc(log, queue, from, to);
    }
  }

  /** First acceptances follow the queue, and every marked event was accepted. */
  ghost predicate InOrder(queue: seq<Uuid>, d: Delivered) {
    && d.marked <= |FirstSeen(d.log)| <= |queue|
    && FirstSeen(d.log) == queue[..|FirstSeen(d.log)|]
  }

  lemma PrefixInOrder(queue: seq<Uuid>, d: Delivered, seen: nat)
    requires d.marked <= seen <= |queue| && FirstSeen(d.log) == queue[..seen]
    ensures InOrder(queue, d)
  {
  }

  lemma CallKeepsOrder(queue: seq<Uuid>, d: Delivered, a: Attempt)
    requires NoRepeats(queue) && InOrder(queue, d)
    ensures InOrder(queue, Called(queue, d, a))
  {
    var seen, to := |FirstSeen(d.log)|, d.marked + Taken(|queue|, d.marked, a);
    SeenInOrder(queue, d.log, seen, d.marked, to);
    PrefixInOrder(queue, Called(queue, d, a), Max(seen, to));
  }

  /** Whatever fails or crashes, events are first accepted oldest first, and every marked event was accepted. */
  lemma {:induction false} OldestFirst(queue: seq<Uuid>, attempts: seq<Attempt>)
    requires NoRepeats(queue)
    ensures InOrder(queue, Series(queue, attempts))
  {
    if attempts == [] {
      assert FirstSeen([]) == [] == queue[..0];
    } else {
      OldestFirst(queue, attempts[..|attempts| - 1]);
      CallKeepsOrder(queue, Series(queue, attempts[..|attempts| - 1]), attempts[|attempts| - 1]);
    }
  }

  /** Every attempt has the same limit, a working transport and no crash. */
  ghost predicate AllGood(attempts: seq<Attempt>, limit: nat) {
    forall i :: 0 <= i < |attempts| ==> attempts[i].limit == limit && attempts[i].good >= limit && !attempts[i].crash
  }

  lemma {:induction false} GoodProgress(queue: seq<Uuid>, attempts: seq<Attempt>, limit: nat)
    requires AllGood(attempts, limit)
    ensures Series(queue, attempts).marked == Min(|queue|, |attempts| * limit)
  {
    if attempts != [] {
      var front, last := attempts[..|attempts| - 1], attempts[|attempts| - 1];
      GoodProgress(queue, front, limit);
      MulStep(|front|, limit);
      GoodCall(queue, Series(queue, front), last, |front| * limit);
    }
  }

  lemma GoodCall(queue: seq<Uuid>, d: Delivered, a: Attempt, before: nat)
    requires d.marked == Min(|queue|, before) && a.good >= a.limit && !a.crash
    ensures Called(queue, d, a).marked == Min(|queue|, before + a.limit)
  {
  }

  lemma CeilingBounds(n: nat, limit: nat, calls: nat)
    requires limit > 0
    ensures calls >= (n + limit - 1) / limit <==> calls * limit >= n
  {
    var c, r := (n + limit - 1) / limit, (n + limit - 1) % limit;
    assert n + limit - 1 == c * limit + r;
    if calls >= c {
      assert calls * limit >= c * limit by { MulMonotone(c, calls, limit); }
    } else {
      assert (c - 1) * limit >= calls * limit by { MulMonotone(calls, c - 1, limit); }
      assert (c - 1) * limit == c * limit - limit;
    }
  }

  lemma MulMonotone(a: int, b: int, k: nat)
    requires a <= b
    ensures a * k <= b * k
  {
  }

  /** A working transport drains n events in exactly ceil(n / limit) calls. */
  lemma DrainsInCeiling(queue: seq<Uuid>, attempts: seq<Attempt>, limit: nat)
    requires limit > 0 && AllGood(attempts, limit)
    ensures Series(queue, attempts).marked == |queue| <==> |attempts| >= (|queue| + limit - 1) / limit
  {
    GoodProgress(queue, attempts, limit);
    CeilingBounds(|queue|, limit, |attempts|);
  }
}
