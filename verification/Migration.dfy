/** Migration 004: rebuild every link in one deterministic pass, whatever state the chain was in. */
module Migration {
  import opened Values
  import opened Sorting
  import opened Chain

  /** ORDER BY created_at, id: lexicographic, since ids are below UUID_SPACE. */
  function AgeKey(t: Txn): int {
    t.createdAt * UUID_SPACE + t.id
  }

  function OldestFirst(table: seq<Txn>): seq<Txn> {
    SortBy(AgeKey, table)
  }

  function RebuiltPrev(env: Env, rows: seq<Txn>, i: nat): string
    requires i <= |rows|
  {
    if i == 0 then GENESIS_HASH
    else env.link(HashedFields(rows[i - 1], rows[i - 1].cents, Some(RebuiltPrev(env, rows, i - 1))))
  }

  function RebuiltRow(env: Env, rows: seq<Txn>, i: nat): Txn
    requires i < |rows|
  {
    LinkAfter(env, rows[i], rows[i].cents, i + 1, Some(RebuiltPrev(env, rows, i)))
  }

  /** The first n rows, chained in order. */
  function Rebuilt(env: Env, rows: seq<Txn>, n: nat): (r: seq<Txn>)
    requires n <= |rows|
    ensures |r| == n && forall i :: 0 <= i < n ==> r[i] == RebuiltRow(env, rows, i)
  {
    if n == 0 then [] else Rebuilt(env, rows, n - 1) + [RebuiltRow(env, rows, n - 1)]
  }

  lemma RebuiltIsLinear(env: Env, rows: seq<Txn>)
    ensures Linear(env, Rebuilt(env, rows, |rows|))
  {
    var r := Rebuilt(env, rows, |rows|);
    forall i | 0 <= i < |r|
      ensures LinkedAt(env, r, i)
    {
      assert r[i] == RebuiltRow(env, rows, i);
      assert i > 0 ==> r[i - 1] == RebuiltRow(env, rows, i - 1);
      assert HashedFields(r[i], r[i].cents, r[i].prevHash) == HashedFields(rows[i], rows[i].cents, r[i].prevHash);
    }
  }

  lemma DistinctIdsDistinctAges(table: seq<Txn>)
    requires DistinctIds(table)
    ensures DistinctKeys(AgeKey, table)
  {
  }

  /** The row without its chain columns: what the migration must not touch. */
  function Data(t: Txn): Txn {
    t.(prevHash := None, chainHash := None, chainSeq := None)
  }

  /** Row j of the table sits at place[j] of the ordered snapshot. */
  ghost predicate Places(table: seq<Txn>, rows: seq<Txn>, place: seq<nat>) {
    && |place| == |table| == |rows|
    && (forall j :: 0 <= j < |table| ==> place[j] < |rows| && rows[place[j]] == table[j])
  }

  lemma PlaceOf(table: seq<Txn>, j: nat) returns (p: nat)
    requires j < |table|
    ensures p < |OldestFirst(table)| && OldestFirst(table)[p] == table[j]
  {
    SortPermutes(AgeKey, table);
    Rearranged(table, OldestFirst(table), table[j]);
    p :| 0 <= p < |OldestFirst(table)| && OldestFirst(table)[p] == table[j];
  }

  lemma {:induction false} FindPlaces(table: seq<Txn>, n: nat) returns (place: seq<nat>)
    requires n <= |table|
    ensures |place| == n
    ensures forall j :: 0 <= j < n ==> place[j] < |OldestFirst(table)| && OldestFirst(table)[place[j]] == table[j]
  {
    if n == 0 {
      place := [];
    } else {
      var before := FindPlaces(table, n - 1);
      var p := PlaceOf(table, n - 1);
      place := before + [p];
    }
  }

  lemma SortedHasDistinctIds(table: seq<Txn>)
    requires DistinctIds(table)
    ensures DistinctIds(OldestFirst(table))
  {
    var rows := OldestFirst(table);
    SortPermutes(AgeKey, table);
    DistinctIdsDistinctAges(table);
    SortIncreasing(AgeKey, table);
    forall i, j | 0 <= i < j < |rows|
      ensures rows[i].id != rows[j].id
    {
      Rearranged(rows, table, rows[i]);
      Rearranged(rows, table, rows[j]);
      assert AgeKey(rows[i]) < AgeKey(rows[j]);
    }
  }

  /** Every row carries the link of its place, computed from the snapshot. */
  ghost predicate Repaired(env: Env, was: seq<Txn>, now: seq<Txn>) {
    && |now| == |was| == |OldestFirst(was)|
    && forall j :: 0 <= j < |was| ==> RepairedAt(env, was, now, j)
  }

  ghost predicate RepairedAt(env: Env, was: seq<Txn>, now: seq<Txn>, j: nat)
    requires j < |was| && j < |now|
  {
    exists p ::
      0 <= p < |OldestFirst(was)| && OldestFirst(was)[p] == was[j] && now[j] == RebuiltRow(env, OldestFirst(was), p)
  }

  /** The first was created earlier, or at the same time with the smaller id. */
  predicate Older(t: Txn, u: Txn) {
    t.createdAt < u.createdAt || (t.createdAt == u.createdAt && t.id < u.id)
  }

  /** The older of two rows has the smaller number. */
  predicate NumberedByAge(was: seq<Txn>, now: seq<Txn>, j: nat, k: nat)
    requires j < |was| == |now| && k < |was|
  {
    Older(was[j], was[k]) ==>
      now[j].chainSeq.Some? && now[k].chainSeq.Some? && now[j].chainSeq.value < now[k].chainSeq.value
  }

  /** UPDATE transactions SET chain_seq, prev_hash, chain_hash WHERE id = ... */
  method UpdateWhereId(table: array<Txn>, id: Uuid, chainSeq: int, prevHash: string, chainHash: string)
    modifies table
    ensures forall j :: 0 <= j < table.Length ==>
      table[j] == if old(table[j]).id == id
                  then old(table[j]).(chainSeq := Some(chainSeq), prevHash := Some(prevHash),
                                      chainHash := Some(chainHash))
                  else old(table[j])
  {
    for j := 0 to table.Length
      invariant forall k :: 0 <= k < table.Length ==>
        table[k] == if k < j && old(table[k]).id == id
                    then old(table[k]).(chainSeq := Some(chainSeq), prevHash := Some(prevHash),
                                        chainHash := Some(chainHash))
                    else old(table[k])
    {
      if table[j].id == id {
        table[j] := table[j].(chainSeq := Some(chainSeq), prevHash := Some(prevHash), chainHash := Some(chainHash));
      }
    }
  }

  /** upgrade: walk the rows oldest first, carrying the previous hash, and update each row in place. */
  method Upgrade(env: Env, table: array<Txn>)
    requires DistinctIds(table[..])
    modifies table
    ensures Repaired(env, old(table[..]), table[..])
    ensures Chained(table[..]) == Rebuilt(env, OldestFirst(old(table[..])), table.Length)
    ensures Report(env, table[..]) == ChainReport(true, table.Length, [])
    ensures forall j :: 0 <= j < table.Length ==> Data(table[j]) == Data(old(table[j]))
    ensures forall j, k :: 0 <= j < table.Length && 0 <= k < table.Length ==>
      NumberedByAge(old(table[..]), table[..], j, k)
  {
    hide OldestFirst, Rebuilt, Report, Chained, NumberedByAge, RepairedUpTo, Places;
    ghost var was := table[..];
    var rows := OldestFirst(table[..]);
    ghost var place := Snapshot(env, was);
    var prevHash := GENESIS_HASH;
    for i := 0 to |rows|
      invariant prevHash == RebuiltPrev(env, rows, i)
      invariant RepairedUpTo(env, was, table[..], place, i)
    {
      ghost var before := table[..];
      var chainHash := env.link(HashedFields(rows[i], rows[i].cents, Some(prevHash)));
      UpdateWhereId(table, rows[i].id, i + 1, prevHash, chainHash);
      OneMoreRepaired(env, was, before, table[..], place, i);
      prevHash := chainHash;
    }
    AllRepaired(env, was, table[..], place);
  }

  lemma Snapshot(env: Env, was: seq<Txn>) returns (place: seq<nat>)
    requires DistinctIds(was)
    ensures |OldestFirst(was)| == |was| && DistinctIds(OldestFirst(was)) && RepairedUpTo(env, was, was, place, 0)
  {
    SortPermutes(AgeKey, was);
    SortedHasDistinctIds(was);
    place := FindPlaces(was, |was|);
  }

  /** The rows whose place is below i carry their new link; the others are untouched. */
  ghost predicate RepairedUpTo(env: Env, was: seq<Txn>, now: seq<Txn>, place: seq<nat>, i: nat) {
    && Places(was, OldestFirst(was), place)
    && |now| == |was|
    && forall j :: 0 <= j < |was| ==>
         now[j] == if place[j] < i then RebuiltRow(env, OldestFirst(was), place[j]) else was[j]
  }

  lemma AllRepaired(env: Env, was: seq<Txn>, now: seq<Txn>, place: seq<nat>)
    requires DistinctIds(was) && RepairedUpTo(env, was, now, place, |was|)
    ensures Repaired(env, was, now)
    ensures Chained(now) == Rebuilt(env, OldestFirst(was), |was|)
    ensures Report(env, now) == ChainReport(true, |was|, [])
    ensures forall j :: 0 <= j < |was| ==> Data(now[j]) == Data(was[j])
    ensures forall j, k :: 0 <= j < |was| && 0 <= k < |was| ==> NumberedByAge(was, now, j, k)
  {
    forall j | 0 <= j < |was|
      ensures RepairedAt(env, was, now, j)
    {
      assert OldestFirst(was)[place[j]] == was[j];
    }
    RepairedIsRebuilt(env, was, now);
    RepairedByAge(env, was, now);
  }

  function Relinked(env: Env, rows: seq<Txn>, i: nat, t: Txn): Txn
    requires i < |rows|
  {
    t.(chainSeq := Some(i + 1), prevHash := Some(RebuiltPrev(env, rows, i)),
       chainHash := Some(RebuiltPrev(env, rows, i + 1)))
  }

  /** Updating the row with the id of snapshot row i repairs exactly the row at place i. */
  lemma OneMoreRepaired(env: Env, was: seq<Txn>, before: seq<Txn>, now: seq<Txn>, place: seq<nat>, i: nat)
    requires RepairedUpTo(env, was, before, place, i) && DistinctIds(OldestFirst(was)) && i < |was|
    requires |now| == |was| && forall j :: 0 <= j < |was| ==>
      now[j] == if before[j].id == OldestFirst(was)[i].id
                then Relinked(env, OldestFirst(was), i, before[j]) else before[j]
    ensures RepairedUpTo(env, was, now, place, i + 1)
  {
    forall j | 0 <= j < |was|
      ensures now[j] == if place[j] < i + 1 then RebuiltRow(env, OldestFirst(was), place[j]) else was[j]
    {
      assert OldestFirst(was)[place[j]] == was[j] && before[j].id == was[j].id;
    }
  }

  /** n distinct integers between 1 and n, in increasing order, are 1..n. */
  lemma {:induction false} PinnedFrom(s: seq<Txn>, i: nat)
    requires Increasing(SeqKey, s) && i < |s|
    requires forall j :: 0 <= j < |s| ==> 1 <= SeqKey(s[j]) <= |s|
    ensures SeqKey(s[i]) >= i + 1
  {
    if i > 0 {
      PinnedFrom(s, i - 1);
    }
  }

  lemma {:induction false} PinnedTo(s: seq<Txn>, i: nat)
    requires Increasing(SeqKey, s) && i < |s|
    requires forall j :: 0 <= j < |s| ==> 1 <= SeqKey(s[j]) <= |s|
    ensures SeqKey(s[i]) <= i + 1
    decreases |s| - i
  {
    if i + 1 < |s| {
      PinnedTo(s, i + 1);
    }
  }

  /** The row is the link that its chain_seq says it is. */
  predicate AtItsNumber(env: Env, rows: seq<Txn>, t: Txn) {
    t.chainSeq.Some? && 1 <= SeqKey(t) <= |rows| && t == RebuiltRow(env, rows, SeqKey(t) - 1)
  }

  /** Whatever order a sort by age is, the numbers of a repaired table follow (created_at, id). */
  lemma RepairedByAge(env: Env, was: seq<Txn>, now: seq<Txn>)
    requires DistinctIds(was) && Repaired(env, was, now)
    ensures forall j, k :: 0 <= j < |was| && 0 <= k < |was| ==> NumberedByAge(was, now, j, k)
    ensures forall j :: 0 <= j < |was| ==> now[j].chainSeq.Some? && 1 <= now[j].chainSeq.value <= |was|
  {
    var rows := OldestFirst(was);
    DistinctIdsDistinctAges(was);
    SortIncreasing(AgeKey, was);
    forall j, k | 0 <= j < |was| && 0 <= k < |was| && Older(was[j], was[k])
      ensures NumberedByAge(was, now, j, k)
    {
      var p := NumberOf(env, was, now, j);
      var q := NumberOf(env, was, now, k);
      assert AgeKey(rows[p]) < AgeKey(rows[q]);
    }
    forall j | 0 <= j < |was|
      ensures now[j].chainSeq.Some? && 1 <= now[j].chainSeq.value <= |was|
    {
      var p := NumberOf(env, was, now, j);
    }
  }

  lemma NumberOf(env: Env, was: seq<Txn>, now: seq<Txn>, j: nat) returns (p: nat)
    requires Repaired(env, was, now) && j < |was|
    ensures p < |OldestFirst(was)| && OldestFirst(was)[p] == was[j] && now[j].chainSeq == Some(p + 1)
  {
    assert RepairedAt(env, was, now, j);
    p :| 0 <= p < |OldestFirst(was)| && OldestFirst(was)[p] == was[j] &&
         now[j] == RebuiltRow(env, OldestFirst(was), p);
  }

  lemma RepairedKeys(env: Env, was: seq<Txn>, now: seq<Txn>)
    requires DistinctIds(was) && Repaired(env, was, now)
    ensures DistinctKeys(SeqKey, now)
    ensures forall t :: t in now ==> AtItsNumber(env, OldestFirst(was), t)
  {
    var rows := OldestFirst(was);
    forall j | 0 <= j < |now|
      ensures AtItsNumber(env, rows, now[j]) && rows[SeqKey(now[j]) - 1] == was[j]
    {
      assert RepairedAt(env, was, now, j);
      var p :| 0 <= p < |rows| && rows[p] == was[j] && now[j] == RebuiltRow(env, rows, p);
    }
    forall j, k | 0 <= j < k < |now|
      ensures SeqKey(now[j]) != SeqKey(now[k])
    {
      assert rows[SeqKey(now[j]) - 1] == was[j] && rows[SeqKey(now[k]) - 1] == was[k];
    }
  }

  lemma RepairedOrder(env: Env, was: seq<Txn>, now: seq<Txn>)
    requires DistinctIds(was) && Repaired(env, was, now)
    ensures |Chained(now)| == |was| && Increasing(SeqKey, Chained(now))
    ensures forall t :: t in Chained(now) ==> AtItsNumber(env, OldestFirst(was), t)
  {
    RepairedKeys(env, was, now);
    AllInChain(now);
    SortPermutes(SeqKey, now);
    SortIncreasing(SeqKey, now);
    forall t | t in Chained(now)
      ensures AtItsNumber(env, OldestFirst(was), t)
    {
      Rearranged(Chained(now), now, t);
    }
  }

  lemma RepairedChain(env: Env, was: seq<Txn>, now: seq<Txn>)
    requires DistinctIds(was) && Repaired(env, was, now)
    ensures Chained(now) == Rebuilt(env, OldestFirst(was), |was|)
  {
    RepairedOrder(env, was, now);
    OrderedIsRebuilt(env, OldestFirst(was), Chained(now));
  }

  lemma OrderedIsRebuilt(env: Env, rows: seq<Txn>, chain: seq<Txn>)
    requires |chain| == |rows| && Increasing(SeqKey, chain)
    requires forall t :: t in chain ==> AtItsNumber(env, rows, t)
    ensures chain == Rebuilt(env, rows, |rows|)
  {
    assert forall j :: 0 <= j < |chain| ==> AtItsNumber(env, rows, chain[j]);
    forall i | 0 <= i < |chain|
      ensures chain[i] == RebuiltRow(env, rows, i)
    {
      PinnedFrom(chain, i);
      PinnedTo(chain, i);
    }
  }

  /** The repaired table, read in chain order, is the rebuilt chain, and the verifier accepts it. */
  lemma RepairedIsRebuilt(env: Env, was: seq<Txn>, now: seq<Txn>)
    requires DistinctIds(was) && Repaired(env, was, now)
    ensures Chained(now) == Rebuilt(env, OldestFirst(was), |was|)
    ensures Report(env, now) == ChainReport(true, |was|, [])
    ensures forall j :: 0 <= j < |was| ==> Data(now[j]) == Data(was[j])
  {
    RepairedChain(env, was, now);
    RebuiltIsLinear(env, OldestFirst(was));
    BreaksMeasureLinked(env, Chained(now));
    forall j | 0 <= j < |was|
      ensures Data(now[j]) == Data(was[j])
    {
      assert RepairedAt(env, was, now, j);
    }
  }

  /** The rebuilt chain is the same for every physical order of the same rows. */
  lemma RepairIgnoresRowOrder(env: Env, a: seq<Txn>, b: seq<Txn>, nowA: seq<Txn>, nowB: seq<Txn>)
    requires DistinctIds(a) && DistinctIds(b) && multiset(a) == multiset(b)
    requires Repaired(env, a, nowA) && Repaired(env, b, nowB)
    ensures Chained(nowA) == Chained(nowB)
  {
    RepairedIsRebuilt(env, a, nowA);
    RepairedIsRebuilt(env, b, nowB);
    DistinctIdsDistinctAges(a);
    DistinctIdsDistinctAges(b);
    SortIgnoresOrder(AgeKey, a, b);
    assert |a| == |multiset(a)| == |b|;
  }

  // ----- Appending to a table in any physical order -----

  lemma {:induction false} TipIsGreatest(txns: seq<Txn>)
    ensures Tip(txns).None? <==> forall t :: t in txns ==> t.chainSeq.None?
    ensures Tip(txns).Some? ==>
      && Tip(txns).value in txns
      && Tip(txns).value.chainSeq.Some?
      && forall t :: t in txns && t.chainSeq.Some? ==> SeqKey(t) <= SeqKey(Tip(txns).value)
  {
    if txns != [] {
      var before := txns[..|txns| - 1];
      TipIsGreatest(before);
      assert txns == before + [txns[|txns| - 1]];
    }
  }

  /** A row with the greatest chain_seq. */
  ghost predicate Greatest(txns: seq<Txn>, p: Txn) {
    p in txns && p.chainSeq.Some? && forall q :: q in txns && q.chainSeq.Some? ==> q.chainSeq.value <= p.chainSeq.value
  }

  lemma TipExactly(txns: seq<Txn>)
    ensures Tip(txns).None? <==> forall p :: p in txns ==> p.chainSeq.None?
    ensures Tip(txns).Some? ==> Greatest(txns, Tip(txns).value)
  {
    TipIsGreatest(txns);
    if Tip(txns).Some? {
      forall q | q in txns && q.chainSeq.Some?
        ensures q.chainSeq.value <= Tip(txns).value.chainSeq.value
      {
        assert SeqKey(q) <= SeqKey(Tip(txns).value);
      }
    }
  }

  /** On any table, intact or not, the new row follows the greatest number given so far and names that row's hash; it
      is the first of the chain when no row has a number. Its own hash is the digest of its fields; nothing else
      changes. */
  lemma LinkExactly(env: Env, seen: seq<Txn>, t: Txn, cents: int)
    ensures
      var linked := Link(env, seen, t, cents);
      && linked == t.(chainSeq := linked.chainSeq, prevHash := linked.prevHash, chainHash := linked.chainHash)
      && linked.chainHash ==
         Some(env.link(Fields(t.id, t.key, t.kind, cents, t.requestHash, linked.prevHash.Or("None"))))
      && if forall p :: p in seen ==> p.chainSeq.None?
         then linked.chainSeq == Some(1) && linked.prevHash == Some(GENESIS_HASH)
         else exists p ::
           Greatest(seen, p) && linked.chainSeq == Some(p.chainSeq.value + 1) && linked.prevHash == p.chainHash
  {
    hide Tip, Greatest;
    TipExactly(seen);
    if Tip(seen).Some? {
      GreatestIsNumbered(seen, Tip(seen).value);
    }
  }

  lemma GreatestIsNumbered(txns: seq<Txn>, p: Txn)
    requires Greatest(txns, p)
    ensures p.chainSeq.Some?
  {
  }

  lemma ChainedMembers(table: seq<Txn>)
    requires forall t :: t in table ==> t.chainSeq.Some?
    ensures |Chained(table)| == |table| && multiset(Chained(table)) == multiset(table)
  {
    AllInChain(table);
    SortPermutes(SeqKey, table);
  }

  /** The tip found by ORDER BY chain_seq DESC LIMIT 1 is the end of the chain, in any physical order. */
  lemma TipOfTable(env: Env, table: seq<Txn>)
    requires (forall t :: t in table ==> t.chainSeq.Some?) && Linear(env, Chained(table))
    ensures Tip(table) == Tip(Chained(table))
  {
    var chain := Chained(table);
    ChainedMembers(table);
    TipOfLinear(env, chain);
    TipIsGreatest(table);
    if table != [] {
      var last := chain[|chain| - 1];
      assert table[0] in table && last in chain;
      Rearranged(chain, table, last);
      Rearranged(table, chain, Tip(table).value);
      assert SeqKey(last) == |chain|;
    }
  }

  /** On a table whose chain is intact, appending through link_transaction keeps it so, one row longer. */
  lemma AppendKeepsLinear(env: Env, table: seq<Txn>, t: Txn)
    requires (forall r :: r in table ==> r.chainSeq.Some?) && Linear(env, Chained(table))
    ensures var more := table + [Link(env, table, t, t.cents)];
            && (forall r :: r in more ==> r.chainSeq.Some?)
            && Linear(env, Chained(more))
            && Report(env, more) == ChainReport(true, |table| + 1, [])
  {
    var chain, linked := Chained(table), Link(env, table, t, t.cents);
    var more := table + [linked];
    TipOfTable(env, table);
    assert linked == Link(env, chain, t, t.cents);
    LinkKeepsLinear(env, chain, t);
    ChainedMembers(table);
    LinearIsOrdered(env, chain + [linked]);
    forall r | r in more
      ensures r.chainSeq.Some?
    {
    }
    assert multiset(more) == multiset(chain + [linked]);
    AllInChain(more);
    LongerChain(table, linked);
    BreaksMeasureLinked(env, Chained(more));
  }

  /** The table after link_transaction has appended the given rows, one by one. */
  function Appended(env: Env, table: seq<Txn>, more: seq<Txn>): seq<Txn> {
    if more == [] then table
    else
      var before, t := Appended(env, table, more[..|more| - 1]), more[|more| - 1];
      before + [Link(env, before, t, t.cents)]
  }

  lemma RepairedIsLinear(env: Env, was: seq<Txn>, now: seq<Txn>)
    requires DistinctIds(was) && Repaired(env, was, now)
    ensures (forall r :: r in now ==> r.chainSeq.Some?) && Linear(env, Chained(now))
  {
    RepairedKeys(env, was, now);
    RepairedIsRebuilt(env, was, now);
    RebuiltIsLinear(env, OldestFirst(was));
  }

  lemma {:induction false} AppendsKeepLinear(env: Env, table: seq<Txn>, more: seq<Txn>)
    requires (forall r :: r in table ==> r.chainSeq.Some?) && Linear(env, Chained(table))
    ensures |Appended(env, table, more)| == |table| + |more|
    ensures forall r :: r in Appended(env, table, more) ==> r.chainSeq.Some?
    ensures Linear(env, Chained(Appended(env, table, more)))
    ensures more != [] ==> Report(env, Appended(env, table, more)) == ChainReport(true, |table| + |more|, [])
  {
    if more != [] {
      var front := more[..|more| - 1];
      AppendsKeepLinear(env, table, front);
      AppendKeepsLinear(env, Appended(env, table, front), more[|more| - 1]);
    }
  }

  /** After the repair the verifier passes, and goes on passing after any number of appends, at the right length. */
  lemma AppendsAfterRepair(env: Env, was: seq<Txn>, now: seq<Txn>, more: seq<Txn>)
    requires DistinctIds(was) && Repaired(env, was, now)
    ensures Report(env, Appended(env, now, more)) == ChainReport(true, |was| + |more|, [])
  {
    RepairedIsLinear(env, was, now);
    AppendsKeepLinear(env, now, more);
    if more == [] {
      RepairedIsRebuilt(env, was, now);
    }
  }

  lemma LongerChain(table: seq<Txn>, linked: Txn)
    requires forall r :: r in table + [linked] ==> r.chainSeq.Some?
    requires Increasing(SeqKey, Chained(table) + [linked])
    ensures Chained(table + [linked]) == Chained(table) + [linked]
  {
    var chain, more := Chained(table), table + [linked];
    assert forall r :: r in table ==> r in more;
    ChainedMembers(table);
    ChainedMembers(more);
    AllInChain(more);
    PermutedKeys(SeqKey, chain + [linked], more);
    SortIncreasing(SeqKey, more);
    IncreasingUnique(SeqKey, Chained(more), chain + [linked]);
  }
}
