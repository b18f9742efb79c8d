/** What the chain verifier reports on any table, however many rows were tampered with. */
module BrokenRows {
  import opened Values
  import opened Sorting
  import opened Chain

  // ----- The rows walked -----

  lemma {:induction false} InChainCounts(txns: seq<Txn>, t: Txn)
    ensures multiset(InChain(txns))[t] == if t.chainSeq.Some? then multiset(txns)[t] else 0
  {
    if txns != [] {
      InChainCounts(txns[..|txns| - 1], t);
      assert txns == txns[..|txns| - 1] + [txns[|txns| - 1]];
    }
  }

  predicate NumberedUpTo(t: Txn, u: Txn) {
    t.chainSeq.Some? && u.chainSeq.Some? && t.chainSeq.value <= u.chainSeq.value
  }

  /** The verifier walks every row that has a chain_seq as often as the table holds it, no other row, in ascending
      chain_seq. */
  lemma ChainedExactly(table: seq<Txn>)
    ensures forall t :: multiset(Chained(table))[t] == if t.chainSeq.Some? then multiset(table)[t] else 0
    ensures forall t :: t in Chained(table) ==> t.chainSeq.Some?
    ensures forall i, j :: 0 <= i < j < |Chained(table)| ==> NumberedUpTo(Chained(table)[i], Chained(table)[j])
  {
    SortPermutes(SeqKey, InChain(table));
    SortAscending(SeqKey, InChain(table));
    forall t
      ensures multiset(Chained(table))[t] == if t.chainSeq.Some? then multiset(table)[t] else 0
    {
      InChainCounts(table, t);
    }
    forall t | t in Chained(table)
      ensures t.chainSeq.Some?
    {
      assert multiset(Chained(table))[t] > 0;
    }
    var rows := Chained(table);
    forall i, j | 0 <= i < j < |rows|
      ensures NumberedUpTo(rows[i], rows[j])
    {
      assert SeqKey(rows[i]) <= SeqKey(rows[j]);
      assert rows[i] in rows && rows[j] in rows;
    }
  }

  function IdKey(t: Txn): int {
    t.id
  }

  lemma {:induction false} InChainDistinct(txns: seq<Txn>)
    requires DistinctIds(txns)
    ensures DistinctIds(InChain(txns)) && forall t :: t in InChain(txns) ==> t in txns
  {
    if txns != [] {
      var rest := InChain(txns[..|txns| - 1]);
      InChainDistinct(txns[..|txns| - 1]);
      forall i | 0 <= i < |rest|
        ensures rest[i].id != txns[|txns| - 1].id
      {
        assert rest[i] in txns[..|txns| - 1];
      }
    }
  }

  lemma ChainedDistinct(table: seq<Txn>)
    requires DistinctIds(table)
    ensures DistinctIds(Chained(table))
  {
    InChainDistinct(table);
    SortPermutes(SeqKey, InChain(table));
    assert DistinctKeys(IdKey, InChain(table));
    PermutedKeys(IdKey, InChain(table), Chained(table));
    var rows := Chained(table);
    forall i, j | 0 <= i < j < |rows|
      ensures rows[i].id != rows[j].id
    {
      assert IdKey(rows[i]) != IdKey(rows[j]);
    }
  }

  // ----- The breaks reported -----

  /** The digest of the row's own fields and its own prev_hash. */
  function OwnDigest(env: Env, t: Txn): Digest {
    env.link(Fields(t.id, t.key, t.kind, t.cents, t.requestHash, t.prevHash.Or("None")))
  }

  /** The chain_hash of the row before row i; the genesis hash before the first. */
  function HashBefore(rows: seq<Txn>, i: nat): Option<string>
    requires i < |rows|
  {
    if i > 0 then rows[i - 1].chainHash else Some(GENESIS_HASH)
  }

  /** The break is the fault that row i has. */
  predicate FaultAt(env: Env, rows: seq<Txn>, i: nat, b: Break)
    requires i < |rows|
  {
    match b
    case PrevMismatch(id, expected, actual) =>
      id == rows[i].id && actual == rows[i].prevHash && expected == HashBefore(rows, i) && actual != expected
    case HashMismatch(id, stored, recomputed) =>
      id == rows[i].id && stored == rows[i].chainHash && recomputed == OwnDigest(env, rows[i]) &&
      stored != Some(recomputed)
  }

  ghost predicate FaultUpTo(env: Env, rows: seq<Txn>, n: nat, b: Break)
    requires n <= |rows|
  {
    exists i :: 0 <= i < n && FaultAt(env, rows, i, b)
  }

  lemma GenesisIsZeros()
    ensures GENESIS_HASH == seq(64, _ => '0')
  {
    forall k | 0 <= k < 64
      ensures GENESIS_HASH[k] == '0'
    {
      assert GENESIS_HASH[k] in GENESIS_HASH;
    }
  }

  lemma RowBreaksAreFaults(env: Env, rows: seq<Txn>, i: nat, b: Break)
    requires i < |rows|
    ensures b in RowBreaks(env, rows[i], ExpectedPrev(rows, i)) <==> FaultAt(env, rows, i, b)
  {
  }

  lemma {:induction false} BreaksAreFaults(env: Env, rows: seq<Txn>, n: nat, b: Break)
    requires n <= |rows|
    ensures b in Breaks(env, rows, n) <==> FaultUpTo(env, rows, n, b)
  {
    if n > 0 {
      hide RowBreaks, FaultAt, ExpectedPrev;
      BreaksAreFaults(env, rows, n - 1, b);
      RowBreaksAreFaults(env, rows, n - 1, b);
    }
  }

  /** Of two breaks at rows i and j, the first is of an earlier row, or of the same one and about its prev_hash while
      the second is about its digest. */
  predicate InRowOrder(a: Break, i: nat, b: Break, j: nat) {
    i < j || (i == j && a.PrevMismatch? && b.HashMismatch?)
  }

  lemma {:induction false} BreaksInOrder(
      env: Env, rows: seq<Txn>, n: nat, x: nat, y: nat, i: nat, j: nat)
    requires DistinctIds(rows) && n <= |rows| && x < y < |Breaks(env, rows, n)| && i < |rows| && j < |rows|
    requires Breaks(env, rows, n)[x].id == rows[i].id && Breaks(env, rows, n)[y].id == rows[j].id
    ensures InRowOrder(Breaks(env, rows, n)[x], i, Breaks(env, rows, n)[y], j)
  {
    var before, here := Breaks(env, rows, n - 1), RowBreaks(env, rows[n - 1], ExpectedPrev(rows, n - 1));
    if y < |before| {
      BreaksInOrder(env, rows, n - 1, x, y, i, j);
    } else if x < |before| {
      BreaksAreFaults(env, rows, n - 1, before[x]);
      assert before[x] in before;
      var k :| 0 <= k < n - 1 && FaultAt(env, rows, k, before[x]);
      assert rows[k].id == rows[i].id && rows[n - 1].id == rows[j].id;
    }
  }

  /** On any table with distinct ids a row is reported for its digest exactly when it does not carry the digest of its
      own fields, and for its predecessor exactly when its prev_hash is not the chain_hash of the row before it. */
  lemma RowReported(env: Env, table: seq<Txn>, i: nat)
    requires DistinctIds(table) && i < |Chained(table)|
    ensures
      var rows, broken := Chained(table), Report(env, table).broken;
      && (HashMismatch(rows[i].id, rows[i].chainHash, OwnDigest(env, rows[i])) in broken <==>
          rows[i].chainHash != Some(OwnDigest(env, rows[i])))
      && (PrevMismatch(rows[i].id, HashBefore(rows, i), rows[i].prevHash) in broken <==>
          rows[i].prevHash != HashBefore(rows, i))
      && HashBefore(rows, 0) == Some(seq(64, _ => '0'))
  {
    hide Chained, Breaks;
    GenesisIsZeros();
    var rows := Chained(table);
    var wrongHash := HashMismatch(rows[i].id, rows[i].chainHash, OwnDigest(env, rows[i]));
    var wrongPrev := PrevMismatch(rows[i].id, HashBefore(rows, i), rows[i].prevHash);
    ChainedDistinct(table);
    BreaksAreFaults(env, rows, |rows|, wrongHash);
    BreaksAreFaults(env, rows, |rows|, wrongPrev);
    assert FaultAt(env, rows, i, wrongHash) <==> rows[i].chainHash != Some(OwnDigest(env, rows[i]));
    assert FaultAt(env, rows, i, wrongPrev) <==> rows[i].prevHash != HashBefore(rows, i);
  }

  /** Nothing else is reported, each fault once, in the order of the rows; the length is the number of chained rows,
      whether the table passes or fails. */
  lemma ReportIsExact(env: Env, table: seq<Txn>)
    requires DistinctIds(table)
    ensures Report(env, table).length == |Chained(table)|
    ensures Report(env, table).pass <==> Report(env, table).broken == []
    ensures forall b :: b in Report(env, table).broken <==> FaultUpTo(env, Chained(table), |Chained(table)|, b)
    ensures forall x, y, i, j ::
      0 <= x < y < |Report(env, table).broken| && 0 <= i < |Chained(table)| && 0 <= j < |Chained(table)| &&
      Report(env, table).broken[x].id == Chained(table)[i].id && Report(env, table).broken[y].id == Chained(table)[j].id
      ==>
        InRowOrder(Report(env, table).broken[x], i, Report(env, table).broken[y], j)
  {
    hide Breaks, FaultUpTo, InRowOrder;
    var rows, broken := Chained(table), Report(env, table).broken;
    ChainedDistinct(table);
    forall b
      ensures b in broken <==> FaultUpTo(env, rows, |rows|, b)
    {
      BreaksAreFaults(env, rows, |rows|, b);
    }
    forall x, y, i, j |
      0 <= x < y < |broken| && 0 <= i < |rows| && 0 <= j < |rows| &&
      broken[x].id == rows[i].id && broken[y].id == rows[j].id
      ensures InRowOrder(broken[x], i, broken[y], j)
    {
      BreaksInOrder(env, rows, |rows|, x, y, i, j);
    }
  }
}
