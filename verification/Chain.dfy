/** The tamper-evident hash chain: linking, verifying, and what a passing verification proves. */
module Chain {
  import opened Values
  import opened Text
  import opened Sorting

  // ----- Linking -----

  function HashedFields(t: Txn, cents: int, prev: Option<string>): Fields {
    Fields(t.id, t.key, t.kind, cents, t.requestHash, prev.Or("None"))
  }

  function ChainHash(env: Env, t: Txn, cents: int, prev: Option<string>): Digest {
    env.link(HashedFields(t, cents, prev))
  }

  /** The visible row with the greatest chain_seq; rows not yet linked do not count. */
  function Tip(txns: seq<Txn>): Option<Txn> {
    if txns == [] then None
    else
      var last, before := txns[|txns| - 1], Tip(txns[..|txns| - 1]);
      if last.chainSeq.Some? &&
         (before.Some? && before.value.chainSeq.Some? ==> before.value.chainSeq.value < last.chainSeq.value)
      then Some(last) else before
  }

  function LinkAfter(env: Env, t: Txn, cents: int, chainSeq: int, prev: Option<string>): Txn {
    t.(chainSeq := Some(chainSeq), prevHash := prev, chainHash := Some(ChainHash(env, t, cents, prev)))
  }

  /** Links t to the tip of the rows seen; cents is the quantised amount of the request. */
  function Link(env: Env, seen: seq<Txn>, t: Txn, cents: int): Txn {
    match Tip(seen)
    case Some(p) => LinkAfter(env, t, cents, p.chainSeq.Or(0) + 1, p.chainHash)
    case None => LinkAfter(env, t, cents, 1, Some(GENESIS_HASH))
  }

  // ----- Verifying -----

  datatype Break =
    | PrevMismatch(id: Uuid, expected: Option<string>, actual: Option<string>)
    | HashMismatch(id: Uuid, stored: Option<string>, recomputed: Digest)

  datatype ChainReport = ChainReport(pass: bool, length: nat, broken: seq<Break>)

  function SeqKey(t: Txn): int {
    t.chainSeq.Or(0)
  }

  function InChain(txns: seq<Txn>): seq<Txn> {
    if txns == [] then []
    else
      var rest := InChain(txns[..|txns| - 1]);
      if txns[|txns| - 1].chainSeq.Some? then rest + [txns[|txns| - 1]] else rest
  }

  ghost predicate DistinctIds(table: seq<Txn>) {
    forall i, j :: 0 <= i < j < |table| ==> table[i].id != table[j].id
  }

  /** The rows the verifier walks: chained ones, by ascending chain_seq. */
  function Chained(table: seq<Txn>): seq<Txn> {
    SortBy(SeqKey, InChain(table))
  }

  function ExpectedPrev(rows: seq<Txn>, i: nat): Option<string>
    requires i <= |rows|
  {
    if i == 0 then Some(GENESIS_HASH) else rows[i - 1].chainHash
  }

  function RowBreaks(env: Env, t: Txn, expected: Option<string>): seq<Break> {
    var recomputed := ChainHash(env, t, t.cents, t.prevHash);
    (if t.prevHash != expected then [PrevMismatch(t.id, expected, t.prevHash)] else []) +
    (if Some(recomputed) != t.chainHash then [HashMismatch(t.id, t.chainHash, recomputed)] else [])
  }

  /** The breaks reported for the first n rows. */
  function Breaks(env: Env, rows: seq<Txn>, n: nat): seq<Break>
    requires n <= |rows|
  {
    if n == 0 then [] else Breaks(env, rows, n - 1) + RowBreaks(env, rows[n - 1], ExpectedPrev(rows, n - 1))
  }

  predicate LinkedAt(env: Env, rows: seq<Txn>, i: nat)
    requires i < |rows|
  {
    && rows[i].prevHash == ExpectedPrev(rows, i)
    && rows[i].chainHash == Some(ChainHash(env, rows[i], rows[i].cents, rows[i].prevHash))
  }

  /** What an intact chain is, independently of the verifier. */
  ghost predicate Linked(env: Env, rows: seq<Txn>) {
    forall i :: 0 <= i < |rows| ==> LinkedAt(env, rows, i)
  }

  lemma {:induction false} NoBreaks(env: Env, rows: seq<Txn>, n: nat)
    requires n <= |rows|
    ensures Breaks(env, rows, n) == [] <==> forall i :: 0 <= i < n ==> LinkedAt(env, rows, i)
  {
    if n > 0 {
      NoBreaks(env, rows, n - 1);
      assert RowBreaks(env, rows[n - 1], ExpectedPrev(rows, n - 1)) == [] <==> LinkedAt(env, rows, n - 1);
    }
  }

  lemma BreaksMeasureLinked(env: Env, rows: seq<Txn>)
    ensures Breaks(env, rows, |rows|) == [] <==> Linked(env, rows)
  {
    NoBreaks(env, rows, |rows|);
  }

  function ReportRows(env: Env, rows: seq<Txn>): ChainReport {
    ChainReport(Breaks(env, rows, |rows|) == [], |rows|, Breaks(env, rows, |rows|))
  }

  function Report(env: Env, table: seq<Txn>): ChainReport {
    ReportRows(env, Chained(table))
  }

  /** verify_hash_chain: one pass over the ordered rows, carrying the hash the next row must name. */
  method VerifyHashChain(env: Env, table: seq<Txn>) returns (report: ChainReport)
    ensures report == Report(env, table)
    ensures report.pass <==> Linked(env, Chained(table))
  {
    var rows := Chained(table);
    BreaksMeasureLinked(env, rows);
    if rows == [] {
      return ChainReport(true, 0, []);
    }
    var broken := [];
    var expectedPrev := Some(GENESIS_HASH);
    for i := 0 to |rows|
      invariant expectedPrev == ExpectedPrev(rows, i)
      invariant broken == Breaks(env, rows, i)
    {
      var before := broken;
      if rows[i].prevHash != expectedPrev {
        broken := broken + [PrevMismatch(rows[i].id, expectedPrev, rows[i].prevHash)];
      }
      var recomputed := ChainHash(env, rows[i], rows[i].cents, rows[i].prevHash);
      if Some(recomputed) != rows[i].chainHash {
        broken := broken + [HashMismatch(rows[i].id, rows[i].chainHash, recomputed)];
      }
      assert broken == before + RowBreaks(env, rows[i], expectedPrev);
      expectedPrev := rows[i].chainHash;
    }
    return ChainReport(broken == [], |rows|, broken);
  }

  // ----- The chain of a table written by link_transaction alone -----

  /** chain_seq is 1..n in commit order and the links are intact. */
  ghost predicate Linear(env: Env, txns: seq<Txn>) {
    && (forall i :: 0 <= i < |txns| ==> txns[i].chainSeq == Some(i + 1))
    && Linked(env, txns)
  }

  lemma {:induction false} AllInChain(txns: seq<Txn>)
    requires forall t :: t in txns ==> t.chainSeq.Some?
    ensures InChain(txns) == txns
  {
    if txns != [] {
      AllInChain(txns[..|txns| - 1]);
    }
  }

  lemma ChainedIsTable(rows: seq<Txn>)
    requires forall t :: t in rows ==> t.chainSeq.Some?
    requires Increasing(SeqKey, rows)
    ensures Chained(rows) == rows
  {
    AllInChain(rows);
    SortFixed(SeqKey, rows);
  }

  lemma LinearIsOrdered(env: Env, txns: seq<Txn>)
    requires Linear(env, txns)
    ensures (forall t :: t in txns ==> t.chainSeq.Some?) && Increasing(SeqKey, txns)
  {
  }

  lemma LinearPasses(env: Env, txns: seq<Txn>)
    requires Linear(env, txns)
    ensures Report(env, txns) == ChainReport(true, |txns|, [])
  {
    LinearIsOrdered(env, txns);
    ChainedIsTable(txns);
    BreaksMeasureLinked(env, txns);
  }

  /** Every prefix of an intact chain passes too: a removed tail is not reported. */
  lemma TruncationPasses(env: Env, txns: seq<Txn>, n: nat)
    requires Linear(env, txns) && n <= |txns|
    ensures Report(env, txns[..n]) == ChainReport(true, n, [])
  {
    forall i | 0 <= i < n
      ensures LinkedAt(env, txns[..n], i)
    {
      assert LinkedAt(env, txns, i);
    }
    LinearPasses(env, txns[..n]);
  }

  lemma {:induction false} TipOfLinear(env: Env, txns: seq<Txn>)
    requires Linear(env, txns)
    ensures Tip(txns) == if txns == [] then None else Some(txns[|txns| - 1])
  {
    if txns != [] {
      var before := txns[..|txns| - 1];
      forall i | 0 <= i < |before|
        ensures LinkedAt(env, before, i)
      {
        assert LinkedAt(env, txns, i);
      }
      TipOfLinear(env, before);
    }
  }

  /** The tip does not see the writer's own row, which has no chain_seq yet. */
  lemma TipIgnoresUnlinked(txns: seq<Txn>, own: Txn)
    requires own.chainSeq == None
    ensures Tip(txns + [own]) == Tip(txns)
  {
    assert (txns + [own])[..|txns|] == txns;
  }

  lemma LinkIgnoresUnlinked(env: Env, txns: seq<Txn>, own: Txn, t: Txn, cents: int)
    requires own.chainSeq == None
    ensures Link(env, txns + [own], t, cents) == Link(env, txns, t, cents)
  {
    TipIgnoresUnlinked(txns, own);
  }

  /** Appending through link_transaction keeps the chain linear, when the hashed cents are the stored cents. */
  lemma LinkKeepsLinear(env: Env, txns: seq<Txn>, t: Txn)
    requires Linear(env, txns)
    ensures Linear(env, txns + [Link(env, txns, t, t.cents)])
  {
    TipOfLinear(env, txns);
    var linked := Link(env, txns, t, t.cents);
    var more := txns + [linked];
    forall i | 0 <= i < |more|
      ensures LinkedAt(env, more, i)
    {
      if i < |txns| {
        assert LinkedAt(env, txns, i);
      } else if i > 0 {
        assert LinkedAt(env, txns, i - 1);
      }
    }
  }

  // ----- Tamper evidence -----

  /** The request hash really is a digest; the columns of any other row only bound its length. */
  predicate Honest(t: Txn) {
    |t.requestHash| == 64 && '|' !in t.requestHash
  }

  predicate FitsColumns(t: Txn) {
    |t.requestHash| <= 64 && |t.prevHash.Or("None")| <= 64
  }

  function RowFields(t: Txn): Fields {
    HashedFields(t, t.cents, t.prevHash)
  }

  /** Two different links with one digest. */
  ghost predicate Collision(env: Env, a: Txn, b: Txn) {
    RowFields(a) != RowFields(b) && env.link(RowFields(a)) == env.link(RowFields(b))
  }

  predicate SameLink(a: Txn, b: Txn) {
    RowFields(a) == RowFields(b) && a.prevHash == b.prevHash && a.chainHash == b.chainHash
  }

  lemma LinkedPrevIsDigest(env: Env, rows: seq<Txn>, i: nat)
    requires Linked(env, rows) && i < |rows|
    ensures rows[i].prevHash.Some? && |rows[i].prevHash.value| == 64 && '|' !in rows[i].prevHash.value
  {
    assert LinkedAt(env, rows, i);
    if i > 0 {
      assert LinkedAt(env, rows, i - 1);
    }
  }

  /** Equal digests give equal rows and equal digests before them, or a collision. */
  lemma SameDigestSameLink(env: Env, a: seq<Txn>, i: nat, b: seq<Txn>, j: nat)
    requires Linked(env, a) && Linked(env, b)
    requires i < |a| && j < |b| && a[i].chainHash == b[j].chainHash
    ensures Collision(env, a[i], b[j]) || (SameLink(a[i], b[j]) && ExpectedPrev(a, i) == ExpectedPrev(b, j))
  {
    LinkedPrevIsDigest(env, a, i);
    LinkedPrevIsDigest(env, b, j);
    assert LinkedAt(env, a, i) && LinkedAt(env, b, j);
  }

  ghost predicate SameUpTo(a: seq<Txn>, b: seq<Txn>, n: nat) {
    n <= |a| && n <= |b| && forall i :: 0 <= i < n ==> SameLink(a[i], b[i])
  }

  ghost predicate SomeCollide(env: Env, a: seq<Txn>, b: seq<Txn>) {
    exists i, j :: CollideAt(env, a, i, b, j)
  }

  ghost predicate CollideAt(env: Env, a: seq<Txn>, i: int, b: seq<Txn>, j: int) {
    0 <= i < |a| && 0 <= j < |b| && Collision(env, a[i], b[j])
  }

  /** Some row's digest is the value that stands before the first row. */
  ghost predicate SomeGenesis(env: Env, rows: seq<Txn>) {
    exists i :: GenesisAt(env, rows, i)
  }

  predicate GenesisAt(env: Env, rows: seq<Txn>, i: int) {
    0 <= i < |rows| && env.link(RowFields(rows[i])) == GENESIS_HASH
  }

  /** Two chains that meet in one digest are the same from there back to the start. */
  lemma {:induction false} TamperEvidenceUpTo(env: Env, a: seq<Txn>, n: nat, b: seq<Txn>, m: nat)
    requires Linked(env, a) && Linked(env, b)
    requires 0 < n <= |a| && 0 < m <= |b| && a[n - 1].chainHash == b[m - 1].chainHash
    ensures (n == m && SameUpTo(a, b, n)) || SomeCollide(env, a, b) || SomeGenesis(env, a) || SomeGenesis(env, b)
  {
    SameDigestSameLink(env, a, n - 1, b, m - 1);
    if Collision(env, a[n - 1], b[m - 1]) {
      assert CollideAt(env, a, n - 1, b, m - 1);
    } else if n > 1 && m > 1 {
      TamperEvidenceUpTo(env, a, n - 1, b, m - 1);
      if n == m && SameUpTo(a, b, n - 1) {
        SameOneMore(a, b, n - 1);
      }
    } else if n > 1 {
      GenesisInside(env, a, n - 1);
    } else if m > 1 {
      GenesisInside(env, b, m - 1);
    } else {
      SameOneMore(a, b, 0);
    }
  }

  lemma SameOneMore(a: seq<Txn>, b: seq<Txn>, n: nat)
    requires SameUpTo(a, b, n) && n < |a| && n < |b| && SameLink(a[n], b[n])
    ensures SameUpTo(a, b, n + 1)
  {
  }

  lemma GenesisInside(env: Env, rows: seq<Txn>, i: nat)
    requires Linked(env, rows) && 0 < i < |rows| && ExpectedPrev(rows, i) == Some(GENESIS_HASH)
    ensures SomeGenesis(env, rows)
  {
    assert LinkedAt(env, rows, i - 1) && GenesisAt(env, rows, i - 1);
  }

  /** Two different texts with one digest. */
  ghost predicate ShaCollision(sha: string -> Digest, a: string, b: string) {
    a != b && sha(a) == sha(b)
  }

  /** A collision between an honest chained row and a row that fits its columns is a collision of SHA-256 itself. */
  lemma CollisionIsSha(sha: string -> Digest, json: Canonical -> string, a: Txn, b: Txn)
    requires Collision(Sha256(sha, json), a, b)
    requires Honest(a) && |a.prevHash.Or("")| == 64 && '|' !in a.prevHash.Or("") && FitsColumns(b)
    ensures ShaCollision(sha, Payload(RowFields(a)), Payload(RowFields(b)))
  {
    if Payload(RowFields(a)) == Payload(RowFields(b)) {
      PayloadInjective(RowFields(a), RowFields(b));
    }
  }

  ghost predicate SomeShaCollide(sha: string -> Digest, a: seq<Txn>, b: seq<Txn>) {
    exists i, j :: 0 <= i < |a| && 0 <= j < |b| && ShaCollision(sha, Payload(RowFields(a[i])), Payload(RowFields(b[j])))
  }

  ghost predicate SomeShaGenesis(sha: string -> Digest, rows: seq<Txn>) {
    exists i :: 0 <= i < |rows| && sha(Payload(RowFields(rows[i]))) == GENESIS_HASH
  }

  /** What two chains ending in one digest leave open. */
  ghost predicate SameOrBroken(sha: string -> Digest, a: seq<Txn>, b: seq<Txn>) {
    || (|a| == |b| && SameUpTo(a, b, |a|))
    || SomeShaCollide(sha, a, b)
    || SomeShaGenesis(sha, a)
    || SomeShaGenesis(sha, b)
  }

  lemma TamperEvidenceRows(sha: string -> Digest, json: Canonical -> string, a: seq<Txn>, b: seq<Txn>)
    requires Linked(Sha256(sha, json), a) && Linked(Sha256(sha, json), b)
    requires a != [] && b != [] && a[|a| - 1].chainHash == b[|b| - 1].chainHash
    requires forall t :: t in a ==> Honest(t)
    requires forall t :: t in b ==> FitsColumns(t)
    ensures SameOrBroken(sha, a, b)
  {
    var env := Sha256(sha, json);
    TamperEvidenceUpTo(env, a, |a|, b, |b|);
    if SomeCollide(env, a, b) {
      var i, j :| CollideAt(env, a, i, b, j);
      LinkedPrevIsDigest(env, a, i);
      assert a[i] in a && b[j] in b;
      CollisionIsSha(sha, json, a[i], b[j]);
    } else if SomeGenesis(env, a) {
      var i :| GenesisAt(env, a, i);
      assert sha(Payload(RowFields(a[i]))) == GENESIS_HASH;
    } else if SomeGenesis(env, b) {
      var i :| GenesisAt(env, b, i);
      assert sha(Payload(RowFields(b[i]))) == GENESIS_HASH;
    }
  }

  /** An honest chain and any table that passes verification and ends in the same digest have the same length and agree
      on every hashed field of every row, or they exhibit two payloads with one SHA-256 digest, or a payload whose
      digest is 64 zeros. */
  lemma TamperEvidence(sha: string -> Digest, json: Canonical -> string, a: seq<Txn>, b: seq<Txn>)
    requires Report(Sha256(sha, json), a).pass && Report(Sha256(sha, json), b).pass
    requires Chained(a) != [] && Chained(b) != []
    requires forall t :: t in Chained(a) ==> Honest(t)
    requires forall t :: t in Chained(b) ==> FitsColumns(t)
    requires Chained(a)[|Chained(a)| - 1].chainHash == Chained(b)[|Chained(b)| - 1].chainHash
    ensures SameOrBroken(sha, Chained(a), Chained(b))
  {
    BreaksMeasureLinked(Sha256(sha, json), Chained(a));
    BreaksMeasureLinked(Sha256(sha, json), Chained(b));
    TamperEvidenceRows(sha, json, Chained(a), Chained(b));
  }

  lemma LinearTamperEvidence(sha: string -> Digest, json: Canonical -> string, txns: seq<Txn>, b: seq<Txn>)
    requires Linear(Sha256(sha, json), txns) && txns != [] && forall t :: t in txns ==> Honest(t)
    requires Report(Sha256(sha, json), b).pass && Chained(b) != [] && forall t :: t in Chained(b) ==> FitsColumns(t)
    requires txns[|txns| - 1].chainHash == Chained(b)[|Chained(b)| - 1].chainHash
    ensures SameOrBroken(sha, txns, Chained(b))
  {
    BreaksMeasureLinked(Sha256(sha, json), Chained(b));
    TamperEvidenceRows(sha, json, txns, Chained(b));
  }

  /** The row as the first of a chain. */
  function First(env: Env, t: Txn): Txn {
    LinkAfter(env, t, t.cents, 1, Some(GENESIS_HASH))
  }

  lemma FirstPasses(env: Env, t: Txn)
    ensures Report(env, [First(env, t)]) == ChainReport(true, 1, [])
  {
    assert LinkedAt(env, [First(env, t)], 0);
    LinearPasses(env, [First(env, t)]);
  }

  /** Honesty is needed: with a request hash that holds separators, two tables that fit their columns pass, end in the
      same digest and differ, and nothing collides. */
  lemma DishonestTwins(sha: string -> Digest, json: Canonical -> string, t: Txn, u: Txn)
    requires t.requestHash == Join(Join(TypeText(u.kind), AmountText(u.cents)), u.requestHash)
    requires u.id == t.id && u.key == Join(Join(t.key, TypeText(t.kind)), AmountText(t.cents))
    requires |t.requestHash| <= 64
    ensures FitsColumns(First(Sha256(sha, json), t)) && FitsColumns(First(Sha256(sha, json), u))
    ensures
      var env := Sha256(sha, json);
      && Report(env, [First(env, t)]).pass && Report(env, [First(env, u)]).pass
      && First(env, t).chainHash == First(env, u).chainHash
      && !SameLink(First(env, t), First(env, u))
      && !SomeShaCollide(sha, [First(env, t)], [First(env, u)])
  {
    var env := Sha256(sha, json);
    FirstPasses(env, t);
    FirstPasses(env, u);
    RequestHashAmbiguous(RowFields(First(env, t)), RowFields(First(env, u)));
  }

  // ----- Exact fault localisation -----

  /** The situation of the three lemmas below: one row of an intact, ordered chain was overwritten.
      Its digest does not collide with the old one (see CollisionIsSha for what a collision would mean). */
  ghost predicate Overwritten(env: Env, rows: seq<Txn>, i: nat, t: Txn) {
    && Linked(env, rows)
    && (forall r :: r in rows ==> r.chainSeq.Some?)
    && Increasing(SeqKey, rows)
    && i < |rows|
    && t.chainSeq == rows[i].chainSeq
    && !Collision(env, rows[i], t)
  }

  lemma OverwrittenStaysOrdered(env: Env, rows: seq<Txn>, i: nat, t: Txn)
    requires Overwritten(env, rows, i, t)
    ensures Chained(rows[i := t]) == rows[i := t]
  {
    var table := rows[i := t];
    forall r | r in table
      ensures r.chainSeq.Some?
    {
      assert rows[i] in rows;
      var j :| 0 <= j < |table| && table[j] == r;
      assert j != i ==> rows[j] in rows;
    }
    forall j, k | 0 <= j < k < |table|
      ensures SeqKey(table[j]) < SeqKey(table[k])
    {
      assert SeqKey(table[j]) == SeqKey(rows[j]) && SeqKey(table[k]) == SeqKey(rows[k]);
    }
    ChainedIsTable(table);
  }

  lemma IntactRow(env: Env, rows: seq<Txn>, k: nat)
    requires Linked(env, rows) && k < |rows|
    ensures RowBreaks(env, rows[k], ExpectedPrev(rows, k)) == []
    ensures ExpectedPrev(rows, k) == rows[k].prevHash
  {
    assert LinkedAt(env, rows, k);
  }

  /** What the verifier compares with at position k after the overwrite. */
  lemma RowAfterOverwrite(env: Env, rows: seq<Txn>, i: nat, t: Txn, k: nat)
    requires Linked(env, rows) && i < |rows| && k < |rows|
    ensures k != i && k != i + 1 ==> RowBreaks(env, rows[i := t][k], ExpectedPrev(rows[i := t], k)) == []
    ensures k == i ==> ExpectedPrev(rows[i := t], k) == rows[i].prevHash
    ensures k == i + 1 ==> ExpectedPrev(rows[i := t], k) == t.chainHash
  {
    IntactRow(env, rows, k);
  }

  lemma {:induction false} NoBreaksBefore(env: Env, rows: seq<Txn>, i: nat, t: Txn, n: nat)
    requires Linked(env, rows) && n <= i < |rows|
    ensures Breaks(env, rows[i := t], n) == []
  {
    if n > 0 {
      NoBreaksBefore(env, rows, i, t, n - 1);
      RowAfterOverwrite(env, rows, i, t, n - 1);
    }
  }

  function BreaksHereAndNext(env: Env, rows: seq<Txn>, i: nat, t: Txn): seq<Break>
    requires i < |rows|
  {
    if i + 1 < |rows| then RowBreaks(env, t, rows[i].prevHash) + RowBreaks(env, rows[i + 1], t.chainHash)
    else RowBreaks(env, t, rows[i].prevHash)
  }

  /** Only row i, and its successor's view of it, can differ from the intact chain. */
  lemma {:induction false} BreaksElsewhere(env: Env, rows: seq<Txn>, i: nat, t: Txn, n: nat)
    requires Linked(env, rows) && i < |rows|
    requires n <= |rows| && (n >= i + 2 || n == |rows|)
    ensures Breaks(env, rows[i := t], n) == BreaksHereAndNext(env, rows, i, t)
  {
    if n > i + 2 {
      RowAfterOverwrite(env, rows, i, t, n - 1);
      BreaksElsewhere(env, rows, i, t, n - 1);
    } else {
      BreaksUpToHere(env, rows, i, t);
      if n == i + 2 {
        RowAfterOverwrite(env, rows, i, t, i + 1);
      }
    }
  }

  lemma BreaksUpToHere(env: Env, rows: seq<Txn>, i: nat, t: Txn)
    requires Linked(env, rows) && i < |rows|
    ensures Breaks(env, rows[i := t], i + 1) == RowBreaks(env, t, rows[i].prevHash)
  {
    NoBreaksBefore(env, rows, i, t, i);
    RowAfterOverwrite(env, rows, i, t, i);
  }

  lemma OverwrittenReport(env: Env, rows: seq<Txn>, i: nat, t: Txn)
    requires Overwritten(env, rows, i, t)
    ensures Report(env, rows[i := t]).broken == BreaksHereAndNext(env, rows, i, t)
  {
    OverwrittenStaysOrdered(env, rows, i, t);
    BreaksElsewhere(env, rows, i, t, |rows|);
    LinkedPrevIsDigest(env, rows, i);
    if i + 1 < |rows| {
      IntactRow(env, rows, i + 1);
    }
  }

  /** Changing the id, key, type, amount or request hash of row i gives exactly one report: its hash is wrong. */
  lemma DataFault(env: Env, rows: seq<Txn>, i: nat, t: Txn)
    requires Overwritten(env, rows, i, t)
    requires t.prevHash == rows[i].prevHash && t.chainHash == rows[i].chainHash
    requires RowFields(t) != RowFields(rows[i])
    ensures Report(env, rows[i := t]).broken == [HashMismatch(t.id, rows[i].chainHash, env.link(RowFields(t)))]
  {
    OverwrittenReport(env, rows, i, t);
    IntactRow(env, rows, i);
    if i + 1 < |rows| {
      IntactRow(env, rows, i + 1);
    }
  }

  /** Changing only the chain hash of row i is reported at i and, if i has a successor, there too. */
  lemma ChainHashFault(env: Env, rows: seq<Txn>, i: nat, t: Txn)
    requires Overwritten(env, rows, i, t)
    requires t == rows[i].(chainHash := t.chainHash) && t.chainHash != rows[i].chainHash
    ensures Report(env, rows[i := t]).broken ==
            [HashMismatch(t.id, t.chainHash, env.link(RowFields(t)))] +
            (if i + 1 < |rows| then [PrevMismatch(rows[i + 1].id, t.chainHash, rows[i].chainHash)] else [])
  {
    OverwrittenReport(env, rows, i, t);
    IntactRow(env, rows, i);
    if i + 1 < |rows| {
      IntactRow(env, rows, i + 1);
    }
  }

  /** Changing only the previous hash of row i gives exactly two reports, both at i. */
  lemma PrevHashFault(env: Env, rows: seq<Txn>, i: nat, t: Txn)
    requires Overwritten(env, rows, i, t)
    requires t == rows[i].(prevHash := t.prevHash) && t.prevHash != rows[i].prevHash
    ensures Report(env, rows[i := t]).broken ==
            [PrevMismatch(t.id, rows[i].prevHash, t.prevHash),
             HashMismatch(t.id, t.chainHash, env.link(RowFields(t)))]
  {
    OverwrittenReport(env, rows, i, t);
    IntactRow(env, rows, i);
    LinkedPrevIsDigest(env, rows, i);
    assert t.prevHash.Or("None") != rows[i].prevHash.Or("None");
    if i + 1 < |rows| {
      IntactRow(env, rows, i + 1);
    }
  }
}
