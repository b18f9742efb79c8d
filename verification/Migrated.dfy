/** From the migration to the running system: a ledger whose chain was rebuilt is a starting state of the concurrent
    theorems, whatever its chain columns held before. */
module Migrated {
  import opened Values
  import opened Sorting
  import opened Chain
  import opened Ledger
  import opened Invariant
  import opened Migration

  /** Everything the invariant asks of a ledger except its chain. */
  ghost predicate Consistent(db: Db) {
    && UniqueAccounts(db.accounts)
    && UniqueTxns(db.txns)
    && UniqueEntries(db.entries)
    && UniqueEvents(db.events)
    && Recorded(db)
    && (forall t :: t in db.txns ==> Honest(t))
    && Solvent(db)
  }

  lemma ConsistentAndLinear(env: Env, db: Db)
    ensures Inv(env, db) <==> Consistent(db) && Linear(env, db.txns)
  {
  }

  // ----- The tables in chain order -----

  /** One transaction with all that belongs to it. */
  datatype Bundle = Bundle(t: Txn, debit: Entry, credit: Entry, event: Event)

  function BundleAge(b: Bundle): int {
    AgeKey(b.t)
  }

  function Bundles(db: Db): seq<Bundle>
    requires 2 * |db.txns| == |db.entries| && |db.txns| == |db.events|
  {
    seq(|db.txns|, i requires 0 <= i < |db.txns| =>
      Bundle(db.txns[i], db.entries[2 * i], db.entries[2 * i + 1], db.events[i]))
  }

  function TxnsOf(bs: seq<Bundle>): seq<Txn> {
    seq(|bs|, i requires 0 <= i < |bs| => bs[i].t)
  }

  function EventsIn(bs: seq<Bundle>): seq<Event> {
    seq(|bs|, i requires 0 <= i < |bs| => bs[i].event)
  }

  function EntriesIn(bs: seq<Bundle>): seq<Entry> {
    if bs == [] then [] else [bs[0].debit, bs[0].credit] + EntriesIn(bs[1..])
  }

  function InAgeOrder(db: Db): seq<Bundle>
    requires 2 * |db.txns| == |db.entries| && |db.txns| == |db.events|
  {
    SortBy(BundleAge, Bundles(db))
  }

  /** The migrated ledger, its rows listed in chain order. */
  function InChainOrder(env: Env, db: Db): Db
    requires 2 * |db.txns| == |db.entries| && |db.txns| == |db.events|
  {
    var bs := InAgeOrder(db);
    Db(db.accounts, Rebuilt(env, TxnsOf(bs), |TxnsOf(bs)|), EntriesIn(bs), EventsIn(bs))
  }

  lemma {:induction false} EntriesInAt(bs: seq<Bundle>, i: nat)
    requires i < |bs|
    ensures |EntriesIn(bs)| == 2 * |bs|
    ensures EntriesIn(bs)[2 * i] == bs[i].debit && EntriesIn(bs)[2 * i + 1] == bs[i].credit
  {
    EntriesInLength(bs);
    if i > 0 {
      EntriesInAt(bs[1..], i - 1);
      assert EntriesIn(bs)[2 * i] == EntriesIn(bs[1..])[2 * (i - 1)];
      assert EntriesIn(bs)[2 * i + 1] == EntriesIn(bs[1..])[2 * (i - 1) + 1];
    }
  }

  lemma {:induction false} EntriesInLength(bs: seq<Bundle>)
    ensures |EntriesIn(bs)| == 2 * |bs|
  {
    if bs != [] {
      EntriesInLength(bs[1..]);
    }
  }

  lemma BundlesSplit(db: Db)
    requires 2 * |db.txns| == |db.entries| && |db.txns| == |db.events|
    ensures TxnsOf(Bundles(db)) == db.txns && EventsIn(Bundles(db)) == db.events && EntriesIn(Bundles(db)) == db.entries
  {
    EntriesInLength(Bundles(db));
    forall k | 0 <= k < |db.entries|
      ensures EntriesIn(Bundles(db))[k] == db.entries[k]
    {
      EntriesInAt(Bundles(db), k / 2);
      assert k == 2 * (k / 2) || k == 2 * (k / 2) + 1;
    }
  }

  // ----- Sorting bundles sorts each table -----

  lemma {:induction false} TxnsOfInsert(x: Bundle, s: seq<Bundle>)
    ensures TxnsOf(Insert(BundleAge, x, s)) == Insert(AgeKey, x.t, TxnsOf(s))
  {
    if s != [] && BundleAge(x) > BundleAge(s[0]) {
      TxnsOfInsert(x, s[1..]);
      assert TxnsOf(s)[1..] == TxnsOf(s[1..]);
    }
  }

  lemma {:induction false} TxnsOfSort(bs: seq<Bundle>)
    ensures TxnsOf(SortBy(BundleAge, bs)) == OldestFirst(TxnsOf(bs))
  {
    if bs != [] {
      TxnsOfSort(bs[1..]);
      TxnsOfInsert(bs[0], SortBy(BundleAge, bs[1..]));
      assert TxnsOf(bs)[1..] == TxnsOf(bs[1..]);
    }
  }

  function Pair(b: Bundle): multiset<Entry> {
    multiset{b.debit, b.credit}
  }

  lemma EntriesCons(b: Bundle, s: seq<Bundle>)
    ensures multiset(EntriesIn([b] + s)) == Pair(b) + multiset(EntriesIn(s))
  {
    assert ([b] + s)[1..] == s;
  }

  lemma EventsCons(b: Bundle, s: seq<Bundle>)
    ensures multiset(EventsIn([b] + s)) == multiset{b.event} + multiset(EventsIn(s))
  {
    assert EventsIn([b] + s) == [b.event] + EventsIn(s);
  }

  lemma Swap<T>(a: multiset<T>, b: multiset<T>, c: multiset<T>)
    ensures a + (b + c) == b + (a + c)
  {
  }

  lemma InsertLater(x: Bundle, s: seq<Bundle>)
    requires s != [] && BundleAge(x) > BundleAge(s[0])
    ensures s == [s[0]] + s[1..] && Insert(BundleAge, x, s) == [s[0]] + Insert(BundleAge, x, s[1..])
  {
  }

  lemma {:induction false} EntriesInInsert(x: Bundle, s: seq<Bundle>)
    ensures multiset(EntriesIn(Insert(BundleAge, x, s))) == Pair(x) + multiset(EntriesIn(s))
    ensures multiset(EventsIn(Insert(BundleAge, x, s))) == multiset{x.event} + multiset(EventsIn(s))
  {
    if s == [] || BundleAge(x) <= BundleAge(s[0]) {
      EntriesCons(x, s);
      EventsCons(x, s);
    } else {
      hide EntriesIn, EventsIn, Insert, Pair;
      var rest := s[1..];
      EntriesInInsert(x, rest);
      InsertLater(x, s);
      EntriesCons(s[0], Insert(BundleAge, x, rest));
      EntriesCons(s[0], rest);
      Swap(Pair(s[0]), Pair(x), multiset(EntriesIn(rest)));
      EventsCons(s[0], Insert(BundleAge, x, rest));
      EventsCons(s[0], rest);
      Swap(multiset{s[0].event}, multiset{x.event}, multiset(EventsIn(rest)));
    }
  }

  lemma {:induction false} EntriesInSort(bs: seq<Bundle>)
    ensures multiset(EntriesIn(SortBy(BundleAge, bs))) == multiset(EntriesIn(bs))
    ensures multiset(EventsIn(SortBy(BundleAge, bs))) == multiset(EventsIn(bs))
  {
    if bs != [] {
      hide EntriesIn, EventsIn, Pair;
      EntriesInSort(bs[1..]);
      EntriesInInsert(bs[0], SortBy(BundleAge, bs[1..]));
      EntriesCons(bs[0], bs[1..]);
      EventsCons(bs[0], bs[1..]);
      assert bs == [bs[0]] + bs[1..];
    }
  }

  // ----- What does not depend on the order of rows -----

  /** b without its j-th entry. */
  function Without(b: seq<Entry>, j: nat): seq<Entry>
    requires j < |b|
  {
    b[..j] + b[j + 1..]
  }

  lemma TakeOut(b: seq<Entry>, j: nat)
    requires j < |b|
    ensures multiset(Without(b, j)) == multiset(b) - multiset{b[j]}
  {
    assert b == b[..j] + [b[j]] + b[j + 1..];
  }

  lemma BalanceWithout(b: seq<Entry>, j: nat, account: Uuid)
    requires j < |b|
    ensures Balance(b, account) ==
            (if b[j].accountId == account then b[j].cents else 0) + Balance(Without(b, j), account)
  {
    var tail := [b[j]] + b[j + 1..];
    assert b == b[..j] + tail && tail[1..] == b[j + 1..];
    BalanceAppend(b[..j], tail, account);
    BalanceAppend(b[..j], b[j + 1..], account);
  }

  lemma {:induction false} BalancePermutes(a: seq<Entry>, b: seq<Entry>, account: Uuid)
    requires multiset(a) == multiset(b)
    ensures Balance(a, account) == Balance(b, account)
  {
    SameLength(a, b);
    if a != [] {
      Rearranged(a, b, a[0]);
      var j :| 0 <= j < |b| && b[j] == a[0];
      hide Without;
      TakeOut(b, j);
      BalanceWithout(b, j, account);
      TailRows(a);
      BalancePermutes(a[1..], Without(b, j), account);
    }
  }

  function EntryId(e: Entry): int {
    e.id
  }

  function EventId(e: Event): int {
    e.id
  }

  lemma UniqueRowsPermute(db: Db, ordered: Db)
    requires UniqueEntries(db.entries) && UniqueEvents(db.events)
    requires multiset(ordered.entries) == multiset(db.entries) && multiset(ordered.events) == multiset(db.events)
    ensures UniqueEntries(ordered.entries) && UniqueEvents(ordered.events)
  {
    assert DistinctKeys(EntryId, db.entries) && DistinctKeys(EventId, db.events);
    PermutedKeys(EntryId, db.entries, ordered.entries);
    PermutedKeys(EventId, db.events, ordered.events);
    assert DistinctKeys(EntryId, ordered.entries) && DistinctKeys(EventId, ordered.events);
    forall i, j | 0 <= i < j < |ordered.entries|
      ensures ordered.entries[i].id != ordered.entries[j].id
    {
      assert EntryId(ordered.entries[i]) != EntryId(ordered.entries[j]);
    }
    forall i, j | 0 <= i < j < |ordered.events|
      ensures ordered.events[i].id != ordered.events[j].id
    {
      assert EventId(ordered.events[i]) != EventId(ordered.events[j]);
    }
  }

  // ----- The migrated ledger -----

  /** Where the i-th bundle came from. */
  lemma Origin(db: Db, i: nat) returns (j: nat)
    requires Recorded(db) && i < |InAgeOrder(db)|
    ensures j < |db.txns| && InAgeOrder(db)[i] == Bundles(db)[j]
  {
    SortMembers(BundleAge, Bundles(db));
    j :| 0 <= j < |Bundles(db)| && Bundles(db)[j] == InAgeOrder(db)[i];
  }

  lemma SizesStay(env: Env, db: Db)
    requires Recorded(db)
    ensures var ordered := InChainOrder(env, db);
      && |InAgeOrder(db)| == |ordered.txns| == |db.txns|
      && |ordered.entries| == 2 * |ordered.txns| && |ordered.events| == |ordered.txns|
  {
    SortPermutes(BundleAge, Bundles(db));
    EntriesInLength(InAgeOrder(db));
  }

  /** Rebuilding the link of a row changes nothing that its entries and event refer to. */
  lemma RowStays(env: Env, db: Db, i: nat)
    requires Recorded(db) && i < |InAgeOrder(db)|
    ensures i < |InChainOrder(env, db).txns| && Data(InChainOrder(env, db).txns[i]) == Data(InAgeOrder(db)[i].t)
  {
  }

  lemma RecordedStays(env: Env, db: Db)
    requires Recorded(db)
    ensures Recorded(InChainOrder(env, db))
  {
    SizesStay(env, db);
    forall i | 0 <= i < |InChainOrder(env, db).txns|
      ensures RecordedAt(InChainOrder(env, db), i)
    {
      RecordedStaysAt(env, db, i);
    }
  }

  lemma OriginRecorded(db: Db, i: nat)
    requires Recorded(db) && i < |InAgeOrder(db)|
    ensures var b := InAgeOrder(db)[i]; Balanced(db.accounts, b.t, b.debit, b.credit) && Announced(b.t, b.event)
  {
    var j := Origin(db, i);
    assert RecordedAt(db, j);
  }

  lemma RecordedStaysAt(env: Env, db: Db, i: nat)
    requires Recorded(db) && i < |InAgeOrder(db)|
    requires 2 * |InChainOrder(env, db).txns| == |InChainOrder(env, db).entries|
    requires |InChainOrder(env, db).txns| == |InChainOrder(env, db).events| == |InAgeOrder(db)|
    ensures RecordedAt(InChainOrder(env, db), i)
  {
    hide Balanced, Announced, SortBy, EntriesIn, Rebuilt;
    var ordered, b := InChainOrder(env, db), InAgeOrder(db)[i];
    OriginRecorded(db, i);
    RowStays(env, db, i);
    EntriesInAt(InAgeOrder(db), i);
    SameDataBalanced(db.accounts, b.t, ordered.txns[i], b.debit, b.credit, b.event);
  }

  lemma SameDataBalanced(accounts: seq<Account>, t: Txn, u: Txn, debit: Entry, credit: Entry, event: Event)
    requires Data(t) == Data(u) && Balanced(accounts, t, debit, credit) && Announced(t, event)
    ensures Balanced(accounts, u, debit, credit) && Announced(u, event)
  {
    assert Data(t).id == t.id && Data(u).id == u.id && Data(t).cents == t.cents && Data(u).cents == u.cents;
    assert Data(t).kind == t.kind && Data(u).kind == u.kind && Data(t).key == t.key && Data(u).key == u.key;
    assert Data(t).reference == t.reference && Data(u).reference == u.reference;
  }

  lemma TxnsStay(env: Env, db: Db)
    requires Consistent(db)
    ensures UniqueTxns(InChainOrder(env, db).txns) && forall t :: t in InChainOrder(env, db).txns ==> Honest(t)
  {
    var ordered, bs := InChainOrder(env, db), InAgeOrder(db);
    SizesStay(env, db);
    forall i | 0 <= i < |ordered.txns|
      ensures Honest(ordered.txns[i])
    {
      var j := Origin(db, i);
      RowStays(env, db, i);
      assert Honest(db.txns[j]) && Data(db.txns[j]).requestHash == Data(ordered.txns[i]).requestHash;
    }
    forall i, k | 0 <= i < k < |ordered.txns|
      ensures ordered.txns[i].id != ordered.txns[k].id && ordered.txns[i].key != ordered.txns[k].key
    {
      DifferentOrigins(env, db, i, k);
    }
  }

  lemma DifferentOrigins(env: Env, db: Db, i: nat, k: nat)
    requires Consistent(db) && i < k < |InAgeOrder(db)| && k < |InChainOrder(env, db).txns|
    ensures InChainOrder(env, db).txns[i].id != InChainOrder(env, db).txns[k].id
    ensures InChainOrder(env, db).txns[i].key != InChainOrder(env, db).txns[k].key
  {
    BundlesDiffer(db);
    SortNoRepeats(BundleAge, Bundles(db));
    var j := Origin(db, i);
    var l := Origin(db, k);
    assert j != l;
    RowStays(env, db, i);
    RowStays(env, db, k);
    assert Data(db.txns[j]).id == Data(InChainOrder(env, db).txns[i]).id;
    assert Data(db.txns[l]).id == Data(InChainOrder(env, db).txns[k]).id;
    assert Data(db.txns[j]).key == Data(InChainOrder(env, db).txns[i]).key;
    assert Data(db.txns[l]).key == Data(InChainOrder(env, db).txns[k]).key;
  }

  lemma BundlesDiffer(db: Db)
    requires Consistent(db)
    ensures NoRepeats(Bundles(db))
  {
    forall i, j | 0 <= i < j < |db.txns|
      ensures Bundles(db)[i] != Bundles(db)[j]
    {
      assert db.txns[i].id != db.txns[j].id;
    }
  }

  lemma RowsPermute(env: Env, db: Db)
    requires Recorded(db)
    ensures multiset(InChainOrder(env, db).entries) == multiset(db.entries)
    ensures multiset(InChainOrder(env, db).events) == multiset(db.events)
  {
    BundlesSplit(db);
    EntriesInSort(Bundles(db));
  }

  lemma SolventStays(env: Env, db: Db)
    requires Consistent(db)
    ensures Solvent(InChainOrder(env, db))
  {
    RowsPermute(env, db);
    forall i | 0 <= i < |db.accounts| && db.accounts[i].name != EXTERNAL_CLEARING
      ensures Balance(InChainOrder(env, db).entries, db.accounts[i].id) >= 0
    {
      BalancePermutes(InChainOrder(env, db).entries, db.entries, db.accounts[i].id);
    }
  }

  /** After the migration the ledger satisfies the whole invariant: its rows in chain order are those of the repaired
      table, with the entries and events they always had. */
  lemma MigratedLedger(env: Env, db: Db, now: seq<Txn>)
    requires Consistent(db) && Repaired(env, db.txns, now)
    ensures
      var ordered := InChainOrder(env, db);
      && Inv(env, ordered)
      && ordered.accounts == db.accounts
      && ordered.txns == Chained(now) && multiset(ordered.txns) == multiset(now)
      && multiset(ordered.entries) == multiset(db.entries)
      && multiset(ordered.events) == multiset(db.events)
  {
    var ordered := InChainOrder(env, db);
    RecordedStays(env, db);
    TxnsStay(env, db);
    RowsPermute(env, db);
    UniqueRowsPermute(db, ordered);
    SolventStays(env, db);
    RebuiltIsLinear(env, TxnsOf(InAgeOrder(db)));
    BundlesSplit(db);
    TxnsOfSort(Bundles(db));
    RepairedChain(env, db.txns, now);
    RepairedIsLinear(env, db.txns, now);
    ChainedMembers(now);
    ConsistentAndLinear(env, ordered);
  }
}
