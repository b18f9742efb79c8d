/** The independent audit: sums and counts re-derived from the raw tables. */
module Audit {
  import opened Values
  import opened Ledger
  import opened Invariant

  // ----- Aggregate queries -----

  function FindTxn(txns: seq<Txn>, id: Uuid): Option<Txn> {
    if txns == [] then None else if txns[0].id == id then Some(txns[0]) else FindTxn(txns[1..], id)
  }

  /** The entries of one transaction. */
  function EntriesOf(entries: seq<Entry>, txnId: Uuid): seq<Entry> {
    if entries == [] then []
    else
      EntriesOf(entries[..|entries| - 1], txnId) +
      (if entries[|entries| - 1].txnId == txnId then [entries[|entries| - 1]] else [])
  }

  function EventsOf(events: seq<Event>, txnId: Uuid): seq<Event> {
    if events == [] then []
    else
      EventsOf(events[..|events| - 1], txnId) +
      (if events[|events| - 1].aggregateId == txnId then [events[|events| - 1]] else [])
  }

  function TxnSum(entries: seq<Entry>, txnId: Uuid): int {
    Total(EntriesOf(entries, txnId))
  }

  /** GROUP BY transaction_id: the distinct ids. */
  function Groups(entries: seq<Entry>): seq<Uuid> {
    if entries == [] then []
    else
      var front, last := Groups(entries[..|entries| - 1]), entries[|entries| - 1];
      if last.txnId in front then front else front + [last.txnId]
  }

  datatype GroupRow = GroupRow(txnId: Uuid, sum: int)

  /** HAVING sum(amount) != 0. */
  function Unbalanced(entries: seq<Entry>, groups: seq<Uuid>): seq<GroupRow> {
    if groups == [] then []
    else
      (if TxnSum(entries, groups[0]) != 0 then [GroupRow(groups[0], TxnSum(entries, groups[0]))] else []) +
      Unbalanced(entries, groups[1..])
  }

  function SumOfGroups(entries: seq<Entry>, groups: seq<Uuid>): int {
    if groups == [] then 0 else TxnSum(entries, groups[0]) + SumOfGroups(entries, groups[1..])
  }

  function OrphanTxnRefs(entries: seq<Entry>, txns: seq<Txn>): nat {
    if entries == [] then 0
    else
      OrphanTxnRefs(entries[..|entries| - 1], txns) +
      (if FindTxn(txns, entries[|entries| - 1].txnId).None? then 1 else 0)
  }

  function OrphanAccountRefs(entries: seq<Entry>, accounts: seq<Account>): nat {
    if entries == [] then 0
    else
      OrphanAccountRefs(entries[..|entries| - 1], accounts) +
      (if FindAccount(accounts, entries[|entries| - 1].accountId).None? then 1 else 0)
  }

  function Keys(txns: seq<Txn>): set<string> {
    if txns == [] then {} else Keys(txns[..|txns| - 1]) + {txns[|txns| - 1].key}
  }

  function EntryCount(entries: seq<Entry>, account: Uuid): nat {
    if entries == [] then 0
    else
      EntryCount(entries[..|entries| - 1], account) +
      (if entries[|entries| - 1].accountId == account then 1 else 0)
  }

  /** The positions of the entries on an account. */
  ghost function EntriesNaming(entries: seq<Entry>, account: Uuid): set<int> {
    set k | 0 <= k < |entries| && entries[k].accountId == account
  }

  lemma {:induction false} EntryCountMeaning(entries: seq<Entry>, account: Uuid)
    ensures EntryCount(entries, account) == |EntriesNaming(entries, account)|
  {
    if entries != [] {
      var n := |entries| - 1;
      EntryCountMeaning(entries[..n], account);
      assert EntriesNaming(entries, account) ==
             EntriesNaming(entries[..n], account) + if entries[n].accountId == account then {n} else {};
    }
  }

  // ----- The report -----

  datatype AccountLine = AccountLine(accountId: Uuid, name: string, balance: int, entryCount: nat)

  datatype Discrepancy =
    | GlobalSum(sum: int)
    | UnbalancedTxn(row: GroupRow)
    | Orphans(txnRefs: nat, accountRefs: nat)
    | DuplicateKeys(total: nat, unique: nat)
    | WrongEntryCount(expected: nat, found: nat)

  datatype AuditReport = AuditReport(pass: bool, accounts: seq<AccountLine>, discrepancies: seq<Discrepancy>)

  /** What the audit is meant to establish, stated on the tables themselves. */
  ghost predicate Sound(db: Db) {
    && Total(db.entries) == 0
    && (forall id :: id in Groups(db.entries) ==> TxnSum(db.entries, id) == 0)
    && (forall e :: e in db.entries ==> FindTxn(db.txns, e.txnId).Some? && FindAccount(db.accounts, e.accountId).Some?)
    && DistinctKeysIn(db.txns)
    && |db.entries| == 2 * |db.txns|
  }

  function Listed(rows: seq<GroupRow>): seq<Discrepancy> {
    if rows == [] then [] else Listed(rows[..|rows| - 1]) + [UnbalancedTxn(rows[|rows| - 1])]
  }

  function GlobalFaults(db: Db): seq<Discrepancy> {
    if Total(db.entries) != 0 then [GlobalSum(Total(db.entries))] else []
  }

  function OrphanFaults(txnRefs: Db, accountRefs: Db): seq<Discrepancy> {
    var orphanTxns := OrphanTxnRefs(txnRefs.entries, txnRefs.txns);
    var orphanAccounts := OrphanAccountRefs(accountRefs.entries, accountRefs.accounts);
    if orphanTxns > 0 || orphanAccounts > 0 then [Orphans(orphanTxns, orphanAccounts)] else []
  }

  function KeyFaults(total: Db, unique: Db): seq<Discrepancy> {
    if |total.txns| != |Keys(unique.txns)| then [DuplicateKeys(|total.txns|, |Keys(unique.txns)|)] else []
  }

  function CountFaults(entries: Db, txns: Db): seq<Discrepancy> {
    if |entries.entries| != 2 * |txns.txns| then [WrongEntryCount(2 * |txns.txns|, |entries.entries|)] else []
  }

  /** The tables as each query of the audit sees them: every statement reads what is committed when it runs. The account
      lines are read between groups and orphanTxns. */
  datatype Views = Views(
    sum: Db,
    groups: Db,
    orphanTxns: Db,
    orphanAccounts: Db,
    total: Db,
    unique: Db,
    entries: Db,
    txns: Db)

  /** No commit during the audit. */
  function Still(db: Db): Views {
    Views(db, db, db, db, db, db, db, db)
  }

  /** view(k) is what statement k sees. Statement 2 lists the accounts, and two more follow for each of them. */
  function ViewsOf(view: nat -> Db): Views {
    var n := 3 + 2 * |view(2).accounts|;
    Views(view(0), view(1), view(n), view(n + 1), view(n + 2), view(n + 3), view(n + 4), view(n + 5))
  }

  /** Everything the audit reports, check by check. */
  function Faults(v: Views): seq<Discrepancy> {
    GlobalFaults(v.sum) + Listed(Unbalanced(v.groups.entries, Groups(v.groups.entries))) +
    OrphanFaults(v.orphanTxns, v.orphanAccounts) + KeyFaults(v.total, v.unique) + CountFaults(v.entries, v.txns)
  }

  function LineAt(view: nat -> Db, i: nat): AccountLine
    requires i < |view(2).accounts|
  {
    var account := view(2).accounts[i];
    AccountLine(account.id, account.name, Balance(view(3 + 2 * i).entries, account.id),
                EntryCount(view(4 + 2 * i).entries, account.id))
  }

  /** verify_ledger, one statement after the other: it reports the faults its queries see, passes when there are none,
      and lists every account. When nothing is committed meanwhile, it passes exactly on sound tables. */
  method VerifyLedger(view: nat -> Db) returns (report: AuditReport)
    ensures report.discrepancies == Faults(ViewsOf(view))
    ensures report.pass <==> report.discrepancies == []
    ensures forall db :: ViewsOf(view) == Still(db) ==> (report.pass <==> Sound(db))
    ensures |report.accounts| == |view(2).accounts|
    ensures forall i :: 0 <= i < |report.accounts| ==>
      var line, account := report.accounts[i], view(2).accounts[i];
      && line.accountId == account.id && line.name == account.name
      && line.balance == Balance(view(3 + 2 * i).entries, account.id)
      && line.entryCount == |EntriesNaming(view(4 + 2 * i).entries, account.id)|
  {
    var pass := true;
    var discrepancies: seq<Discrepancy> := [];
    ghost var v := ViewsOf(view);
    hide Total, Unbalanced, Groups, OrphanTxnRefs, OrphanAccountRefs, Keys, Sound;

    var globalSum := Total(view(0).entries);
    if globalSum != 0 {
      pass := false;
      discrepancies := discrepancies + [GlobalSum(globalSum)];
    }

    var unbalanced := Unbalanced(view(1).entries, Groups(view(1).entries));
    if unbalanced != [] {
      pass := false;
    }
    var listed := ListUnbalanced(unbalanced);
    discrepancies := discrepancies + listed;
    ListedNone(unbalanced);
    assert discrepancies == GlobalFaults(v.sum) + Listed(unbalanced);

    var lines := AccountLines(view);
    var n := 3 + 2 * |view(2).accounts|;

    var orphanTxns := OrphanTxnRefs(view(n).entries, view(n).txns);
    var orphanAccounts := OrphanAccountRefs(view(n + 1).entries, view(n + 1).accounts);
    if orphanTxns > 0 || orphanAccounts > 0 {
      pass := false;
      discrepancies := discrepancies + [Orphans(orphanTxns, orphanAccounts)];
    }
    assert discrepancies ==
           GlobalFaults(v.sum) + Listed(unbalanced) + OrphanFaults(v.orphanTxns, v.orphanAccounts);

    var totalKeys := |view(n + 2).txns|;
    var uniqueKeys := |Keys(view(n + 3).txns)|;
    if totalKeys != uniqueKeys {
      pass := false;
      discrepancies := discrepancies + [DuplicateKeys(totalKeys, uniqueKeys)];
    }

    var entryCount := |view(n + 4).entries|;
    var txnCount := |view(n + 5).txns|;
    if entryCount != txnCount * 2 {
      pass := false;
      discrepancies := discrepancies + [WrongEntryCount(txnCount * 2, entryCount)];
    }
    assert discrepancies == Faults(v);
    StillMeansSound(v);
    report := AuditReport(pass, lines, discrepancies);
  }

  method ListUnbalanced(rows: seq<GroupRow>) returns (listed: seq<Discrepancy>)
    ensures listed == Listed(rows)
  {
    listed := [];
    for i := 0 to |rows|
      invariant listed == Listed(rows[..i])
    {
      assert rows[..i + 1][..i] == rows[..i];
      listed := listed + [UnbalancedTxn(rows[i])];
    }
    assert rows[..|rows|] == rows;
  }

  method AccountLines(view: nat -> Db) returns (lines: seq<AccountLine>)
    ensures |lines| == |view(2).accounts|
    ensures forall i :: 0 <= i < |lines| ==> lines[i] == LineAt(view, i)
    ensures forall i :: 0 <= i < |lines| ==>
      lines[i].entryCount == |EntriesNaming(view(4 + 2 * i).entries, view(2).accounts[i].id)|
  {
    var accounts := view(2).accounts;
    lines := [];
    for i := 0 to |accounts|
      invariant |lines| == i
      invariant forall k :: 0 <= k < i ==> lines[k] == LineAt(view, k)
    {
      var balance := Balance(view(3 + 2 * i).entries, accounts[i].id);
      var count := EntryCount(view(4 + 2 * i).entries, accounts[i].id);
      lines := lines + [AccountLine(accounts[i].id, accounts[i].name, balance, count)];
    }
    forall i | 0 <= i < |lines|
      ensures lines[i].entryCount == |EntriesNaming(view(4 + 2 * i).entries, accounts[i].id)|
    {
      EntryCountMeaning(view(4 + 2 * i).entries, accounts[i].id);
    }
  }

  lemma {:induction false} ListedNone(rows: seq<GroupRow>)
    ensures Listed(rows) == [] <==> rows == []
  {
  }

  lemma NoFaultsIffSound(db: Db)
    ensures Faults(Still(db)) == [] <==> Sound(db)
  {
    NoneReported(Still(db));
    NoneUnbalanced(db.entries);
    NoOrphans(db.entries, db.txns, db.accounts);
    KeysCountDistinct(db.txns);
  }

  lemma NoneReported(v: Views)
    ensures Faults(v) == [] <==>
      && GlobalFaults(v.sum) == []
      && Unbalanced(v.groups.entries, Groups(v.groups.entries)) == []
      && OrphanFaults(v.orphanTxns, v.orphanAccounts) == []
      && KeyFaults(v.total, v.unique) == []
      && CountFaults(v.entries, v.txns) == []
  {
    hide Unbalanced, Groups, GlobalFaults, OrphanFaults, KeyFaults, CountFaults;
    ListedNone(Unbalanced(v.groups.entries, Groups(v.groups.entries)));
  }

  lemma StillMeansSound(v: Views)
    ensures forall db :: v == Still(db) ==> (Faults(v) == [] <==> Sound(db))
  {
    forall db | v == Still(db)
      ensures Faults(v) == [] <==> Sound(db)
    {
      NoFaultsIffSound(db);
    }
  }

  lemma NoneUnbalanced(entries: seq<Entry>)
    ensures Unbalanced(entries, Groups(entries)) == [] <==>
            forall id :: id in Groups(entries) ==> TxnSum(entries, id) == 0
  {
    var rows := Unbalanced(entries, Groups(entries));
    UnbalancedMeaning(entries, Groups(entries));
    if rows != [] {
      assert rows[0] in rows;
    }
    forall id | id in Groups(entries) && TxnSum(entries, id) != 0
      ensures rows != []
    {
      assert GroupRow(id, TxnSum(entries, id)) in rows;
    }
  }

  /** On queries that each see a sound table, the only faults are those of two counts taken at two moments. */
  lemma FaultsOfSoundViews(v: Views)
    requires Sound(v.sum) && Sound(v.groups) && Sound(v.orphanTxns) && Sound(v.orphanAccounts)
    requires Sound(v.total) && Sound(v.unique) && Sound(v.entries) && Sound(v.txns)
    ensures Faults(v) ==
            (if |v.total.txns| != |v.unique.txns| then [DuplicateKeys(|v.total.txns|, |v.unique.txns|)] else []) +
            (if |v.entries.txns| != |v.txns.txns|
             then [WrongEntryCount(2 * |v.txns.txns|, 2 * |v.entries.txns|)] else [])
  {
    hide Sound, GlobalFaults, Unbalanced, Groups, OrphanFaults, KeyFaults, CountFaults;
    SoundSums(v.sum);
    SoundSums(v.groups);
    SoundRefs(v.orphanTxns, v.orphanAccounts);
    SoundCounts(v.total, v.unique);
    SoundCounts(v.entries, v.txns);
    ListedNone(Unbalanced(v.groups.entries, Groups(v.groups.entries)));
  }

  lemma SoundSums(db: Db)
    requires Sound(db)
    ensures GlobalFaults(db) == [] && Unbalanced(db.entries, Groups(db.entries)) == []
  {
    NoneUnbalanced(db.entries);
  }

  lemma SoundRefs(txnRefs: Db, accountRefs: Db)
    requires Sound(txnRefs) && Sound(accountRefs)
    ensures OrphanFaults(txnRefs, accountRefs) == []
  {
    NoOrphans(txnRefs.entries, txnRefs.txns, txnRefs.accounts);
    NoOrphans(accountRefs.entries, accountRefs.txns, accountRefs.accounts);
  }

  lemma SoundCounts(a: Db, b: Db)
    requires Sound(a) && Sound(b)
    ensures KeyFaults(a, b) == if |a.txns| != |b.txns| then [DuplicateKeys(|a.txns|, |b.txns|)] else []
    ensures CountFaults(a, b) ==
            if |a.txns| != |b.txns| then [WrongEntryCount(2 * |b.txns|, 2 * |a.txns|)] else []
  {
    KeysCountDistinct(b.txns);
  }

  lemma {:induction false} ListedMeaning(rows: seq<GroupRow>)
    ensures forall r :: UnbalancedTxn(r) in Listed(rows) <==> r in rows
    ensures forall d :: d in Listed(rows) ==> d.UnbalancedTxn?
  {
    if rows != [] {
      ListedMeaning(rows[..|rows| - 1]);
      assert rows == rows[..|rows| - 1] + [rows[|rows| - 1]];
    }
  }

  /** A transaction is named in the report exactly when its entries do not sum to zero, with that sum. */
  lemma ReportNamesUnbalanced(v: Views, row: GroupRow)
    ensures UnbalancedTxn(row) in Faults(v) <==>
            row.txnId in Groups(v.groups.entries) && row.sum == TxnSum(v.groups.entries, row.txnId) != 0
  {
    UnbalancedMeaning(v.groups.entries, Groups(v.groups.entries));
    ListedMeaning(Unbalanced(v.groups.entries, Groups(v.groups.entries)));
    OnlyListed(GlobalFaults(v.sum), Listed(Unbalanced(v.groups.entries, Groups(v.groups.entries))),
               OrphanFaults(v.orphanTxns, v.orphanAccounts), KeyFaults(v.total, v.unique),
               CountFaults(v.entries, v.txns), UnbalancedTxn(row));
  }

  lemma OnlyListed<T>(a: seq<T>, listed: seq<T>, b: seq<T>, c: seq<T>, d: seq<T>, x: T)
    requires x !in a && x !in b && x !in c && x !in d
    ensures x in a + listed + b + c + d <==> x in listed
  {
  }

  // ----- What the queries mean -----

  lemma {:induction false} UnbalancedMeaning(entries: seq<Entry>, groups: seq<Uuid>)
    ensures forall r :: r in Unbalanced(entries, groups) <==>
      r.txnId in groups && r.sum == TxnSum(entries, r.txnId) && r.sum != 0
  {
    if groups != [] {
      UnbalancedMeaning(entries, groups[1..]);
    }
  }

  lemma {:induction false} NoOrphans(entries: seq<Entry>, txns: seq<Txn>, accounts: seq<Account>)
    ensures OrphanTxnRefs(entries, txns) == 0 <==> forall e :: e in entries ==> FindTxn(txns, e.txnId).Some?
    ensures OrphanAccountRefs(entries, accounts) == 0 <==>
            forall e :: e in entries ==> FindAccount(accounts, e.accountId).Some?
  {
    if entries != [] {
      var front, last := entries[..|entries| - 1], entries[|entries| - 1];
      NoOrphans(front, txns, accounts);
      assert entries == front + [last];
      assert last in entries;
    }
  }

  lemma {:induction false} KeysMembers(txns: seq<Txn>)
    ensures forall k :: k in Keys(txns) <==> exists i :: 0 <= i < |txns| && txns[i].key == k
  {
    if txns != [] {
      KeysMembers(txns[..|txns| - 1]);
    }
  }

  ghost predicate DistinctKeysIn(txns: seq<Txn>) {
    forall i, j :: 0 <= i < j < |txns| ==> txns[i].key != txns[j].key
  }

  lemma DistinctSplit(txns: seq<Txn>)
    requires txns != []
    ensures DistinctKeysIn(txns) <==>
            DistinctKeysIn(txns[..|txns| - 1]) && txns[|txns| - 1].key !in Keys(txns[..|txns| - 1])
  {
    var front, last := txns[..|txns| - 1], txns[|txns| - 1];
    KeysMembers(front);
    if DistinctKeysIn(front) && last.key !in Keys(front) {
      forall i, j | 0 <= i < j < |txns|
        ensures txns[i].key != txns[j].key
      {
        assert txns[i] == front[i];
      }
    }
    if last.key in Keys(front) {
      var i :| 0 <= i < |front| && front[i].key == last.key;
      assert txns[i].key == txns[|txns| - 1].key;
    }
  }

  /** count(distinct key) equals count(*) exactly when no key repeats. */
  lemma {:induction false} KeysCountDistinct(txns: seq<Txn>)
    ensures |Keys(txns)| <= |txns|
    ensures |Keys(txns)| == |txns| <==> DistinctKeysIn(txns)
  {
    if txns != [] {
      var front, last := txns[..|txns| - 1], txns[|txns| - 1];
      KeysCountDistinct(front);
      DistinctSplit(txns);
      assert last.key in Keys(front) ==> Keys(txns) == Keys(front);
    }
  }

  lemma {:induction false} GroupsMeaning(entries: seq<Entry>)
    ensures forall i, j :: 0 <= i < j < |Groups(entries)| ==> Groups(entries)[i] != Groups(entries)[j]
    ensures forall e :: e in entries ==> e.txnId in Groups(entries)
  {
    if entries != [] {
      GroupsMeaning(entries[..|entries| - 1]);
      assert entries == entries[..|entries| - 1] + [entries[|entries| - 1]];
    }
  }

  lemma TxnSumLast(entries: seq<Entry>, id: Uuid)
    requires entries != []
    ensures var last := entries[|entries| - 1];
      TxnSum(entries, id) == TxnSum(entries[..|entries| - 1], id) + (if last.txnId == id then last.cents else 0)
  {
    var front, last := EntriesOf(entries[..|entries| - 1], id), entries[|entries| - 1];
    if last.txnId == id {
      assert (front + [last])[..|front|] == front;
    } else {
      assert front + [] == front;
    }
  }

  lemma {:induction false} SumOfGroupsLast(entries: seq<Entry>, groups: seq<Uuid>)
    requires entries != []
    requires forall i, j :: 0 <= i < j < |groups| ==> groups[i] != groups[j]
    ensures var last := entries[|entries| - 1];
      SumOfGroups(entries, groups) ==
      SumOfGroups(entries[..|entries| - 1], groups) + (if last.txnId in groups then last.cents else 0)
  {
    if groups != [] {
      TxnSumLast(entries, groups[0]);
      SumOfGroupsLast(entries, groups[1..]);
    }
  }

  lemma {:induction false} SumOfGroupsAppend(entries: seq<Entry>, groups: seq<Uuid>, id: Uuid)
    ensures SumOfGroups(entries, groups + [id]) == SumOfGroups(entries, groups) + TxnSum(entries, id)
  {
    if groups == [] {
      assert groups + [id] == [id] && [id][1..] == [];
    } else {
      assert (groups + [id])[1..] == groups[1..] + [id];
      SumOfGroupsAppend(entries, groups[1..], id);
    }
  }

  lemma {:induction false} NoEntriesNoSum(entries: seq<Entry>, id: Uuid)
    requires forall e :: e in entries ==> e.txnId != id
    ensures EntriesOf(entries, id) == []
  {
    if entries != [] {
      NoEntriesNoSum(entries[..|entries| - 1], id);
    }
  }

  /** The total grouped by transaction is the global sum, on any table. */
  lemma {:induction false} GroupedByTransaction(entries: seq<Entry>)
    ensures SumOfGroups(entries, Groups(entries)) == Total(entries)
  {
    if entries != [] {
      var front, last := entries[..|entries| - 1], entries[|entries| - 1];
      GroupedByTransaction(front);
      GroupsMeaning(front);
      SumOfGroupsLast(entries, Groups(front));
      if last.txnId !in Groups(front) {
        SumOfGroupsAppend(entries, Groups(front), last.txnId);
        NoEntriesNoSum(front, last.txnId);
        TxnSumLast(entries, last.txnId);
      }
    }
  }

  /** On any table without orphaned account references the three totals agree. */
  lemma TotalsAgree(db: Db)
    requires UniqueAccounts(db.accounts) && OrphanAccountRefs(db.entries, db.accounts) == 0
    ensures SumOfBalances(db.accounts, db.entries) == SumOfGroups(db.entries, Groups(db.entries)) == Total(db.entries)
  {
    NoOrphans(db.entries, [], db.accounts);
    GroupedByAccount(db.accounts, db.entries);
    GroupedByTransaction(db.entries);
  }

  // ----- Invariant states -----

  lemma {:induction false} FindTxnMeaning(txns: seq<Txn>, id: Uuid)
    ensures FindTxn(txns, id).None? <==> forall i :: 0 <= i < |txns| ==> txns[i].id != id
  {
    if txns != [] {
      FindTxnMeaning(txns[1..], id);
      assert forall i :: 0 < i < |txns| ==> txns[i] == txns[1..][i - 1];
    }
  }

  lemma EntriesOfPair(entries: seq<Entry>, id: Uuid)
    requires |entries| >= 2
    ensures var n := |entries|;
      EntriesOf(entries, id) == EntriesOf(entries[..n - 2], id) +
        (if entries[n - 2].txnId == id then [entries[n - 2]] else []) +
        (if entries[n - 1].txnId == id then [entries[n - 1]] else [])
  {
    assert entries[..|entries| - 1][..|entries| - 2] == entries[..|entries| - 2];
  }

  /** Only entries 2i and 2i+1 belong to id. */
  lemma {:induction false} PairsUpTo(entries: seq<Entry>, id: Uuid, i: nat, n: nat)
    requires 2 * i + 1 < |entries| && 2 * n <= |entries|
    requires forall k :: 0 <= k < |entries| ==> (entries[k].txnId == id <==> k == 2 * i || k == 2 * i + 1)
    ensures EntriesOf(entries[..2 * n], id) == if i < n then [entries[2 * i], entries[2 * i + 1]] else []
  {
    if n > 0 {
      PairsUpTo(entries, id, i, n - 1);
      OnePairMore(entries, n, id);
    }
  }

  lemma OnePairMore(entries: seq<Entry>, n: nat, id: Uuid)
    requires 0 < 2 * n <= |entries|
    ensures EntriesOf(entries[..2 * n], id) == EntriesOf(entries[..2 * (n - 1)], id) +
      (if entries[2 * (n - 1)].txnId == id then [entries[2 * (n - 1)]] else []) +
      (if entries[2 * (n - 1) + 1].txnId == id then [entries[2 * (n - 1) + 1]] else [])
  {
    var es := entries[..2 * n];
    EntriesOfPair(es, id);
    assert es[..|es| - 2] == entries[..2 * (n - 1)];
  }

  lemma OwnedRows(db: Db, i: nat)
    requires Recorded(db) && UniqueTxns(db.txns) && i < |db.txns|
    ensures forall k :: 0 <= k < |db.entries| ==>
      (db.entries[k].txnId == db.txns[i].id <==> k == 2 * i || k == 2 * i + 1)
    ensures forall k :: 0 <= k < |db.events| ==> (db.events[k].aggregateId == db.txns[i].id <==> k == i)
  {
    forall k | 0 <= k < |db.entries|
      ensures db.entries[k].txnId == db.txns[i].id <==> k == 2 * i || k == 2 * i + 1
    {
      assert RecordedAt(db, k / 2);
      assert k == 2 * (k / 2) || k == 2 * (k / 2) + 1;
    }
    forall k | 0 <= k < |db.events|
      ensures db.events[k].aggregateId == db.txns[i].id <==> k == i
    {
      assert RecordedAt(db, k);
    }
  }

  lemma OneEventMore(events: seq<Event>, n: nat, id: Uuid)
    requires 0 < n <= |events|
    ensures EventsOf(events[..n], id) ==
            EventsOf(events[..n - 1], id) + (if events[n - 1].aggregateId == id then [events[n - 1]] else [])
  {
    assert events[..n][..n - 1] == events[..n - 1];
  }

  /** Only event i belongs to id. */
  lemma {:induction false} EventsUpTo(events: seq<Event>, id: Uuid, i: nat, n: nat)
    requires i < |events| && n <= |events|
    requires forall k :: 0 <= k < |events| ==> (events[k].aggregateId == id <==> k == i)
    ensures EventsOf(events[..n], id) == if i < n then [events[i]] else []
  {
    if n > 0 {
      EventsUpTo(events, id, i, n - 1);
      OneEventMore(events, n, id);
    }
  }

  lemma TotalSnoc(entries: seq<Entry>, e: Entry)
    ensures Total(entries + [e]) == Total(entries) + e.cents
  {
    assert (entries + [e])[..|entries|] == entries;
  }

  lemma TotalOfPair(a: Entry, b: Entry)
    ensures Total([a, b]) == a.cents + b.cents
  {
    TotalSnoc([], a);
    TotalSnoc([a], b);
    assert [] + [a] == [a] && [a] + [b] == [a, b];
  }

  /** Each committed transaction has exactly two entries, which sum to zero, and exactly one event. */
  lemma ExactlyTwoEntriesOneEvent(env: Env, db: Db, i: nat)
    requires Inv(env, db) && i < |db.txns|
    ensures |EntriesOf(db.entries, db.txns[i].id)| == 2
    ensures TxnSum(db.entries, db.txns[i].id) == 0
    ensures |EventsOf(db.events, db.txns[i].id)| == 1
  {
    OwnedRows(db, i);
    PairsUpTo(db.entries, db.txns[i].id, i, |db.txns|);
    EventsUpTo(db.events, db.txns[i].id, i, |db.txns|);
    assert db.entries[..2 * |db.txns|] == db.entries && db.events[..|db.txns|] == db.events;
    assert RecordedAt(db, i);
    TotalOfPair(db.entries[2 * i], db.entries[2 * i + 1]);
  }

  /** No committed entry or event lacks its transaction, and no entry its account. */
  lemma NothingOrphaned(env: Env, db: Db)
    requires Inv(env, db)
    ensures forall e :: e in db.entries ==>
      FindTxn(db.txns, e.txnId).Some? && FindAccount(db.accounts, e.accountId).Some?
    ensures forall e :: e in db.events ==> FindTxn(db.txns, e.aggregateId).Some?
  {
    EntryAccounts(db);
    forall k | 0 <= k < |db.entries|
      ensures FindTxn(db.txns, db.entries[k].txnId).Some?
    {
      assert RecordedAt(db, k / 2);
      assert k == 2 * (k / 2) || k == 2 * (k / 2) + 1;
      FindTxnMeaning(db.txns, db.entries[k].txnId);
    }
    forall k | 0 <= k < |db.events|
      ensures FindTxn(db.txns, db.events[k].aggregateId).Some?
    {
      assert RecordedAt(db, k);
      FindTxnMeaning(db.txns, db.events[k].aggregateId);
    }
  }

  /** The audit passes on every state that satisfies the invariant, hence on every reachable one. */
  lemma InvariantPassesAudit(env: Env, db: Db)
    requires Inv(env, db)
    ensures Sound(db)
  {
    TotalIsZero(db);
    NothingOrphaned(env, db);
    forall id | id in Groups(db.entries)
      ensures TxnSum(db.entries, id) == 0
    {
      if i :| 0 <= i < |db.txns| && db.txns[i].id == id {
        ExactlyTwoEntriesOneEvent(env, db, i);
      } else {
        forall e | e in db.entries
          ensures e.txnId != id
        {
          FindTxnMeaning(db.txns, e.txnId);
        }
        NoEntriesNoSum(db.entries, id);
      }
    }
  }

  // ----- What a passing audit does not show -----

  function CountOverTxns(txns: seq<Txn>, entries: seq<Entry>): nat {
    if txns == [] then 0 else |EntriesOf(entries, txns[0].id)| + CountOverTxns(txns[1..], entries)
  }

  lemma {:induction false} CountOverNothing(txns: seq<Txn>)
    ensures CountOverTxns(txns, []) == 0
  {
    if txns != [] {
      CountOverNothing(txns[1..]);
    }
  }

  lemma {:induction false} CountLast(txns: seq<Txn>, entries: seq<Entry>)
    requires entries != [] && forall i, j :: 0 <= i < j < |txns| ==> txns[i].id != txns[j].id
    ensures CountOverTxns(txns, entries) == CountOverTxns(txns, entries[..|entries| - 1]) +
            (if FindTxn(txns, entries[|entries| - 1].txnId).Some? then 1 else 0)
  {
    if txns != [] {
      CountLast(txns[1..], entries);
      FindTxnMeaning(txns[1..], entries[|entries| - 1].txnId);
      assert forall i :: 0 <= i < |txns[1..]| ==> txns[1..][i] == txns[i + 1];
    }
  }

  lemma {:induction false} CountsAddUp(txns: seq<Txn>, entries: seq<Entry>)
    requires forall i, j :: 0 <= i < j < |txns| ==> txns[i].id != txns[j].id
    requires forall e :: e in entries ==> FindTxn(txns, e.txnId).Some?
    ensures CountOverTxns(txns, entries) == |entries|
  {
    if entries == [] {
      CountOverNothing(txns);
    } else {
      assert entries[|entries| - 1] in entries;
      CountsAddUp(txns, entries[..|entries| - 1]);
      CountLast(txns, entries);
    }
  }

  lemma {:induction false} AllAtLeastTwo(txns: seq<Txn>, entries: seq<Entry>)
    requires forall t :: t in txns ==> |EntriesOf(entries, t.id)| >= 2
    ensures CountOverTxns(txns, entries) >= 2 * |txns|
    ensures CountOverTxns(txns, entries) == 2 * |txns| ==> forall t :: t in txns ==> |EntriesOf(entries, t.id)| == 2
  {
    if txns != [] {
      assert txns == [txns[0]] + txns[1..] && txns[0] in txns;
      AllAtLeastTwo(txns[1..], entries);
    }
  }

  /** The entry-count check compares totals only: on a sound table, every transaction has exactly two entries if and
      only if none has fewer than two. */
  lemma EntryCountCheckShows(db: Db)
    requires Sound(db) && forall i, j :: 0 <= i < j < |db.txns| ==> db.txns[i].id != db.txns[j].id
    ensures (forall t :: t in db.txns ==> |EntriesOf(db.entries, t.id)| == 2) <==>
            (forall t :: t in db.txns ==> |EntriesOf(db.entries, t.id)| >= 2)
  {
    CountsAddUp(db.txns, db.entries);
    if forall t :: t in db.txns ==> |EntriesOf(db.entries, t.id)| >= 2 {
      AllAtLeastTwo(db.txns, db.entries);
    }
  }

  lemma EntriesOfSnoc(entries: seq<Entry>, e: Entry)
    ensures EntriesOf(entries + [e], e.txnId) == EntriesOf(entries, e.txnId) + [e]
    ensures e.txnId in Groups(entries) ==> Groups(entries + [e]) == Groups(entries)
  {
    assert (entries + [e])[..|entries|] == entries;
  }

  function FourEntries(txnId: Uuid, account: Uuid): seq<Entry> {
    [] + [Entry(1, txnId, account, -1)] + [Entry(2, txnId, account, 1)] + [Entry(3, txnId, account, -1)] +
    [Entry(4, txnId, account, 1)]
  }

  lemma FourEntriesSum(txnId: Uuid, account: Uuid)
    ensures Total(FourEntries(txnId, account)) == 0
    ensures EntriesOf(FourEntries(txnId, account), txnId) == FourEntries(txnId, account)
    ensures Groups(FourEntries(txnId, account)) == [txnId]
  {
    var a, b := Entry(1, txnId, account, -1), Entry(2, txnId, account, 1);
    var c, d := Entry(3, txnId, account, -1), Entry(4, txnId, account, 1);
    var one, two, three := [] + [a], [] + [a] + [b], [] + [a] + [b] + [c];
    TotalSnoc([], a);
    TotalSnoc(one, b);
    TotalSnoc(two, c);
    TotalSnoc(three, d);
    EntriesOfSnoc([], a);
    EntriesOfSnoc(one, b);
    EntriesOfSnoc(two, c);
    EntriesOfSnoc(three, d);
    assert one[..0] == [] && Groups(one) == [txnId];
  }

  /** One transaction with four entries hides another with none. */
  lemma UnevenEntriesPass(t: Txn, u: Txn, a: Account)
    requires t.id != u.id && t.key != u.key
    ensures Sound(Db([a], [t, u], FourEntries(t.id, a.id), []))
    ensures EntriesOf(FourEntries(t.id, a.id), u.id) == []
  {
    FourEntriesSum(t.id, a.id);
    NoEntriesNoSum(FourEntries(t.id, a.id), u.id);
  }
}
