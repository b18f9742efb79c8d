/** What the audit reports on any tables, sound or not, in terms of the rows its queries read. */
module AuditMeaning {
  import opened Values
  import opened Ledger
  import opened Invariant
  import opened Audit

  // ----- Entry counts -----

  /** The entry counts of all accounts together. */
  ghost function SumOfCounts(accounts: seq<Account>, entries: seq<Entry>): nat {
    if accounts == [] then 0 else |EntriesNaming(entries, accounts[0].id)| + SumOfCounts(accounts[1..], entries)
  }

  lemma {:induction false} CountsOfNothing(accounts: seq<Account>)
    ensures SumOfCounts(accounts, []) == 0
  {
    if accounts != [] {
      assert EntriesNaming([], accounts[0].id) == {};
      CountsOfNothing(accounts[1..]);
    }
  }

  lemma NamingOneMore(entries: seq<Entry>, account: Uuid)
    requires entries != []
    ensures |EntriesNaming(entries, account)| == |EntriesNaming(entries[..|entries| - 1], account)| +
            if entries[|entries| - 1].accountId == account then 1 else 0
  {
    EntryCountMeaning(entries, account);
    EntryCountMeaning(entries[..|entries| - 1], account);
  }

  lemma {:induction false} SumOfCountsLast(accounts: seq<Account>, entries: seq<Entry>)
    requires entries != []
    requires forall i, j :: 0 <= i < j < |accounts| ==> accounts[i].id != accounts[j].id
    ensures SumOfCounts(accounts, entries) == SumOfCounts(accounts, entries[..|entries| - 1]) +
            if FindAccount(accounts, entries[|entries| - 1].accountId).Some? then 1 else 0
  {
    if accounts != [] {
      var last := entries[|entries| - 1];
      NamingOneMore(entries, accounts[0].id);
      SumOfCountsLast(accounts[1..], entries);
      FindAccountMeaning(accounts[1..], last.accountId);
      assert forall i :: 0 <= i < |accounts[1..]| ==> accounts[1..][i] == accounts[i + 1];
    }
  }

  /** With unique account ids and no orphaned account reference, the entry counts of all accounts add up to the number
      of entries. */
  lemma {:induction false} EntryCountsAddUp(accounts: seq<Account>, entries: seq<Entry>)
    requires forall i, j :: 0 <= i < j < |accounts| ==> accounts[i].id != accounts[j].id
    requires forall k :: 0 <= k < |entries| ==> FindAccount(accounts, entries[k].accountId).Some?
    ensures SumOfCounts(accounts, entries) == |entries|
  {
    if entries == [] {
      CountsOfNothing(accounts);
    } else {
      EntryCountsAddUp(accounts, entries[..|entries| - 1]);
      SumOfCountsLast(accounts, entries);
    }
  }

  // ----- The queries -----

  ghost predicate NoTxn(txns: seq<Txn>, id: Uuid) {
    forall t :: t in txns ==> t.id != id
  }

  ghost predicate NoAccount(accounts: seq<Account>, id: Uuid) {
    forall a :: a in accounts ==> a.id != id
  }

  /** The positions of the entries whose transaction has no row. */
  ghost function WithoutTxn(entries: seq<Entry>, txns: seq<Txn>): set<int> {
    set k | 0 <= k < |entries| && NoTxn(txns, entries[k].txnId)
  }

  /** The positions of the entries whose account has no row. */
  ghost function WithoutAccount(entries: seq<Entry>, accounts: seq<Account>): set<int> {
    set k | 0 <= k < |entries| && NoAccount(accounts, entries[k].accountId)
  }

  lemma WithoutTxnLast(entries: seq<Entry>, txns: seq<Txn>)
    requires entries != []
    ensures |WithoutTxn(entries, txns)| == |WithoutTxn(entries[..|entries| - 1], txns)| +
            if NoTxn(txns, entries[|entries| - 1].txnId) then 1 else 0
  {
    hide NoTxn;
    var n := |entries| - 1;
    assert WithoutTxn(entries, txns) ==
           WithoutTxn(entries[..n], txns) + if NoTxn(txns, entries[n].txnId) then {n} else {};
  }

  lemma {:induction false} TxnOrphans(entries: seq<Entry>, txns: seq<Txn>)
    ensures OrphanTxnRefs(entries, txns) == |WithoutTxn(entries, txns)|
  {
    hide NoTxn, FindTxn;
    if entries != [] {
      TxnOrphans(entries[..|entries| - 1], txns);
      NotFoundIsNoTxn(txns, entries[|entries| - 1].txnId);
      WithoutTxnLast(entries, txns);
    }
  }

  lemma NotFoundIsNoTxn(txns: seq<Txn>, id: Uuid)
    ensures FindTxn(txns, id).None? <==> NoTxn(txns, id)
  {
    FindTxnMeaning(txns, id);
  }

  lemma WithoutAccountLast(entries: seq<Entry>, accounts: seq<Account>)
    requires entries != []
    ensures |WithoutAccount(entries, accounts)| == |WithoutAccount(entries[..|entries| - 1], accounts)| +
            if NoAccount(accounts, entries[|entries| - 1].accountId) then 1 else 0
  {
    hide NoAccount;
    var n := |entries| - 1;
    assert WithoutAccount(entries, accounts) ==
           WithoutAccount(entries[..n], accounts) + if NoAccount(accounts, entries[n].accountId) then {n} else {};
  }

  lemma {:induction false} AccountOrphans(entries: seq<Entry>, accounts: seq<Account>)
    ensures OrphanAccountRefs(entries, accounts) == |WithoutAccount(entries, accounts)|
  {
    hide NoAccount, FindAccount;
    if entries != [] {
      AccountOrphans(entries[..|entries| - 1], accounts);
      NotFoundIsNoAccount(accounts, entries[|entries| - 1].accountId);
      WithoutAccountLast(entries, accounts);
    }
  }

  lemma NotFoundIsNoAccount(accounts: seq<Account>, id: Uuid)
    ensures FindAccount(accounts, id).None? <==> NoAccount(accounts, id)
  {
    FindAccountMeaning(accounts, id);
  }

  lemma KeysAreKeys(txns: seq<Txn>)
    ensures Keys(txns) == set i | 0 <= i < |txns| :: txns[i].key
  {
    KeysMembers(txns);
  }

  lemma {:induction false} GroupsExactly(entries: seq<Entry>)
    ensures forall id :: id in Groups(entries) <==> exists e :: e in entries && e.txnId == id
  {
    if entries != [] {
      GroupsExactly(entries[..|entries| - 1]);
      assert entries == entries[..|entries| - 1] + [entries[|entries| - 1]];
    }
  }

  /** The entries of a transaction are those that name it, each as often as the table holds it. */
  lemma {:induction false} EntriesOfExactly(entries: seq<Entry>, txnId: Uuid, e: Entry)
    ensures multiset(EntriesOf(entries, txnId))[e] == if e.txnId == txnId then multiset(entries)[e] else 0
  {
    if entries != [] {
      EntriesOfExactly(entries[..|entries| - 1], txnId, e);
      assert entries == entries[..|entries| - 1] + [entries[|entries| - 1]];
    }
  }

  // ----- The report -----

  /** The fault is one that the queries show. */
  ghost predicate Shown(v: Views, d: Discrepancy) {
    match d
    case GlobalSum(sum) => sum == Total(v.sum.entries) && sum != 0
    case UnbalancedTxn(row) =>
      (exists e :: e in v.groups.entries && e.txnId == row.txnId) &&
      row.sum == Total(EntriesOf(v.groups.entries, row.txnId)) && row.sum != 0
    case Orphans(txnRefs, accountRefs) =>
      && txnRefs == |WithoutTxn(v.orphanTxns.entries, v.orphanTxns.txns)|
      && accountRefs == |WithoutAccount(v.orphanAccounts.entries, v.orphanAccounts.accounts)|
      && (txnRefs > 0 || accountRefs > 0)
    case DuplicateKeys(total, unique) =>
      && total == |v.total.txns|
      && unique == |set i | 0 <= i < |v.unique.txns| :: v.unique.txns[i].key|
      && total != unique
    case WrongEntryCount(expected, found) =>
      expected == 2 * |v.txns.txns| && found == |v.entries.entries| && expected != found
  }

  /** The five checks in the order the audit makes them. */
  function Check(d: Discrepancy): nat {
    match d
    case GlobalSum(_) => 0
    case UnbalancedTxn(_) => 1
    case Orphans(_, _) => 2
    case DuplicateKeys(_, _) => 3
    case WrongEntryCount(_, _) => 4
  }

  lemma OneCheckEach(v: Views)
    ensures forall d :: d in GlobalFaults(v.sum) <==> Check(d) == 0 && Shown(v, d)
    ensures forall d :: d in OrphanFaults(v.orphanTxns, v.orphanAccounts) <==> Check(d) == 2 && Shown(v, d)
    ensures forall d :: d in KeyFaults(v.total, v.unique) <==> Check(d) == 3 && Shown(v, d)
    ensures forall d :: d in CountFaults(v.entries, v.txns) <==> Check(d) == 4 && Shown(v, d)
  {
    hide Total, OrphanTxnRefs, OrphanAccountRefs, Keys, EntriesOf;
    TxnOrphans(v.orphanTxns.entries, v.orphanTxns.txns);
    AccountOrphans(v.orphanAccounts.entries, v.orphanAccounts.accounts);
    KeysAreKeys(v.unique.txns);
  }

  lemma GroupCheck(v: Views)
    ensures forall d ::
      d in Listed(Unbalanced(v.groups.entries, Groups(v.groups.entries))) <==> Check(d) == 1 && Shown(v, d)
  {
    var rows := Unbalanced(v.groups.entries, Groups(v.groups.entries));
    UnbalancedMeaning(v.groups.entries, Groups(v.groups.entries));
    ListedMeaning(rows);
    GroupsExactly(v.groups.entries);
    forall d
      ensures d in Listed(rows) <==> Check(d) == 1 && Shown(v, d)
    {
      if d.UnbalancedTxn? {
        assert d in Listed(rows) <==> d.row in rows;
      }
    }
  }

  /** A fault is reported exactly when the rows read show it, with the numbers they show. */
  lemma ReportedExactly(v: Views, d: Discrepancy)
    ensures d in Faults(v) <==> Shown(v, d)
  {
    hide GlobalFaults, Listed, Unbalanced, Groups, OrphanFaults, KeyFaults, CountFaults, Shown;
    OneCheckEach(v);
    GroupCheck(v);
    assert Check(d) <= 4;
  }

  lemma {:induction false} ListedAt(rows: seq<GroupRow>)
    ensures |Listed(rows)| == |rows| && forall k :: 0 <= k < |rows| ==> Listed(rows)[k] == UnbalancedTxn(rows[k])
  {
    if rows != [] {
      ListedAt(rows[..|rows| - 1]);
    }
  }

  lemma {:induction false} OneRowPerGroup(entries: seq<Entry>, groups: seq<Uuid>)
    requires forall i, j :: 0 <= i < j < |groups| ==> groups[i] != groups[j]
    ensures forall i, j :: 0 <= i < j < |Unbalanced(entries, groups)| ==>
      Unbalanced(entries, groups)[i].txnId != Unbalanced(entries, groups)[j].txnId
  {
    if groups != [] {
      var rows, rest := Unbalanced(entries, groups), Unbalanced(entries, groups[1..]);
      OneRowPerGroup(entries, groups[1..]);
      UnbalancedMeaning(entries, groups[1..]);
      assert groups[0] !in groups[1..];
      forall j | 0 <= j < |rest|
        ensures rest[j].txnId != groups[0]
      {
        assert rest[j] in rest;
      }
      assert rows == rest || (rows == [rows[0]] + rest && rows[0].txnId == groups[0]);
    }
  }

  /** The first fault is of an earlier check, or both are of the second check and name different transactions. */
  predicate ReportedBefore(a: Discrepancy, b: Discrepancy) {
    Check(a) < Check(b) || (a.UnbalancedTxn? && b.UnbalancedTxn? && a.row.txnId != b.row.txnId)
  }

  /** Faults are reported in the order of the checks: a transaction once, any other check at most once. */
  lemma ReportedInOrder(v: Views, x: nat, y: nat)
    requires x < y < |Faults(v)|
    ensures ReportedBefore(Faults(v)[x], Faults(v)[y])
  {
    hide Total, Unbalanced, Groups, Listed, OrphanTxnRefs, OrphanAccountRefs, Keys;
    var rows := Unbalanced(v.groups.entries, Groups(v.groups.entries));
    ListedAt(rows);
    GroupsMeaning(v.groups.entries);
    OneRowPerGroup(v.groups.entries, Groups(v.groups.entries));
    forall i, j | 0 <= i < j < |Listed(rows)|
      ensures ReportedBefore(Listed(rows)[i], Listed(rows)[j])
    {
      assert Listed(rows)[i] == UnbalancedTxn(rows[i]) && Listed(rows)[j] == UnbalancedTxn(rows[j]);
    }
    InOrderAcross(GlobalFaults(v.sum), Listed(rows), OrphanFaults(v.orphanTxns, v.orphanAccounts),
                  KeyFaults(v.total, v.unique), CountFaults(v.entries, v.txns), x, y);
  }

  lemma InOrderAcross(
      global: seq<Discrepancy>, listed: seq<Discrepancy>, orphans: seq<Discrepancy>, keys: seq<Discrepancy>,
      counts: seq<Discrepancy>, x: nat, y: nat)
    requires |global| <= 1 && |orphans| <= 1 && |keys| <= 1 && |counts| <= 1
    requires forall i :: 0 <= i < |global| ==> Check(global[i]) == 0
    requires forall i :: 0 <= i < |listed| ==> Check(listed[i]) == 1
    requires forall i :: 0 <= i < |orphans| ==> Check(orphans[i]) == 2
    requires forall i :: 0 <= i < |keys| ==> Check(keys[i]) == 3
    requires forall i :: 0 <= i < |counts| ==> Check(counts[i]) == 4
    requires forall i, j :: 0 <= i < j < |listed| ==> ReportedBefore(listed[i], listed[j])
    requires x < y < |global + listed + orphans + keys + counts|
    ensures var all := global + listed + orphans + keys + counts; ReportedBefore(all[x], all[y])
  {
    hide Check, ReportedBefore;
    var all := global + listed + orphans + keys + counts;
    EarlierCheck(all[x], all[y]);
  }

  lemma EarlierCheck(a: Discrepancy, b: Discrepancy)
    ensures Check(a) < Check(b) ==> ReportedBefore(a, b)
  {
  }
}
