/** What every committed state satisfies, and that one sequential request keeps it. */
module Invariant {
  import opened Values
  import opened Text
  import opened Chain
  import opened Ledger

  // ----- Uniqueness -----

  ghost predicate UniqueAccounts(accounts: seq<Account>) {
    forall i, j :: 0 <= i < j < |accounts| ==> accounts[i].id != accounts[j].id && accounts[i].name != accounts[j].name
  }

  ghost predicate UniqueTxns(txns: seq<Txn>) {
    forall i, j :: 0 <= i < j < |txns| ==> txns[i].id != txns[j].id && txns[i].key != txns[j].key
  }

  ghost predicate UniqueEntries(entries: seq<Entry>) {
    forall i, j :: 0 <= i < j < |entries| ==> entries[i].id != entries[j].id
  }

  ghost predicate UniqueEvents(events: seq<Event>) {
    forall i, j :: 0 <= i < j < |events| ==> events[i].id != events[j].id
  }

  /** uuid4 draws nothing that any table already uses as a primary key. */
  ghost predicate FreshDraw(db: Db, draw: Draw) {
    && (forall i :: 0 <= i < |db.accounts| ==> db.accounts[i].id != draw.accountId)
    && (forall i :: 0 <= i < |db.txns| ==> db.txns[i].id != draw.txnId)
    && (forall i :: 0 <= i < |db.entries| ==> db.entries[i].id != draw.debitId && db.entries[i].id != draw.creditId)
    && draw.debitId != draw.creditId
    && (forall i :: 0 <= i < |db.events| ==> db.events[i].id != draw.eventId)
  }

  // ----- Transactions, entries and events correspond -----

  predicate IsClearing(accounts: seq<Account>, id: Uuid) {
    ClearingOf(accounts).Some? && ClearingOf(accounts).value.id == id
  }

  predicate Balanced(accounts: seq<Account>, t: Txn, debit: Entry, credit: Entry) {
    && t.cents > 0
    && debit.txnId == t.id && debit.cents == -t.cents
    && credit.txnId == t.id && credit.cents == t.cents
    && FindAccount(accounts, debit.accountId).Some?
    && FindAccount(accounts, credit.accountId).Some?
    && (t.kind == Deposit ==> IsClearing(accounts, debit.accountId))
    && (t.kind == Withdrawal ==> IsClearing(accounts, credit.accountId) && !IsClearing(accounts, debit.accountId))
    && (t.kind == Transfer ==> debit.accountId != credit.accountId && !IsClearing(accounts, debit.accountId))
  }

  predicate Announced(t: Txn, e: Event) {
    && e.aggregateId == t.id
    && e.eventType == "transaction." + TypeText(t.kind)
    && e.payload.txnId == UuidText(t.id)
    && e.payload.kind == TypeText(t.kind)
    && e.payload.key == t.key
    && e.payload.reference == t.reference
  }

  predicate RecordedAt(db: Db, i: nat)
    requires i < |db.txns| && 2 * |db.txns| == |db.entries| && |db.txns| == |db.events|
  {
    && Balanced(db.accounts, db.txns[i], db.entries[2 * i], db.entries[2 * i + 1])
    && Announced(db.txns[i], db.events[i])
  }

  /** Transaction i owns entries 2i and 2i+1 and event i, and nothing else is in the tables. */
  ghost predicate Recorded(db: Db) {
    && 2 * |db.txns| == |db.entries|
    && |db.txns| == |db.events|
    && forall i :: 0 <= i < |db.txns| ==> RecordedAt(db, i)
  }

  ghost predicate Solvent(db: Db) {
    forall i :: 0 <= i < |db.accounts| && db.accounts[i].name != EXTERNAL_CLEARING ==>
      Balance(db.entries, db.accounts[i].id) >= 0
  }

  ghost predicate Inv(env: Env, db: Db) {
    && UniqueAccounts(db.accounts)
    && UniqueTxns(db.txns)
    && UniqueEntries(db.entries)
    && UniqueEvents(db.events)
    && Recorded(db)
    && Linear(env, db.txns)
    && (forall t :: t in db.txns ==> Honest(t))
    && Solvent(db)
  }

  /** A database on which no transaction has run yet, with any accounts the unique constraints allow. */
  ghost predicate Fresh(db: Db) {
    UniqueAccounts(db.accounts) && db == EMPTY.(accounts := db.accounts)
  }

  lemma FreshInv(env: Env, db: Db)
    requires Fresh(db)
    ensures Inv(env, db)
  {
  }

  // ----- Facts about invariant states -----

  /** Every entry's account exists. */
  lemma EntryAccounts(db: Db)
    requires Recorded(db)
    ensures forall k :: 0 <= k < |db.entries| ==> FindAccount(db.accounts, db.entries[k].accountId).Some?
  {
    forall k | 0 <= k < |db.entries|
      ensures FindAccount(db.accounts, db.entries[k].accountId).Some?
    {
      assert RecordedAt(db, k / 2);
      assert k == 2 * (k / 2) || k == 2 * (k / 2) + 1;
    }
  }

  lemma SameAccount(accounts: seq<Account>, i: nat, j: nat)
    requires UniqueAccounts(accounts) && i < |accounts| && j < |accounts|
    requires accounts[i].id == accounts[j].id || accounts[i].name == accounts[j].name
    ensures i == j
  {
  }

  lemma ClearingByName(accounts: seq<Account>, i: nat)
    requires UniqueAccounts(accounts) && i < |accounts|
    ensures IsClearing(accounts, accounts[i].id) <==> accounts[i].name == EXTERNAL_CLEARING
  {
    FindNameMeaning(accounts, EXTERNAL_CLEARING);
    if ClearingOf(accounts).Some? {
      var j :| 0 <= j < |accounts| && accounts[j] == ClearingOf(accounts).value;
      if accounts[j].id == accounts[i].id || accounts[i].name == EXTERNAL_CLEARING {
        SameAccount(accounts, i, j);
      }
    }
  }

  lemma FindAccountIndex(accounts: seq<Account>, id: Uuid) returns (i: nat)
    requires FindAccount(accounts, id).Some?
    ensures i < |accounts| && accounts[i].id == id
  {
    FindAccountMeaning(accounts, id);
    i :| 0 <= i < |accounts| && accounts[i].id == id;
  }

  // ----- Adding accounts keeps what is recorded -----

  lemma MoreAccountsBalanced(accounts: seq<Account>, added: seq<Account>, t: Txn, debit: Entry, credit: Entry)
    requires Balanced(accounts, t, debit, credit)
    requires UniqueAccounts(accounts + added)
    ensures Balanced(accounts + added, t, debit, credit)
  {
    FindAccountAppend(accounts, added, debit.accountId);
    FindAccountAppend(accounts, added, credit.accountId);
    FindNameAppend(accounts, added, EXTERNAL_CLEARING);
    if t.kind != Deposit {
      StillNotClearing(accounts, added, debit.accountId);
    }
  }

  lemma StillNotClearing(accounts: seq<Account>, added: seq<Account>, id: Uuid)
    requires UniqueAccounts(accounts + added)
    requires FindAccount(accounts, id).Some? && !IsClearing(accounts, id)
    ensures !IsClearing(accounts + added, id)
  {
    var i := FindAccountIndex(accounts, id);
    assert (accounts + added)[i] == accounts[i];
    assert UniqueAccounts(accounts) by {
      assert forall k :: 0 <= k < |accounts| ==> accounts[k] == (accounts + added)[k];
    }
    ClearingByName(accounts, i);
    ClearingByName(accounts + added, i);
  }

  lemma AddAccount(accounts: seq<Account>, a: Account)
    requires UniqueAccounts(accounts)
    requires FindName(accounts, a.name).None? && forall i :: 0 <= i < |accounts| ==> accounts[i].id != a.id
    ensures UniqueAccounts(accounts + [a])
  {
    FindNameMeaning(accounts, a.name);
  }

  // ----- A successful transaction keeps the invariant -----

  lemma ClearingForIsClearing(db: Db, req: Request, draw: Draw)
    requires UniqueAccounts(db.accounts) && FreshDraw(db, draw)
    ensures var (clearing, added) := ClearingFor(db, req, draw);
      && UniqueAccounts(db.accounts + added)
      && (req.kind != Transfer ==> IsClearing(db.accounts + added, clearing))
      && forall a :: a in added ==> a == NewClearing(draw)
  {
    var (clearing, added) := ClearingFor(db, req, draw);
    FindNameAppend(db.accounts, added, EXTERNAL_CLEARING);
    if added == [] {
      assert db.accounts + added == db.accounts;
    } else {
      AddAccount(db.accounts, NewClearing(draw));
    }
  }

  lemma NoneMissing(accounts: seq<Account>, req: Request, clearing: Uuid)
    requires FirstMissing(accounts, LockList(req, clearing)).None?
    ensures FindAccount(accounts, Debited(req, clearing)).Some?
    ensures FindAccount(accounts, Credited(req, clearing)).Some?
  {
    var ids := LockList(req, clearing);
    assert ids[1..] == [ids[1]];
    assert FirstMissing(accounts, ids[1..]).None?;
  }

  lemma {:induction false} SumOfEntryPairs(db: Db, n: nat)
    requires Recorded(db) && n <= |db.txns|
    ensures Total(db.entries[..2 * n]) == 0
  {
    if n > 0 {
      SumOfEntryPairs(db, n - 1);
      assert RecordedAt(db, n - 1);
      var es := db.entries[..2 * n];
      assert es[..|es| - 1][..|es| - 2] == db.entries[..2 * (n - 1)];
    }
  }

  /** coalesce(sum(amount), 0) over all entries. */
  function Total(entries: seq<Entry>): int {
    if entries == [] then 0 else Total(entries[..|entries| - 1]) + entries[|entries| - 1].cents
  }

  lemma TotalIsZero(db: Db)
    requires Recorded(db)
    ensures Total(db.entries) == 0
  {
    SumOfEntryPairs(db, |db.txns|);
    assert db.entries[..2 * |db.txns|] == db.entries;
  }

  function SumOfBalances(accounts: seq<Account>, entries: seq<Entry>): int {
    if accounts == [] then 0 else Balance(entries, accounts[0].id) + SumOfBalances(accounts[1..], entries)
  }

  /** The balances of all accounts except the clearing account. */
  function OtherBalances(accounts: seq<Account>, entries: seq<Entry>): int {
    if accounts == [] then 0
    else (if accounts[0].name == EXTERNAL_CLEARING then 0 else Balance(entries, accounts[0].id)) +
         OtherBalances(accounts[1..], entries)
  }

  lemma {:induction false} BalancesOfNothing(accounts: seq<Account>)
    ensures SumOfBalances(accounts, []) == 0
  {
    if accounts != [] {
      BalancesOfNothing(accounts[1..]);
    }
  }

  lemma BalanceOfLast(entries: seq<Entry>, account: Uuid)
    requires entries != []
    ensures var last := entries[|entries| - 1];
      Balance(entries, account) ==
      Balance(entries[..|entries| - 1], account) + (if last.accountId == account then last.cents else 0)
  {
    var front, last := entries[..|entries| - 1], entries[|entries| - 1];
    BalanceAppend(front, [last], account);
    assert front + [last] == entries;
    assert Balance([last], account) == (if last.accountId == account then last.cents else 0) by {
      assert [last][1..] == [];
    }
  }

  /** An entry adds its amount to the sum once per account row with its id. */
  lemma {:induction false} SumOfBalancesLast(accounts: seq<Account>, entries: seq<Entry>)
    requires entries != []
    requires forall i, j :: 0 <= i < j < |accounts| ==> accounts[i].id != accounts[j].id
    ensures var last := entries[|entries| - 1];
      SumOfBalances(accounts, entries) ==
      SumOfBalances(accounts, entries[..|entries| - 1]) +
      (if FindAccount(accounts, last.accountId).Some? then last.cents else 0)
  {
    if accounts != [] {
      var last := entries[|entries| - 1];
      BalanceOfLast(entries, accounts[0].id);
      SumOfBalancesLast(accounts[1..], entries);
      FindAccountMeaning(accounts[1..], last.accountId);
      assert forall i :: 0 <= i < |accounts[1..]| ==> accounts[1..][i] == accounts[i + 1];
    }
  }

  /** With no orphaned account reference, the total grouped by account is the global sum. */
  lemma {:induction false} GroupedByAccount(accounts: seq<Account>, entries: seq<Entry>)
    requires forall i, j :: 0 <= i < j < |accounts| ==> accounts[i].id != accounts[j].id
    requires forall k :: 0 <= k < |entries| ==> FindAccount(accounts, entries[k].accountId).Some?
    ensures SumOfBalances(accounts, entries) == Total(entries)
  {
    if entries == [] {
      BalancesOfNothing(accounts);
    } else {
      GroupedByAccount(accounts, entries[..|entries| - 1]);
      SumOfBalancesLast(accounts, entries);
    }
  }

  lemma {:induction false} SplitOffClearing(accounts: seq<Account>, entries: seq<Entry>)
    requires UniqueAccounts(accounts)
    ensures SumOfBalances(accounts, entries) == OtherBalances(accounts, entries) +
      (match ClearingOf(accounts) case Some(c) => Balance(entries, c.id) case None => 0)
  {
    if accounts != [] {
      assert UniqueAccounts(accounts[1..]);
      SplitOffClearing(accounts[1..], entries);
      FindNameMeaning(accounts[1..], EXTERNAL_CLEARING);
      if accounts[0].name == EXTERNAL_CLEARING {
        assert ClearingOf(accounts[1..]).None?;
      }
    }
  }

  lemma {:induction false} OthersNonNegative(accounts: seq<Account>, entries: seq<Entry>)
    requires forall i :: 0 <= i < |accounts| && accounts[i].name != EXTERNAL_CLEARING ==>
      Balance(entries, accounts[i].id) >= 0
    ensures OtherBalances(accounts, entries) >= 0
  {
    if accounts != [] {
      assert forall i :: 0 <= i < |accounts[1..]| ==> accounts[1..][i] == accounts[i + 1];
      OthersNonNegative(accounts[1..], entries);
    }
  }

  /** The clearing account always holds minus the sum of all other balances, and so is never positive. */
  lemma ClearingMirrorsOthers(env: Env, db: Db, clearing: Account)
    requires Inv(env, db) && ClearingOf(db.accounts) == Some(clearing)
    ensures Balance(db.entries, clearing.id) == -OtherBalances(db.accounts, db.entries) <= 0
  {
    EntryAccounts(db);
    TotalIsZero(db);
    GroupedByAccount(db.accounts, db.entries);
    SplitOffClearing(db.accounts, db.entries);
    OthersNonNegative(db.accounts, db.entries);
  }

  /** A withdrawal or transfer out of the clearing account is refused for its balance, though no branch says so. */
  lemma ClearingNeverPays(env: Env, db: Db, req: Request, draw: Draw, clearing: Account)
    requires Inv(env, db) && Accepted(req) && ClearingOf(db.accounts) == Some(clearing)
    requires req.kind != Deposit && !Malformed(req) && Debited(req, clearing.id) == clearing.id
    requires FindKey(db.txns, req.key).None?
    ensures CreateTransaction(env, db, req, draw) ==
            Outcome(db, if FindAccount(db.accounts, Credited(req, clearing.id)).None?
                        then NotFound(Credited(req, clearing.id)) else InsufficientBalance)
  {
    ClearingMirrorsOthers(env, db, clearing);
    QuantizeSurvivesStorage(req.amount);
    FindNameMeaning(db.accounts, EXTERNAL_CLEARING);
    FindAccountMeaning(db.accounts, clearing.id);
    var (id, added) := ClearingFor(db, req, draw);
    var ids := LockList(req, id);
    assert added == [] && db.accounts + added == db.accounts;
    assert ids[1..] == [ids[1]] && ids[1..][1..] == [];
    assert FirstMissing(db.accounts, ids[1..]) == if FindAccount(db.accounts, ids[1]).None? then Some(ids[1]) else None;
  }

  // ----- Preservation -----

  lemma RecordedAfter(env: Env, db: Db, req: Request, draw: Draw, clearing: Uuid, added: seq<Account>)
    requires Recorded(db) && UniqueAccounts(db.accounts + added)
    requires (clearing, added) == ClearingFor(db, req, draw)
    requires Balanced(db.accounts + added, LinkedTxn(env, db.txns, req, draw),
                      NewEntries(req, clearing, draw)[0], NewEntries(req, clearing, draw)[1])
    ensures Recorded(Apply(db, Delta(env, db, req, draw)))
  {
    var after := Apply(db, Delta(env, db, req, draw));
    forall i | 0 <= i < |after.txns|
      ensures RecordedAt(after, i)
    {
      if i < |db.txns| {
        assert RecordedAt(db, i);
        MoreAccountsBalanced(db.accounts, added, db.txns[i], db.entries[2 * i], db.entries[2 * i + 1]);
      } else {
        assert after.entries[2 * i] == NewEntries(req, clearing, draw)[0];
        assert after.entries[2 * i + 1] == NewEntries(req, clearing, draw)[1];
        assert Announced(after.txns[i], NewEvent(req, draw));
      }
    }
  }

  /** The new pair is balanced between existing accounts, and the clearing account does not pay. */
  lemma NewPairBalanced(env: Env, db: Db, req: Request, draw: Draw, clearing: Uuid, added: seq<Account>)
    requires Inv(env, db) && FreshDraw(db, draw) && Accepted(req) && !Malformed(req)
    requires (clearing, added) == ClearingFor(db, req, draw)
    requires FirstMissing(db.accounts + added, LockList(req, clearing)).None?
    requires Funded(db.entries, req, clearing)
    ensures Balanced(db.accounts + added, LinkedTxn(env, db.txns, req, draw),
                     NewEntries(req, clearing, draw)[0], NewEntries(req, clearing, draw)[1])
  {
    ClearingForIsClearing(db, req, draw);
    NoneMissing(db.accounts + added, req, clearing);
    QuantizeSurvivesStorage(req.amount);
    if req.kind != Deposit {
      PayerIsNotClearing(env, db, req, draw, clearing, added);
    }
  }

  lemma PayerIsNotClearing(env: Env, db: Db, req: Request, draw: Draw, clearing: Uuid, added: seq<Account>)
    requires Inv(env, db) && FreshDraw(db, draw) && Accepted(req) && req.kind != Deposit
    requires (clearing, added) == ClearingFor(db, req, draw)
    requires Funded(db.entries, req, clearing)
    ensures !IsClearing(db.accounts + added, Debited(req, clearing))
  {
    QuantizeSurvivesStorage(req.amount);
    FindNameAppend(db.accounts, added, EXTERNAL_CLEARING);
    match ClearingOf(db.accounts)
    case Some(c) => ClearingMirrorsOthers(env, db, c);
    case None =>
      EntryAccounts(db);
      FindAccountMeaning(db.accounts, draw.accountId);
      BalanceUntouched(db.entries, draw.accountId);
  }

  lemma SolventAfter(env: Env, db: Db, req: Request, draw: Draw, clearing: Uuid, added: seq<Account>)
    requires Inv(env, db) && FreshDraw(db, draw) && Accepted(req)
    requires (clearing, added) == ClearingFor(db, req, draw)
    requires UniqueAccounts(db.accounts + added) && (req.kind != Transfer ==> IsClearing(db.accounts + added, clearing))
    requires Funded(db.entries, req, clearing)
    ensures Solvent(Apply(db, Delta(env, db, req, draw)))
  {
    var after := Apply(db, Delta(env, db, req, draw));
    var pair := NewEntries(req, clearing, draw);
    forall i | 0 <= i < |after.accounts| && after.accounts[i].name != EXTERNAL_CLEARING
      ensures Balance(after.entries, after.accounts[i].id) >= 0
    {
      var id := after.accounts[i].id;
      assert i < |db.accounts| && after.accounts[i] == db.accounts[i];
      BalanceAppend(db.entries, pair, id);
      PairBalance(req, clearing, draw, id);
      if req.kind == Deposit {
        ClearingByName(after.accounts, i);
      }
    }
  }

  lemma UniqueAfter(env: Env, db: Db, req: Request, draw: Draw)
    requires Inv(env, db) && FreshDraw(db, draw) && FindKey(db.txns, req.key).None?
    ensures var after := Apply(db, Delta(env, db, req, draw));
      UniqueTxns(after.txns) && UniqueEntries(after.entries) && UniqueEvents(after.events)
  {
    hide LinkedTxn, NewEvent;
    NewRows(env, db, req, draw);
    DeltaRows(env, db, req, draw);
    FindKeyMeaning(db.txns, req.key);
    AddTxn(db.txns, LinkedTxn(env, db.txns, req, draw));
    AddEvent(db.events, NewEvent(req, draw));
  }

  lemma NewRows(env: Env, db: Db, req: Request, draw: Draw)
    ensures LinkedTxn(env, db.txns, req, draw).id == draw.txnId && LinkedTxn(env, db.txns, req, draw).key == req.key
    ensures NewEvent(req, draw).id == draw.eventId
  {
  }

  lemma AddTxn(txns: seq<Txn>, t: Txn)
    requires UniqueTxns(txns) && forall i :: 0 <= i < |txns| ==> txns[i].id != t.id && txns[i].key != t.key
    ensures UniqueTxns(txns + [t])
  {
  }

  lemma AddEvent(events: seq<Event>, e: Event)
    requires UniqueEvents(events) && forall i :: 0 <= i < |events| ==> events[i].id != e.id
    ensures UniqueEvents(events + [e])
  {
  }

  lemma LinearAfter(env: Env, db: Db, req: Request, draw: Draw)
    requires Linear(env, db.txns) && Accepted(req)
    ensures Linear(env, db.txns + [LinkedTxn(env, db.txns, req, draw)])
  {
    QuantizeSurvivesStorage(req.amount);
    LinkKeepsLinear(env, db.txns, NewTxn(env, req, draw));
  }

  /** A request, whatever its answer, keeps the invariant. */
  lemma CreateKeepsInv(env: Env, db: Db, req: Request, draw: Draw)
    requires Inv(env, db) && FreshDraw(db, draw) && Accepted(req)
    ensures Inv(env, CreateTransaction(env, db, req, draw).db)
  {
    if CreateTransaction(env, db, req, draw).response.Created? {
      var (clearing, added) := ClearingFor(db, req, draw);
      ClearingForIsClearing(db, req, draw);
      NewPairBalanced(env, db, req, draw, clearing, added);
      RecordedAfter(env, db, req, draw, clearing, added);
      SolventAfter(env, db, req, draw, clearing, added);
      UniqueAfter(env, db, req, draw);
      LinearAfter(env, db, req, draw);
    }
  }

  lemma OpenKeepsInv(env: Env, db: Db, name: string, draw: Draw)
    requires Inv(env, db) && FreshDraw(db, draw)
    ensures Inv(env, OpenAccount(db, name, draw).db)
  {
    if FindName(db.accounts, name).None? {
      var a := Account(draw.accountId, name, false);
      var after := OpenAccount(db, name, draw).db;
      AddAccount(db.accounts, a);
      EntryAccounts(db);
      FindAccountMeaning(db.accounts, a.id);
      BalanceUntouched(db.entries, a.id);
      assert after.entries == db.entries && after.txns == db.txns && after.events == db.events;
      forall i | 0 <= i < |after.txns|
        ensures RecordedAt(after, i)
      {
        assert RecordedAt(db, i);
        MoreAccountsBalanced(db.accounts, [a], db.txns[i], db.entries[2 * i], db.entries[2 * i + 1]);
      }
    }
  }

  predicate AcceptedJob(job: Job) {
    job.Post? ==> Accepted(job.req)
  }

  lemma PerformKeepsInv(env: Env, db: Db, job: Job, draw: Draw)
    requires Inv(env, db) && FreshDraw(db, draw) && AcceptedJob(job)
    ensures Inv(env, Perform(env, db, job, draw).db)
  {
    match job
    case Post(req) => CreateKeepsInv(env, db, req, draw);
    case Open(name) => OpenKeepsInv(env, db, name, draw);
  }

  // ----- What a successful request does, in the client's terms -----

  /** By how much a request changes an account: the named accounts move, the clearing account takes the other side. */
  function Movement(accounts: seq<Account>, req: Request, id: Uuid): int {
    var named := if req.account == Some(id) then Cents(req) else 0;
    var clearing := if IsClearing(accounts, id) then Cents(req) else 0;
    match req.kind
    case Deposit => named - clearing
    case Withdrawal => clearing - named
    case Transfer => (if req.to == Some(id) then Cents(req) else 0) - (if req.from == Some(id) then Cents(req) else 0)
  }

  /** A created transaction moves exactly the requested amount between exactly the requested accounts and touches no
      other balance; any other answer leaves the ledger as it was. */
  lemma MovesMoney(env: Env, db: Db, req: Request, draw: Draw, id: Uuid)
    requires Inv(env, db) && FreshDraw(db, draw)
    ensures var out := CreateTransaction(env, db, req, draw);
      if out.response.Created?
      then Balance(out.db.entries, id) == Balance(db.entries, id) + Movement(out.db.accounts, req, id)
      else out.db == db
  {
    if CreateTransaction(env, db, req, draw).response.Created? {
      var (clearing, added) := ClearingFor(db, req, draw);
      ClearingForIsClearing(db, req, draw);
      BalanceAppend(db.entries, NewEntries(req, clearing, draw), id);
      PairBalance(req, clearing, draw, id);
    }
  }

  /** It adds one row that says what was asked for, and at most the clearing account. */
  lemma RecordsRequest(env: Env, db: Db, req: Request, draw: Draw)
    requires Inv(env, db) && FreshDraw(db, draw) && CreateTransaction(env, db, req, draw).response.Created?
    ensures var after := CreateTransaction(env, db, req, draw).db;
      && |after.txns| == |db.txns| + 1 && after.txns[..|db.txns|] == db.txns
      && (var t := after.txns[|db.txns|];
          && t.id == draw.txnId && t.createdAt == draw.now
          && t.key == req.key && t.kind == req.kind && t.reference == req.reference
          && t.cents == StoredCents(req.amount)
          && t.requestHash ==
             env.request(Canonical(req.kind, DecimalText(req.amount), req.account, req.from, req.to, req.reference))
          && t.chainSeq == Some(|after.txns|))
      && |after.events| == |db.events| + 1 && after.events[..|db.events|] == db.events
      && after.events[|db.events|] ==
         Event(draw.eventId, draw.txnId, "transaction." + TypeText(req.kind),
               EventPayload(UuidText(draw.txnId), TypeText(req.kind), DecimalText(req.amount), req.key, req.reference),
               draw.now)
      && TypeText(req.kind) ==
         (match req.kind case Deposit => "deposit" case Withdrawal => "withdrawal" case Transfer => "transfer")
      && (after.accounts == db.accounts || (ClearingOf(db.accounts).None? && req.kind != Transfer &&
          after.accounts == db.accounts + [Account(draw.accountId, "External Clearing", true)]))
  {
    var (clearing, added) := ClearingFor(db, req, draw);
    NumberedNext(env, db, req, draw);
    if added == [] {
      assert db.accounts + added == db.accounts;
    }
  }

  /** Two entries of one transaction: the payer's with the amount below zero, the receiver's with the amount. */
  predicate PairFor(accounts: seq<Account>, req: Request, draw: Draw, debit: Entry, credit: Entry) {
    && debit == Entry(draw.debitId, draw.txnId, debit.accountId, 0 - StoredCents(req.amount))
    && credit == Entry(draw.creditId, draw.txnId, credit.accountId, StoredCents(req.amount))
    && match req.kind
       case Deposit => IsClearing(accounts, debit.accountId) && req.account == Some(credit.accountId)
       case Withdrawal => req.account == Some(debit.accountId) && IsClearing(accounts, credit.accountId)
       case Transfer => req.from == Some(debit.accountId) && req.to == Some(credit.accountId)
  }

  /** And it adds that pair and no other entry. */
  lemma RecordsEntries(env: Env, db: Db, req: Request, draw: Draw)
    requires Inv(env, db) && FreshDraw(db, draw) && CreateTransaction(env, db, req, draw).response.Created?
    ensures
      exists debit, credit ::
        && CreateTransaction(env, db, req, draw).db.entries == db.entries + [debit, credit]
        && PairFor(CreateTransaction(env, db, req, draw).db.accounts, req, draw, debit, credit)
  {
    hide LinkedTxn, NewEvent, FirstMissing;
    ClearingForIsClearing(db, req, draw);
    var pair := NewEntries(req, ClearingFor(db, req, draw).0, draw);
    assert PairFor(CreateTransaction(env, db, req, draw).db.accounts, req, draw, pair[0], pair[1]);
  }

  lemma NumberedNext(env: Env, db: Db, req: Request, draw: Draw)
    requires Linear(env, db.txns)
    ensures LinkedTxn(env, db.txns, req, draw).chainSeq == Some(|db.txns| + 1)
  {
    TipOfLinear(env, db.txns);
  }
}
