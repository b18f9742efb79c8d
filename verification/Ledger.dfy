/** What one request does when nothing else runs: the reference the concurrent protocol is measured against. */
module Ledger {
  import opened Values
  import opened Text
  import opened Chain

  const EXTERNAL_CLEARING := "External Clearing"

  /** Everything a request can wait for: two advisory locks, row locks, and in-flight inserts of a unique value. */
  datatype Lock = ClearingLock | NameLock(name: string) | RowLock(id: Uuid) | KeyLock(key: string) | ChainLock

  // ----- Queries -----

  function FindName(accounts: seq<Account>, name: string): Option<Account> {
    if accounts == [] then None
    else if accounts[0].name == name then Some(accounts[0])
    else FindName(accounts[1..], name)
  }

  function FindAccount(accounts: seq<Account>, id: Uuid): Option<Account> {
    if accounts == [] then None
    else if accounts[0].id == id then Some(accounts[0])
    else FindAccount(accounts[1..], id)
  }

  function FindKey(txns: seq<Txn>, key: string): Option<Txn> {
    if txns == [] then None
    else if txns[0].key == key then Some(txns[0])
    else FindKey(txns[1..], key)
  }

  /** coalesce(sum(amount), 0) over the entries of one account. */
  function Balance(entries: seq<Entry>, account: Uuid): int {
    if entries == [] then 0
    else (if entries[0].accountId == account then entries[0].cents else 0) + Balance(entries[1..], account)
  }

  function ClearingOf(accounts: seq<Account>): Option<Account> {
    FindName(accounts, EXTERNAL_CLEARING)
  }

  // ----- The pieces of create_transaction -----

  function CanonicalOf(req: Request): Canonical {
    Canonical(req.kind, DecimalText(req.amount), req.account, req.from, req.to, req.reference)
  }

  function RequestHash(env: Env, req: Request): Digest {
    env.request(CanonicalOf(req))
  }

  /** The 422 answers that need no query. */
  predicate Malformed(req: Request) {
    if req.kind == Transfer then req.from.None? || req.to.None? || req.from == req.to
    else req.account.None?
  }

  /** Identifiers and clock of one request, drawn from uuid4 and now(). */
  datatype Draw = Draw(accountId: Uuid, txnId: Uuid, debitId: Uuid, creditId: Uuid, eventId: Uuid, now: int)

  function Cents(req: Request): int {
    StoredCents(req.amount)
  }

  /** The account that pays; the clearing id matters to deposits only. */
  function Debited(req: Request, clearing: Uuid): Uuid {
    match req.kind
    case Deposit => clearing
    case Withdrawal => req.account.Or(0)
    case Transfer => req.from.Or(0)
  }

  function Credited(req: Request, clearing: Uuid): Uuid {
    match req.kind
    case Deposit => req.account.Or(0)
    case Withdrawal => clearing
    case Transfer => req.to.Or(0)
  }

  /** The rows to lock, in id order; a deposit naming the clearing account lists it twice. */
  function LockList(req: Request, clearing: Uuid): seq<Uuid> {
    var a, b := Debited(req, clearing), Credited(req, clearing);
    if a <= b then [a, b] else [b, a]
  }

  function NewClearing(draw: Draw): Account {
    Account(draw.accountId, EXTERNAL_CLEARING, true)
  }

  function NewTxn(env: Env, req: Request, draw: Draw): Txn {
    Txn(draw.txnId, req.key, req.kind, Cents(req), RequestHash(env, req), None, None, None, req.reference, draw.now)
  }

  function LinkedTxn(env: Env, seen: seq<Txn>, req: Request, draw: Draw): Txn {
    Link(env, seen, NewTxn(env, req, draw), QuantizedCents(req.amount))
  }

  function NewEntries(req: Request, clearing: Uuid, draw: Draw): seq<Entry> {
    [Entry(draw.debitId, draw.txnId, Debited(req, clearing), -Cents(req)),
     Entry(draw.creditId, draw.txnId, Credited(req, clearing), Cents(req))]
  }

  function NewEvent(req: Request, draw: Draw): Event {
    Event(draw.eventId, draw.txnId, "transaction." + TypeText(req.kind),
          EventPayload(UuidText(draw.txnId), TypeText(req.kind), DecimalText(req.amount), req.key, req.reference),
          draw.now)
  }

  // ----- One request from beginning to end -----

  datatype Response =
    | Created(txnId: Uuid)
    | Opened(accountId: Uuid)
    | Replayed(txnId: Uuid)
    | Conflict
    | Unprocessable
    | NotFound(accountId: Uuid)
    | InsufficientBalance
    | IntegrityError
    | Aborted

  datatype Outcome = Outcome(db: Db, response: Response)

  /** The clearing account this request will use, and the account row it must add for that, if any. */
  function ClearingFor(db: Db, req: Request, draw: Draw): (Uuid, seq<Account>) {
    if req.kind == Transfer then (0, [])
    else
      match ClearingOf(db.accounts)
      case Some(a) => (a.id, [])
      case None => (draw.accountId, [NewClearing(draw)])
  }

  function FirstMissing(accounts: seq<Account>, ids: seq<Uuid>): Option<Uuid> {
    if ids == [] then None
    else if FindAccount(accounts, ids[0]).None? then Some(ids[0])
    else FirstMissing(accounts, ids[1..])
  }

  predicate Funded(entries: seq<Entry>, req: Request, clearing: Uuid) {
    req.kind != Deposit ==> Balance(entries, Debited(req, clearing)) >= Cents(req)
  }

  /** Everything a successful request adds, in one commit. */
  function Delta(env: Env, db: Db, req: Request, draw: Draw): Db {
    var (clearing, added) := ClearingFor(db, req, draw);
    Db(added, [LinkedTxn(env, db.txns, req, draw)], NewEntries(req, clearing, draw), [NewEvent(req, draw)])
  }

  lemma DeltaRows(env: Env, db: Db, req: Request, draw: Draw)
    ensures var (clearing, added) := ClearingFor(db, req, draw);
      Delta(env, db, req, draw) ==
      Db(added,
         [LinkedTxn(env, db.txns, req, draw)],
         [Entry(draw.debitId, draw.txnId, Debited(req, clearing), -Cents(req)),
          Entry(draw.creditId, draw.txnId, Credited(req, clearing), Cents(req))],
         [NewEvent(req, draw)])
  {
  }

  /** The part of create_transaction under the row locks. */
  function Record(env: Env, db: Db, req: Request, draw: Draw): Outcome {
    var (clearing, added) := ClearingFor(db, req, draw);
    match FirstMissing(db.accounts + added, LockList(req, clearing))
    case Some(id) => Outcome(db, NotFound(id))
    case None =>
      if !Funded(db.entries, req, clearing) then Outcome(db, InsufficientBalance)
      else Outcome(Apply(db, Delta(env, db, req, draw)), Created(draw.txnId))
  }

  function CreateTransaction(env: Env, db: Db, req: Request, draw: Draw): Outcome {
    match FindKey(db.txns, req.key)
    case Some(t) => Outcome(db, if t.requestHash == RequestHash(env, req) then Replayed(t.id) else Conflict)
    case None =>
      if Malformed(req) then Outcome(db, Unprocessable) else Record(env, db, req, draw)
  }

  /** post_account. */
  function OpenAccount(db: Db, name: string, draw: Draw): Outcome {
    if FindName(db.accounts, name).Some? then Outcome(db, Conflict)
    else Outcome(Apply(db, EMPTY.(accounts := [Account(draw.accountId, name, false)])), Opened(draw.accountId))
  }

  datatype Job = Post(req: Request) | Open(name: string)

  function Perform(env: Env, db: Db, job: Job, draw: Draw): Outcome {
    match job
    case Post(req) => CreateTransaction(env, db, req, draw)
    case Open(name) => OpenAccount(db, name, draw)
  }

  // ----- Queries over appended rows -----

  lemma {:induction false} FindNameAppend(a: seq<Account>, b: seq<Account>, name: string)
    ensures FindName(a + b, name) == if FindName(a, name).Some? then FindName(a, name) else FindName(b, name)
  {
    if a == [] {
      assert a + b == b;
    } else {
      assert (a + b)[1..] == a[1..] + b;
      FindNameAppend(a[1..], b, name);
    }
  }

  lemma {:induction false} FindAccountAppend(a: seq<Account>, b: seq<Account>, id: Uuid)
    ensures FindAccount(a + b, id) == if FindAccount(a, id).Some? then FindAccount(a, id) else FindAccount(b, id)
  {
    if a == [] {
      assert a + b == b;
    } else {
      assert (a + b)[1..] == a[1..] + b;
      FindAccountAppend(a[1..], b, id);
    }
  }

  lemma {:induction false} FindKeyAppend(a: seq<Txn>, b: seq<Txn>, key: string)
    ensures FindKey(a + b, key) == if FindKey(a, key).Some? then FindKey(a, key) else FindKey(b, key)
  {
    if a == [] {
      assert a + b == b;
    } else {
      assert (a + b)[1..] == a[1..] + b;
      FindKeyAppend(a[1..], b, key);
    }
  }

  lemma {:induction false} BalanceAppend(a: seq<Entry>, b: seq<Entry>, account: Uuid)
    ensures Balance(a + b, account) == Balance(a, account) + Balance(b, account)
  {
    if a == [] {
      assert a + b == b;
    } else {
      assert (a + b)[1..] == a[1..] + b;
      BalanceAppend(a[1..], b, account);
    }
  }

  lemma {:induction false} FindNameMeaning(accounts: seq<Account>, name: string)
    ensures FindName(accounts, name).None? <==> forall i :: 0 <= i < |accounts| ==> accounts[i].name != name
    ensures FindName(accounts, name).Some? ==>
      FindName(accounts, name).value in accounts && FindName(accounts, name).value.name == name
  {
    if accounts != [] {
      FindNameMeaning(accounts[1..], name);
      assert forall i :: 0 < i < |accounts| ==> accounts[i] == accounts[1..][i - 1];
    }
  }

  lemma {:induction false} FindAccountMeaning(accounts: seq<Account>, id: Uuid)
    ensures FindAccount(accounts, id).None? <==> forall i :: 0 <= i < |accounts| ==> accounts[i].id != id
    ensures FindAccount(accounts, id).Some? ==>
      FindAccount(accounts, id).value in accounts && FindAccount(accounts, id).value.id == id
  {
    if accounts != [] {
      FindAccountMeaning(accounts[1..], id);
      assert forall i :: 0 < i < |accounts| ==> accounts[i] == accounts[1..][i - 1];
    }
  }

  lemma {:induction false} FindKeyMeaning(txns: seq<Txn>, key: string)
    ensures FindKey(txns, key).None? <==> forall i :: 0 <= i < |txns| ==> txns[i].key != key
    ensures FindKey(txns, key).Some? ==> FindKey(txns, key).value in txns && FindKey(txns, key).value.key == key
  {
    if txns != [] {
      FindKeyMeaning(txns[1..], key);
      assert forall i :: 0 < i < |txns| ==> txns[i] == txns[1..][i - 1];
    }
  }

  lemma {:induction false} BalanceUntouched(entries: seq<Entry>, account: Uuid)
    requires forall e :: e in entries ==> e.accountId != account
    ensures Balance(entries, account) == 0
  {
    if entries != [] {
      assert entries[0] in entries;
      BalanceUntouched(entries[1..], account);
    }
  }

  lemma PairBalance(req: Request, clearing: Uuid, draw: Draw, account: Uuid)
    ensures Balance(NewEntries(req, clearing, draw), account) ==
            (if Credited(req, clearing) == account then Cents(req) else 0) -
            (if Debited(req, clearing) == account then Cents(req) else 0)
  {
    var es := NewEntries(req, clearing, draw);
    assert es[1..] == [es[1]] && es[1..][1..] == [];
    assert Balance(es[1..], account) == if Credited(req, clearing) == account then Cents(req) else 0;
  }
}
