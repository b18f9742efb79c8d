/** Which answer a request gets, in terms of the rows of the tables and the fields of the request alone. */
module Acceptance {
  import opened Values
  import opened Ledger
  import opened Invariant

  ghost predicate HasRow(accounts: seq<Account>, id: Uuid) {
    exists a :: a in accounts && a.id == id
  }

  ghost predicate KeyFree(txns: seq<Txn>, key: string) {
    forall t :: t in txns ==> t.key != key
  }

  lemma RowFound(accounts: seq<Account>, id: Uuid)
    ensures FindAccount(accounts, id).Some? <==> HasRow(accounts, id)
  {
    FindAccountMeaning(accounts, id);
    if HasRow(accounts, id) {
      var a :| a in accounts && a.id == id;
      var i :| 0 <= i < |accounts| && accounts[i] == a;
      assert accounts[i].id == id;
    }
  }

  lemma KeyFound(txns: seq<Txn>, key: string)
    ensures FindKey(txns, key).None? <==> KeyFree(txns, key)
    ensures FindKey(txns, key).Some? ==> FindKey(txns, key).value in txns && FindKey(txns, key).value.key == key
  {
    FindKeyMeaning(txns, key);
  }

  /** The lock loop stops at the smaller id that has no row. */
  lemma FirstMissingOfTwo(accounts: seq<Account>, a: Uuid, b: Uuid)
    ensures FirstMissing(accounts, [a, b]) ==
            if FindAccount(accounts, a).None? then Some(a)
            else if FindAccount(accounts, b).None? then Some(b)
            else None
  {
    assert [a, b][1..] == [b] && [b][1..] == [];
    assert FirstMissing(accounts, [b]) == if FindAccount(accounts, b).None? then Some(b) else None;
  }

  /** The clearing account a deposit or withdrawal uses has a row, found or pending; a request that does not name the
      id drawn for it sees no other row than the committed ones. */
  lemma ClearingHasRow(db: Db, req: Request, draw: Draw)
    requires req.kind != Transfer
    ensures var (clearing, added) := ClearingFor(db, req, draw);
      && FindAccount(db.accounts + added, clearing).Some?
      && forall id: Uuid :: id != draw.accountId ==>
           FindAccount(db.accounts + added, id) == FindAccount(db.accounts, id)
  {
    var (clearing, added) := ClearingFor(db, req, draw);
    FindNameMeaning(db.accounts, EXTERNAL_CLEARING);
    FindAccountMeaning(db.accounts, clearing);
    FindAccountAppend(db.accounts, added, clearing);
    forall id: Uuid | id != draw.accountId
      ensures FindAccount(db.accounts + added, id) == FindAccount(db.accounts, id)
    {
      FindAccountAppend(db.accounts, added, id);
      assert added != [] ==> added[1..] == [];
    }
  }

  lemma MissingOutside(db: Db, req: Request, draw: Draw, id: Uuid)
    requires req.kind != Transfer && req.account == Some(id) && id != draw.accountId
    ensures var (clearing, added) := ClearingFor(db, req, draw);
      FirstMissing(db.accounts + added, LockList(req, clearing)) ==
      if HasRow(db.accounts, id) then None else Some(id)
  {
    var (clearing, added) := ClearingFor(db, req, draw);
    ClearingHasRow(db, req, draw);
    RowFound(db.accounts, id);
    FirstMissingOfTwo(db.accounts + added, clearing, id);
    FirstMissingOfTwo(db.accounts + added, id, clearing);
  }

  lemma MissingInside(db: Db, req: Request, draw: Draw, from: Uuid, to: Uuid)
    requires req.kind == Transfer && req.from == Some(from) && req.to == Some(to)
    ensures var (clearing, added) := ClearingFor(db, req, draw);
      && added == []
      && FirstMissing(db.accounts + added, LockList(req, clearing)) ==
         if HasRow(db.accounts, from) && HasRow(db.accounts, to) then None
         else if HasRow(db.accounts, from) || (!HasRow(db.accounts, to) && to < from) then Some(to)
         else Some(from)
  {
    var (clearing, added) := ClearingFor(db, req, draw);
    assert db.accounts + added == db.accounts;
    RowFound(db.accounts, from);
    RowFound(db.accounts, to);
    FirstMissingOfTwo(db.accounts, from, to);
    FirstMissingOfTwo(db.accounts, to, from);
  }

  /** A request is accepted exactly when its key is free, it names the accounts its type needs, two different ones for a
      transfer, each of them exists, and the payer of a withdrawal or transfer has the amount. */
  lemma CreatedExactly(env: Env, db: Db, req: Request, draw: Draw)
    requires req.account != Some(draw.accountId)
    ensures CreateTransaction(env, db, req, draw).response == Created(draw.txnId) <==>
      && KeyFree(db.txns, req.key)
      && match req.kind
         case Deposit => req.account.Some? && HasRow(db.accounts, req.account.value)
         case Withdrawal =>
           && req.account.Some? && HasRow(db.accounts, req.account.value)
           && Balance(db.entries, req.account.value) >= StoredCents(req.amount)
         case Transfer =>
           && req.from.Some? && req.to.Some? && req.from.value != req.to.value
           && HasRow(db.accounts, req.from.value) && HasRow(db.accounts, req.to.value)
           && Balance(db.entries, req.from.value) >= StoredCents(req.amount)
  {
    hide FirstMissing, HasRow;
    KeyFound(db.txns, req.key);
    if req.kind == Transfer && req.from.Some? && req.to.Some? {
      MissingInside(db, req, draw, req.from.value, req.to.value);
    } else if req.kind != Transfer && req.account.Some? {
      MissingOutside(db, req, draw, req.account.value);
    }
  }

  /** And what each other answer says, exactly. */
  lemma RefusedExactly(env: Env, db: Db, req: Request, draw: Draw)
    requires req.account != Some(draw.accountId)
    ensures CreateTransaction(env, db, req, draw).response == Unprocessable <==>
      && KeyFree(db.txns, req.key)
      && if req.kind == Transfer then req.from.None? || req.to.None? || req.from.value == req.to.value
         else req.account.None?
    ensures forall id: Uuid :: CreateTransaction(env, db, req, draw).response == NotFound(id) <==>
      && KeyFree(db.txns, req.key)
      && !HasRow(db.accounts, id)
      && if req.kind != Transfer then req.account == Some(id)
         else
           && req.from.Some? && req.to.Some? && req.from.value != req.to.value
           && (id == req.from.value || id == req.to.value)
           && (id > req.from.value ==> HasRow(db.accounts, req.from.value))
           && (id > req.to.value ==> HasRow(db.accounts, req.to.value))
    ensures CreateTransaction(env, db, req, draw).response == InsufficientBalance <==>
      && KeyFree(db.txns, req.key)
      && match req.kind
         case Deposit => false
         case Withdrawal =>
           && req.account.Some? && HasRow(db.accounts, req.account.value)
           && Balance(db.entries, req.account.value) < StoredCents(req.amount)
         case Transfer =>
           && req.from.Some? && req.to.Some? && req.from.value != req.to.value
           && HasRow(db.accounts, req.from.value) && HasRow(db.accounts, req.to.value)
           && Balance(db.entries, req.from.value) < StoredCents(req.amount)
  {
    hide FirstMissing, HasRow;
    KeyFound(db.txns, req.key);
    if req.kind == Transfer && req.from.Some? && req.to.Some? {
      MissingInside(db, req, draw, req.from.value, req.to.value);
    } else if req.kind != Transfer && req.account.Some? {
      MissingOutside(db, req, draw, req.account.value);
    }
  }

  /** A committed key decides the answer alone: the row under it is replayed to the request with its hash, and any other
      request is a conflict. */
  lemma RepeatedExactly(env: Env, db: Db, req: Request, draw: Draw)
    requires UniqueTxns(db.txns)
    ensures forall id: Uuid :: CreateTransaction(env, db, req, draw).response == Replayed(id) <==>
      exists t :: t in db.txns && t.key == req.key && t.id == id && t.requestHash == RequestHash(env, req)
    ensures CreateTransaction(env, db, req, draw).response == Conflict <==>
      exists t :: t in db.txns && t.key == req.key && t.requestHash != RequestHash(env, req)
  {
    hide FirstMissing, RequestHash;
    KeyFound(db.txns, req.key);
    forall t | t in db.txns && t.key == req.key
      ensures FindKey(db.txns, req.key) == Some(t)
    {
      OneRowPerKey(db.txns, t, FindKey(db.txns, req.key).value);
    }
  }

  lemma OneRowPerKey(txns: seq<Txn>, t: Txn, u: Txn)
    requires UniqueTxns(txns) && t in txns && u in txns && t.key == u.key
    ensures t == u
  {
  }

  /** An account is opened exactly when its name is free, and then it alone is added, without privileges. */
  lemma OpenedExactly(db: Db, name: string, draw: Draw)
    ensures
      var out := OpenAccount(db, name, draw);
      if forall a :: a in db.accounts ==> a.name != name
      then out == Outcome(db.(accounts := db.accounts + [Account(draw.accountId, name, false)]), Opened(draw.accountId))
      else out == Outcome(db, Conflict)
  {
    FindNameMeaning(db.accounts, name);
    assert db.txns + [] == db.txns && db.entries + [] == db.entries && db.events + [] == db.events;
  }
}
