/** The service functions as they run: one database session that reads, adds pending rows, and commits or rolls back. */
module Session {
  import opened Values
  import opened Chain
  import opened Ledger

  class DbSession {
    const env: Env
    var committed: Db
    var pending: Db
    /** The locks of the open transaction, in the order they were taken. */
    var held: seq<Lock>

    constructor (env: Env, db: Db)
      ensures this.env == env && committed == db && Idle()
    {
      this.env := env;
      committed := db;
      pending := EMPTY;
      held := [];
    }

    predicate Idle()
      reads this
    {
      pending == EMPTY && held == []
    }

    /** What a query of this session sees. */
    function Visible(): Db
      reads this
    {
      Apply(committed, pending)
    }

    method Rollback()
      modifies this`pending, this`held
      ensures Idle()
    {
      pending := EMPTY;
      held := [];
    }

    method Commit()
      modifies this
      ensures committed == old(Visible()) && Idle()
    {
      committed := Apply(committed, pending);
      pending := EMPTY;
      held := [];
    }

    /** Waiting for an advisory lock: when it is granted, the commits of other requests in the meantime are visible. */
    method Await(lock: Lock, meanwhile: Db)
      modifies this`committed, this`held
      ensures committed == Apply(old(committed), meanwhile) && held == old(held) + [lock]
    {
      committed := Apply(committed, meanwhile);
      held := held + [lock];
    }

    /** meanwhile is what others commit while this request waits for the advisory lock. The second lookup finds a
        clearing account that was created then; only if there is still none, one is added. */
    method GetOrCreateClearingAccount(draw: Draw, meanwhile: Db) returns (account: Account)
      modifies this
      ensures ClearingOf(old(Visible()).accounts).Some? ==>
        && account == ClearingOf(old(Visible()).accounts).value
        && pending == old(pending) && held == old(held) && committed == old(committed)
      ensures ClearingOf(old(Visible()).accounts).None? ==> committed == Apply(old(committed), meanwhile)
      ensures ClearingOf(old(Visible()).accounts).None? ==>
        var now := Apply(committed, old(pending));
        if ClearingOf(now.accounts).Some?
        then account == ClearingOf(now.accounts).value && pending == old(pending) && held == old(held) + [ClearingLock]
        else && account == NewClearing(draw) && pending == Apply(old(pending), EMPTY.(accounts := [account]))
             && held == old(held) + [ClearingLock, NameLock(EXTERNAL_CLEARING)]
    {
      var found := ClearingOf(Visible().accounts);
      if found.Some? {
        return found.value;
      }
      Await(ClearingLock, meanwhile);
      found := ClearingOf(Visible().accounts);
      if found.Some? {
        return found.value;
      }
      account := NewClearing(draw);
      pending := Apply(pending, EMPTY.(accounts := [account]));
      held := held + [NameLock(EXTERNAL_CLEARING)];
    }

    /** Locks the rows in id order; stops at the first id without a row. */
    method LockAccounts(a: Uuid, b: Uuid) returns (missing: Option<Uuid>, accounts: seq<Account>)
      modifies this`held
      ensures missing == FirstMissing(Visible().accounts, if a <= b then [a, b] else [b, a])
      ensures
        var lower, higher := if a <= b then a else b, if a <= b then b else a;
        if FindAccount(Visible().accounts, lower).None? then missing == Some(lower) && held == old(held)
        else if FindAccount(Visible().accounts, higher).None? then
          missing == Some(higher) && held == old(held) + [RowLock(lower)]
        else missing == None && held == old(held) + [RowLock(lower), RowLock(higher)]
      ensures missing.None? ==>
        |accounts| == 2 && {accounts[0].id, accounts[1].id} == {a, b} && accounts[0].id <= accounts[1].id
      ensures missing.None? ==> accounts[0] in Visible().accounts && accounts[1] in Visible().accounts
    {
      var ids := if a <= b then [a, b] else [b, a];
      accounts := [];
      for i := 0 to |ids|
        invariant FirstMissing(Visible().accounts, ids) == FirstMissing(Visible().accounts, ids[i..])
        invariant held == old(held) + [RowLock(ids[0]), RowLock(ids[1])][..i]
        invariant forall k :: 0 <= k < i ==> FindAccount(Visible().accounts, ids[k]).Some?
        invariant |accounts| == i
        invariant forall k :: 0 <= k < i ==> accounts[k].id == ids[k] && accounts[k] in Visible().accounts
      {
        var account := FindAccount(Visible().accounts, ids[i]);
        FindAccountMeaning(Visible().accounts, ids[i]);
        assert ids[i..][1..] == ids[i + 1..];
        if account.None? {
          return Some(ids[i]), accounts;
        }
        held := held + [RowLock(ids[i])];
        accounts := accounts + [account.value];
      }
      return None, accounts;
    }

    /** link_transaction: waits for the chain lock, then numbers the pending row and chains it to the tip. */
    method LinkTransaction(cents: int, meanwhile: Db)
      requires |pending.txns| == 1 && pending.txns[0].chainSeq == None
      modifies this
      ensures committed == Apply(old(committed), meanwhile)
      ensures pending == old(pending).(txns := [Link(env, committed.txns, old(pending).txns[0], cents)])
      ensures held == old(held) + [ChainLock]
    {
      Await(ChainLock, meanwhile);
      var txn := pending.txns[0];
      var prev := Tip(Visible().txns);
      assert Visible().txns == committed.txns + [txn];
      TipIgnoresUnlinked(committed.txns, txn);
      var prevHash := if prev.Some? then prev.value.chainHash else Some(GENESIS_HASH);
      var chainSeq := if prev.Some? then prev.value.chainSeq.Or(0) + 1 else 1;
      txn := txn.(chainSeq := Some(chainSeq));
      txn := txn.(prevHash := prevHash);
      txn := txn.(chainHash := Some(ChainHash(env, txn, cents, prevHash)));
      pending := pending.(txns := [txn]);
    }

    /** Adds the transaction row, its two entries, its link and its event, all still pending. */
    method AddTransaction(req: Request, draw: Draw, debit: Uuid, credit: Uuid)
      requires pending.txns == [] && pending.entries == [] && pending.events == []
      modifies this
      ensures committed == old(committed)
      ensures held == old(held) + [KeyLock(req.key), ChainLock]
      ensures pending == Db(
        old(pending).accounts,
        [LinkedTxn(env, committed.txns, req, draw)],
        [Entry(draw.debitId, draw.txnId, debit, -Cents(req)), Entry(draw.creditId, draw.txnId, credit, Cents(req))],
        [NewEvent(req, draw)])
    {
      pending := pending.(txns := [NewTxn(env, req, draw)]);
      held := held + [KeyLock(req.key)];
      pending := pending.(entries := [Entry(draw.debitId, draw.txnId, debit, -Cents(req)),
                                      Entry(draw.creditId, draw.txnId, credit, Cents(req))]);
      assert Apply(committed, EMPTY) == committed;
      LinkTransaction(QuantizedCents(req.amount), EMPTY);
      pending := pending.(events := [NewEvent(req, draw)]);
    }

    /** The accounts a well-formed request moves money between; on a cold start, with the clearing account pending. */
    method DebitAndCredit(req: Request, draw: Draw) returns (debit: Uuid, credit: Uuid)
      requires pending == EMPTY && !Malformed(req)
      modifies this
      ensures committed == old(committed)
      ensures pending == EMPTY.(accounts := ClearingFor(committed, req, draw).1)
      ensures debit == Debited(req, ClearingFor(committed, req, draw).0)
      ensures credit == Credited(req, ClearingFor(committed, req, draw).0)
    {
      if req.kind == Transfer {
        return req.from.value, req.to.value;
      }
      assert Visible().accounts == committed.accounts;
      assert Apply(committed, EMPTY) == committed;
      var clearing := GetOrCreateClearingAccount(draw, EMPTY);
      if req.kind == Deposit {
        return clearing.id, req.account.value;
      } else {
        return req.account.value, clearing.id;
      }
    }

    /** Locks the two rows, checks the payer's balance, records and commits; a refusal rolls back. */
    method Record(req: Request, draw: Draw, debit: Uuid, credit: Uuid) returns (response: Response)
      requires pending == EMPTY.(accounts := ClearingFor(committed, req, draw).1)
      requires debit == Debited(req, ClearingFor(committed, req, draw).0)
      requires credit == Credited(req, ClearingFor(committed, req, draw).0)
      modifies this
      ensures Outcome(committed, response) == Ledger.Record(env, old(committed), req, draw)
      ensures Idle()
    {
      ghost var clearing, added := ClearingFor(committed, req, draw).0, ClearingFor(committed, req, draw).1;
      assert (if debit <= credit then [debit, credit] else [credit, debit]) == LockList(req, clearing);
      var missing, _ := LockAccounts(debit, credit);
      assert missing == FirstMissing(committed.accounts + added, LockList(req, clearing));
      if missing.Some? {
        Rollback();
        return NotFound(missing.value);
      }
      if req.kind != Deposit {
        assert Visible().entries == committed.entries;
        var balance := Balance(Visible().entries, debit);
        if balance < Cents(req) {
          Rollback();
          return InsufficientBalance;
        }
      }
      assert Funded(committed.entries, req, clearing);
      AddTransaction(req, draw, debit, credit);
      DeltaRows(env, committed, req, draw);
      Commit();
      return Created(draw.txnId);
    }

    /** create_transaction: tables and answer are those of the reference, and nothing stays pending or locked. */
    method CreateTransaction(req: Request, draw: Draw) returns (response: Response)
      requires Idle()
      modifies this
      ensures Outcome(committed, response) == Ledger.CreateTransaction(env, old(committed), req, draw)
      ensures Idle()
    {
      var requestHash := RequestHash(env, req);
      assert Visible() == committed;
      var existing := FindKey(committed.txns, req.key);
      if existing.Some? {
        if existing.value.requestHash != requestHash {
          return Conflict;
        }
        return Replayed(existing.value.id);
      }

      if req.kind == Transfer {
        if req.from.None? || req.to.None? || req.from == req.to {
          return Unprocessable;
        }
      } else if req.account.None? {
        return Unprocessable;
      }
      var debit, credit := DebitAndCredit(req, draw);
      response := Record(req, draw, debit, credit);
    }

    /** post_account. */
    method PostAccount(name: string, draw: Draw) returns (response: Response)
      requires Idle()
      modifies this
      ensures Outcome(committed, response) == OpenAccount(old(committed), name, draw)
      ensures Idle()
    {
      assert Visible() == committed;
      if FindName(Visible().accounts, name).Some? {
        return Conflict;
      }
      pending := pending.(accounts := [Account(draw.accountId, name, false)]);
      Commit();
      return Opened(draw.accountId);
    }
  }
}
