/** What an answer tells the client about the committed tables, in every reachable state. */
module Answers {
  import opened Values
  import opened Ledger
  import opened Invariant
  import opened Protocol
  import opened Concurrency
  import opened ColdStart
  import opened Idempotency

  /** The tables bear the answer out. Responses that speak of a moment in the past are left open. */
  predicate Supported(env: Env, db: Db, job: Job, response: Response) {
    match job
    case Post(req) => (
      var found := FindKey(db.txns, req.key);
      match response
      case Created(id) => found.Some? && found.value.id == id && found.value.requestHash == RequestHash(env, req)
      case Replayed(id) => found.Some? && found.value.id == id && found.value.requestHash == RequestHash(env, req)
      case Conflict => found.Some? && found.value.requestHash != RequestHash(env, req)
      case Unprocessable =>
        if req.kind == Transfer then req.from.None? || req.to.None? || req.from.value == req.to.value
        else req.account.None?
      case IntegrityError => found.Some? || (req.kind != Transfer && ClearingOf(db.accounts).Some?)
      case Opened(_) => false
      case _ => true)
    case Open(name) => (
      var found := FindName(db.accounts, name);
      match response
      case Opened(id) => found.Some? && found.value.id == id
      case Conflict => found.Some?
      case IntegrityError => found.Some?
      case Aborted => true
      case _ => false)
  }

  predicate AnswerAt(env: Env, s: State, p: nat)
    requires p < |s.procs|
  {
    s.procs[p].pc.Done? ==> Supported(env, s.db, s.procs[p].job, s.procs[p].pc.response)
  }

  ghost predicate AnswersOk(env: Env, s: State) {
    forall p :: 0 <= p < |s.procs| ==> AnswerAt(env, s, p)
  }

  /** Nothing committed later takes an answer back. */
  lemma StaysSupported(env: Env, db: Db, more: Db, job: Job, response: Response)
    requires Supported(env, db, job, response)
    ensures Supported(env, Apply(db, more), job, response)
  {
    match job
    case Post(req) =>
      FindKeyAppend(db.txns, more.txns, req.key);
      FindNameAppend(db.accounts, more.accounts, EXTERNAL_CLEARING);
    case Open(name) => FindNameAppend(db.accounts, more.accounts, name);
  }

  lemma PostSupported(env: Env, db: Db, p: Proc, req: Request)
    requires p.pc == InsertClearing ==> req.kind != Transfer
    requires !p.pc.Done? && AdvancePost(env, db, p, req).pc.Done?
    ensures Supported(env, db, Post(req), AdvancePost(env, db, p, req).pc.response)
  {
  }

  lemma OpenSupported(env: Env, db: Db, p: Proc, name: string)
    requires !p.pc.Done? && AdvanceOpen(db, p, name).pc.Done?
    ensures Supported(env, db, Open(name), AdvanceOpen(db, p, name).pc.response)
  {
  }

  lemma NextSupported(env: Env, db: Db, p: Proc)
    requires ProcOk(env, db, p) && !p.pc.Done? && Next(env, db, p).pc.Done?
    ensures Supported(env, db, p.job, Next(env, db, p).pc.response)
  {
    match p.job
    case Post(req) => PostSupported(env, db, p, req);
    case Open(name) => OpenSupported(env, db, p, name);
  }

  lemma CommitSupported(env: Env, db: Db, p: Proc)
    requires ProcOk(env, db, p) && p.pc == Commit
    ensures Supported(env, Apply(db, p.pend), p.job, Success(p))
  {
    CommitIsSequential(env, db, p);
    match p.job
    case Post(req) => CreatedIsFound(env, db, req, p.draw);
    case Open(name) => FindNameAppend(db.accounts, p.pend.accounts, name);
  }

  lemma ExecKeepsAnswers(env: Env, s: State, a: Action)
    requires StateInv(env, s) && AnswersOk(env, s)
    ensures AnswersOk(env, Exec(env, s, a))
  {
    if Enabled(s, a) {
      var proc, after := s.procs[a.p], Exec(env, s, a);
      assert ProcAt(env, s, a.p);
      if a.Advance? && proc.pc == Commit {
        CommitSupported(env, s.db, proc);
      } else if a.Advance? {
        SameRequest(env, s.db, proc);
        if Next(env, s.db, proc).pc.Done? {
          NextSupported(env, s.db, proc);
        }
      }
      forall q | 0 <= q < |after.procs|
        ensures AnswerAt(env, after, q)
      {
        assert AnswerAt(env, s, q);
        if q != a.p && s.procs[q].pc.Done? {
          StaysSupported(env, s.db, proc.pend, s.procs[q].job, s.procs[q].pc.response);
        }
      }
    }
  }

  lemma {:induction false} RunKeepsAnswers(env: Env, s: State, schedule: seq<Action>)
    requires StateInv(env, s) && AnswersOk(env, s)
    ensures AnswersOk(env, Run(env, s, schedule))
  {
    if schedule != [] {
      var front := schedule[..|schedule| - 1];
      RunKeepsAnswers(env, s, front);
      RunKeepsInv(env, s, front);
      ExecKeepsAnswers(env, Run(env, s, front), schedule[|schedule| - 1]);
    }
  }

  /** Whatever the schedule, every answer given so far is borne out by the committed tables. */
  lemma AnswersAreSupported(env: Env, s: State, schedule: seq<Action>, p: nat)
    requires Initial(env, s)
    requires p < |Run(env, s, schedule).procs| && Run(env, s, schedule).procs[p].pc.Done?
    ensures var now := Run(env, s, schedule); Supported(env, now.db, now.procs[p].job, now.procs[p].pc.response)
  {
    InitialInv(env, s);
    RunKeepsAnswers(env, s, schedule);
    assert AnswerAt(env, Run(env, s, schedule), p);
  }

  /** The one row a request with this key and id can mean. */
  ghost predicate OnlyRow(txns: seq<Txn>, i: nat, id: Uuid, key: string) {
    && i < |txns| && txns[i].id == id && txns[i].key == key
    && forall j :: 0 <= j < |txns| && (txns[j].id == id || txns[j].key == key) ==> j == i
  }

  /** A client told that a transaction was created or replayed can rely on exactly one committed row with that id and
      its own key and request hash, racing requests and aborts notwithstanding. */
  lemma AnsweredIsCommitted(env: Env, s: State, schedule: seq<Action>, p: nat, req: Request, id: Uuid) returns (i: nat)
    requires Initial(env, s)
    requires p < |Run(env, s, schedule).procs| && Run(env, s, schedule).procs[p].job == Post(req)
    requires var pc := Run(env, s, schedule).procs[p].pc; pc == Done(Created(id)) || pc == Done(Replayed(id))
    ensures OnlyRow(Run(env, s, schedule).db.txns, i, id, req.key)
    ensures Run(env, s, schedule).db.txns[i].requestHash == RequestHash(env, req)
  {
    AnswersAreSupported(env, s, schedule, p);
    InitialInv(env, s);
    RunKeepsInv(env, s, schedule);
    i := OnlyRowOf(Run(env, s, schedule).db.txns, req.key);
  }

  lemma OnlyRowOf(txns: seq<Txn>, key: string) returns (i: nat)
    requires UniqueTxns(txns) && FindKey(txns, key).Some?
    ensures i < |txns| && txns[i] == FindKey(txns, key).value
    ensures OnlyRow(txns, i, txns[i].id, key)
  {
    FindKeyMeaning(txns, key);
    i :| 0 <= i < |txns| && txns[i] == FindKey(txns, key).value;
  }

  // ----- Integrity errors -----

  /** A request answered by an integrity error lost its key to a committed request. */
  ghost predicate KeysTaken(s: State) {
    forall p :: 0 <= p < |s.procs| ==> KeyTakenAt(s, p)
  }

  predicate KeyTakenAt(s: State, p: nat)
    requires p < |s.procs|
  {
    s.procs[p].job.Post? && s.procs[p].pc == Done(IntegrityError) ==> FindKey(s.db.txns, s.procs[p].job.req.key).Some?
  }

  lemma OnlyKeysClash(env: Env, db: Db, p: Proc, req: Request)
    requires !p.pc.Done? && (p.pc == InsertClearing ==> ClearingOf(db.accounts).None?)
    requires AdvancePost(env, db, p, req).pc == Done(IntegrityError)
    ensures FindKey(db.txns, req.key).Some?
  {
  }

  lemma ExecKeepsKeysTaken(env: Env, s: State, a: Action)
    requires StateInv(env, s) && NameFree(s) && KeysTaken(s)
    ensures KeysTaken(Exec(env, s, a))
  {
    if Enabled(s, a) {
      var proc, after := s.procs[a.p], Exec(env, s, a);
      if a.Advance? && proc.pc != Commit && proc.job.Post? {
        SameRequest(env, s.db, proc);
        if Next(env, s.db, proc).pc == Done(IntegrityError) {
          OnlyKeysClash(env, s.db, proc, proc.job.req);
        }
      }
      forall q | 0 <= q < |after.procs|
        ensures KeyTakenAt(after, q)
      {
        assert KeyTakenAt(s, q);
        if s.procs[q].job.Post? {
          FindKeyAppend(s.db.txns, proc.pend.txns, s.procs[q].job.req.key);
        }
      }
    }
  }

  lemma {:induction false} RunKeepsKeysTaken(env: Env, s: State, schedule: seq<Action>)
    requires StateInv(env, s) && NoRival(s) && NameFree(s) && KeysTaken(s)
    ensures KeysTaken(Run(env, s, schedule))
  {
    if schedule != [] {
      var front := schedule[..|schedule| - 1];
      RunKeepsKeysTaken(env, s, front);
      RunKeepsInv(env, s, front);
      RunKeepsNameFree(env, s, front);
      ExecKeepsKeysTaken(env, Run(env, s, front), schedule[|schedule| - 1]);
    }
  }

  /** Unless somebody opens an account under the reserved name, an integrity error of a posted request always means that
      its idempotency key is committed. */
  lemma IntegrityErrorMeansKey(env: Env, s: State, schedule: seq<Action>, p: nat, req: Request)
    requires Initial(env, s) && NoRival(s)
    requires p < |Run(env, s, schedule).procs| && Run(env, s, schedule).procs[p].job == Post(req)
    requires Run(env, s, schedule).procs[p].pc == Done(IntegrityError)
    ensures FindKey(Run(env, s, schedule).db.txns, req.key).Some?
  {
    InitialInv(env, s);
    RunKeepsKeysTaken(env, s, schedule);
    assert KeyTakenAt(Run(env, s, schedule), p);
  }

  // ----- Refusals speak of the moment they were given -----

  /** The accounts a request names. */
  predicate Names(req: Request, id: Uuid) {
    if req.kind == Transfer then req.from == Some(id) || req.to == Some(id) else req.account == Some(id)
  }

  /** The account that pays: the one named by a withdrawal, or the source of a transfer. */
  function Payer(req: Request): Option<Uuid> {
    match req.kind
    case Deposit => None
    case Withdrawal => req.account
    case Transfer => req.from
  }

  /** A refusal that was true of the tables: a named account had no row, or the payer's balance was too low. */
  predicate RefusalHolds(db: Db, req: Request, response: Response) {
    match response
    case NotFound(id) => Names(req, id) && FindAccount(db.accounts, id).None?
    case InsufficientBalance => Payer(req).Some? && Balance(db.entries, Payer(req).value) < Cents(req)
    case _ => true
  }

  /** The clearing account a request uses is visible to it. */
  lemma ClearingVisible(db: Db, p: Proc, req: Request)
    requires ClearingSettled(db, p, req) && req.kind != Transfer
    ensures FindAccount(db.accounts + p.pend.accounts, p.clearing).Some?
  {
    FindNameMeaning(db.accounts, EXTERNAL_CLEARING);
    FindAccountMeaning(db.accounts, p.clearing);
    FindAccountAppend(db.accounts, p.pend.accounts, p.clearing);
  }

  lemma MissingIsNamed(env: Env, db: Db, p: Proc, req: Request)
    requires PostOk(env, db, p, req) && p.pc.LockRows? && p.pc.todo != []
    requires FindAccount(Seen(db, p).accounts, p.pc.todo[0]).None?
    ensures Names(req, p.pc.todo[0]) && FindAccount(db.accounts, p.pc.todo[0]).None?
  {
    FindAccountAppend(db.accounts, p.pend.accounts, p.pc.todo[0]);
    assert p.pc.todo[0] in LockList(req, p.clearing);
    if req.kind != Transfer {
      ClearingVisible(db, p, req);
    }
  }

  lemma RefusedNow(env: Env, db: Db, p: Proc, req: Request)
    requires PostOk(env, db, p, req) && !p.pc.Done? && AdvancePost(env, db, p, req).pc.Done?
    ensures RefusalHolds(db, req, AdvancePost(env, db, p, req).pc.response)
  {
    hide NewTxn, LinkedTxn, NewEntries, NewEvent;
    if p.pc.LockRows? {
      MissingIsNamed(env, db, p, req);
    } else if p.pc == CheckFunds {
      assert Seen(db, p).entries == db.entries;
    } else {
      OnlyTwoRefusals(env, db, p, req);
    }
  }

  lemma OnlyTwoRefusals(env: Env, db: Db, p: Proc, req: Request)
    requires !p.pc.Done? && !p.pc.LockRows? && p.pc != CheckFunds && AdvancePost(env, db, p, req).pc.Done?
    ensures !AdvancePost(env, db, p, req).pc.response.NotFound?
    ensures !AdvancePost(env, db, p, req).pc.response.InsufficientBalance?
  {
  }

  /** A missing account or an insufficient balance was the case at the very moment the request was refused. */
  lemma {:induction false} RefusedEarlier(env: Env, s: State, schedule: seq<Action>, p: nat, req: Request)
      returns (n: nat)
    requires Initial(env, s)
    requires p < |Run(env, s, schedule).procs| && Run(env, s, schedule).procs[p].job == Post(req)
    requires Run(env, s, schedule).procs[p].pc.Done?
    ensures n <= |schedule|
    ensures RefusalHolds(Run(env, s, schedule[..n]).db, req, Run(env, s, schedule).procs[p].pc.response)
  {
    var front, a := schedule[..|schedule| - 1], schedule[|schedule| - 1];
    var before := Run(env, s, front);
    if before.procs[p].pc.Done? {
      n := RefusedEarlier(env, s, front, p, req);
      assert front[..n] == schedule[..n];
    } else {
      n := |schedule| - 1;
      InitialInv(env, s);
      RunKeepsInv(env, s, front);
      assert ProcAt(env, before, p);
      RefusedByAction(env, before, a, p, req);
    }
  }

  lemma RefusedByAction(env: Env, s: State, a: Action, p: nat, req: Request)
    requires p < |s.procs| && ProcOk(env, s.db, s.procs[p]) && !s.procs[p].pc.Done?
    requires Exec(env, s, a).procs[p].pc.Done? && Exec(env, s, a).procs[p].job == Post(req)
    ensures RefusalHolds(s.db, req, Exec(env, s, a).procs[p].pc.response)
  {
    SameRequest(env, s.db, s.procs[p]);
    if a.Advance? && s.procs[p].pc != Commit {
      RefusedNow(env, s.db, s.procs[p], req);
    }
  }
}
