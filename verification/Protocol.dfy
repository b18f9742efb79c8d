/** The write path under concurrency: any number of requests, interleaved at every database statement, with locks
    held to commit or abort, and each statement reading what is committed plus the request's own pending writes. */
module Protocol {
  import opened Values
  import opened Chain
  import opened Ledger

  // ----- States -----

  /** The statement a request is about to run. */
  datatype Pc =
    | ReadKey
    | FindClearing
    | TakeClearingLock
    | RecheckClearing
    | InsertClearing
    | LockRows(todo: seq<Uuid>)
    | CheckFunds
    | InsertTxn
    | AddEntries
    | TakeChainLock
    | LinkTip
    | QueueEvent
    | ReadName
    | InsertName
    | Commit
    | Done(response: Response)

  /** One request: its position, the clearing id it found, the locks it holds and the rows it has not committed. */
  datatype Proc = Proc(job: Job, draw: Draw, pc: Pc, clearing: Uuid, held: set<Lock>, pend: Db)

  datatype State = State(db: Db, procs: seq<Proc>)

  datatype Action = Advance(p: nat) | Abort(p: nat)

  function Seen(db: Db, p: Proc): Db {
    Apply(db, p.pend)
  }

  /** Leaving, by answer or by exception: pending writes are dropped and every lock is released. */
  function Finish(p: Proc, response: Response): Proc {
    p.(pc := Done(response), held := {}, pend := EMPTY)
  }

  // ----- One statement -----

  /** The lock the next statement needs, if any. A row lock is asked for only when the row is visible. */
  function Wants(db: Db, p: Proc): Option<Lock> {
    match p.job
    case Open(name) => if p.pc == InsertName then Some(NameLock(name)) else None
    case Post(req) =>
      match p.pc
      case TakeClearingLock => Some(ClearingLock)
      case InsertClearing => Some(NameLock(EXTERNAL_CLEARING))
      case LockRows(todo) =>
        if todo != [] && FindAccount(Seen(db, p).accounts, todo[0]).Some? then Some(RowLock(todo[0])) else None
      case InsertTxn => Some(KeyLock(req.key))
      case TakeChainLock => Some(ChainLock)
      case _ => None
  }

  function WithClearing(p: Proc, req: Request, clearing: Uuid): Proc {
    p.(clearing := clearing, pc := LockRows(LockList(req, clearing)))
  }

  function Held(p: Proc, lock: Lock): Proc {
    p.(held := p.held + {lock})
  }

  /** What the next statement of create_transaction does once nothing blocks it. */
  function AdvancePost(env: Env, db: Db, p: Proc, req: Request): Proc {
    match p.pc
    case ReadKey => (
      match FindKey(db.txns, req.key)
      case Some(t) => Finish(p, if t.requestHash == RequestHash(env, req) then Replayed(t.id) else Conflict)
      case None =>
        if Malformed(req) then Finish(p, Unprocessable)
        else if req.kind == Transfer then WithClearing(p, req, 0)
        else p.(pc := FindClearing))
    case FindClearing => (
      match ClearingOf(Seen(db, p).accounts)
      case Some(a) => WithClearing(p, req, a.id)
      case None => p.(pc := TakeClearingLock))
    case TakeClearingLock => Held(p, ClearingLock).(pc := RecheckClearing)
    case RecheckClearing => (
      match ClearingOf(Seen(db, p).accounts)
      case Some(a) => WithClearing(p, req, a.id)
      case None => p.(pc := InsertClearing))
    case InsertClearing =>
      if ClearingOf(db.accounts).Some? then Finish(p, IntegrityError)
      else WithClearing(Held(p, NameLock(EXTERNAL_CLEARING)).(pend := p.pend.(accounts := [NewClearing(p.draw)])),
                        req, p.draw.accountId)
    case LockRows(todo) =>
      if todo == [] then p.(pc := CheckFunds)
      else if FindAccount(Seen(db, p).accounts, todo[0]).None? then Finish(p, NotFound(todo[0]))
      else Held(p, RowLock(todo[0])).(pc := LockRows(todo[1..]))
    case CheckFunds =>
      if Funded(Seen(db, p).entries, req, p.clearing) then p.(pc := InsertTxn) else Finish(p, InsufficientBalance)
    case InsertTxn =>
      if FindKey(db.txns, req.key).Some? then Finish(p, IntegrityError)
      else Held(p, KeyLock(req.key)).(pend := p.pend.(txns := [NewTxn(env, req, p.draw)]), pc := AddEntries)
    case AddEntries => p.(pend := p.pend.(entries := NewEntries(req, p.clearing, p.draw)), pc := TakeChainLock)
    case TakeChainLock => Held(p, ChainLock).(pc := LinkTip)
    case LinkTip => p.(pend := p.pend.(txns := [LinkedTxn(env, Seen(db, p).txns, req, p.draw)]), pc := QueueEvent)
    case QueueEvent => p.(pend := p.pend.(events := [NewEvent(req, p.draw)]), pc := Commit)
    case _ => p
  }

  /** What the next statement of post_account does once nothing blocks it. */
  function AdvanceOpen(db: Db, p: Proc, name: string): Proc {
    match p.pc
    case ReadName => if FindName(db.accounts, name).Some? then Finish(p, Conflict) else p.(pc := InsertName)
    case InsertName =>
      if FindName(db.accounts, name).Some? then Finish(p, IntegrityError)
      else Held(p, NameLock(name)).(pend := p.pend.(accounts := [Account(p.draw.accountId, name, false)]), pc := Commit)
    case _ => p
  }

  function Next(env: Env, db: Db, p: Proc): Proc {
    match p.job
    case Post(req) => AdvancePost(env, db, p, req)
    case Open(name) => AdvanceOpen(db, p, name)
  }

  function Success(p: Proc): Response {
    if p.job.Post? then Created(p.draw.txnId) else Opened(p.draw.accountId)
  }

  // ----- Runs -----

  predicate Running(s: State, p: nat) {
    p < |s.procs| && !s.procs[p].pc.Done?
  }

  /** Some other request holds the lock that p needs next. */
  ghost predicate Blocked(s: State, p: nat)
    requires p < |s.procs|
  {
    exists q :: 0 <= q < |s.procs| && WaitsFor(s, p, q)
  }

  predicate WaitsFor(s: State, p: nat, q: nat)
    requires p < |s.procs| && q < |s.procs|
  {
    p != q && Wants(s.db, s.procs[p]).Some? && Wants(s.db, s.procs[p]).value in s.procs[q].held
  }

  ghost predicate Enabled(s: State, a: Action) {
    match a
    case Abort(p) => Running(s, p)
    case Advance(p) => Running(s, p) && !Blocked(s, p)
  }

  /** One action; an action that is not enabled changes nothing. */
  ghost function Exec(env: Env, s: State, a: Action): State {
    if !Enabled(s, a) then s
    else
      var p := s.procs[a.p];
      if a.Abort? then s.(procs := s.procs[a.p := Finish(p, Aborted)])
      else if p.pc == Commit then State(Apply(s.db, p.pend), s.procs[a.p := Finish(p, Success(p))])
      else s.(procs := s.procs[a.p := Next(env, s.db, p)])
  }

  ghost function Run(env: Env, s: State, schedule: seq<Action>): State {
    if schedule == [] then s
    else Exec(env, Run(env, s, schedule[..|schedule| - 1]), schedule[|schedule| - 1])
  }

  function Arrival(job: Job, draw: Draw): Proc {
    Proc(job, draw, if job.Post? then ReadKey else ReadName, 0, {}, EMPTY)
  }

  // ----- What each request relies on at each statement -----

  function Stage(pc: Pc): nat {
    match pc
    case ReadKey => 0
    case FindClearing => 1
    case TakeClearingLock => 2
    case RecheckClearing => 3
    case InsertClearing => 4
    case LockRows(_) => 5
    case CheckFunds => 6
    case InsertTxn => 7
    case AddEntries => 8
    case TakeChainLock => 9
    case LinkTip => 10
    case QueueEvent => 11
    case Commit => 12
    case ReadName => 20
    case InsertName => 21
    case Done(_) => 30
  }

  /** The account row is visible to p and locked by it. */
  predicate Secured(db: Db, p: Proc, id: Uuid) {
    RowLock(id) in p.held && FindAccount(db.accounts + p.pend.accounts, id).Some?
  }

  predicate RowsSecured(db: Db, p: Proc, req: Request, n: nat)
    requires n <= 2
  {
    && (n >= 1 ==> Secured(db, p, LockList(req, p.clearing)[0]))
    && (n == 2 ==> Secured(db, p, LockList(req, p.clearing)[1]))
  }

  /** How many of the two rows are locked so far. */
  function RowsLocked(p: Proc): nat {
    match p.pc
    case LockRows(todo) => if |todo| <= 2 then 2 - |todo| else 0
    case pc => if 5 < Stage(pc) <= 12 then 2 else 0
  }

  predicate ClearingSettled(db: Db, p: Proc, req: Request) {
    && (p.clearing, p.pend.accounts) == ClearingFor(db, req, p.draw)
    && (p.pend.accounts != [] ==> NameLock(EXTERNAL_CLEARING) in p.held && ClearingLock in p.held)
  }

  predicate PendingSoFar(env: Env, db: Db, p: Proc, req: Request) {
    var st := Stage(p.pc);
    && (st < 5 ==> p.pend.accounts == [])
    && p.pend.txns ==
         (if st < 8 then [] else if st < 11 then [NewTxn(env, req, p.draw)] else [LinkedTxn(env, db.txns, req, p.draw)])
    && p.pend.entries == (if st < 9 then [] else NewEntries(req, p.clearing, p.draw))
    && p.pend.events == (if st < 12 then [] else [NewEvent(req, p.draw)])
  }

  /** Locks are taken in one fixed order, and none before its statement. */
  predicate LockDue(p: Proc, req: Request, lock: Lock) {
    match lock
    case ClearingLock => Stage(p.pc) >= 3
    case NameLock(n) => n == EXTERNAL_CLEARING && Stage(p.pc) >= 5 && ClearingLock in p.held
    case RowLock(id) => id in LockList(req, p.clearing)[..RowsLocked(p)]
    case KeyLock(_) => Stage(p.pc) >= 8
    case ChainLock => Stage(p.pc) >= 10
  }

  ghost predicate LocksDue(p: Proc, req: Request) {
    forall lock :: lock in p.held ==> LockDue(p, req, lock)
  }

  /** Up to the balance check. */
  ghost predicate EarlyOk(env: Env, db: Db, p: Proc, req: Request) {
    var st := Stage(p.pc);
    && st <= 6
    && (st > 0 ==> !Malformed(req))
    && (0 < st < 5 ==> req.kind != Transfer)
    && (3 <= st < 5 ==> ClearingLock in p.held)
    && (st >= 5 ==> ClearingSettled(db, p, req))
    && (st == 5 ==> |p.pc.todo| <= 2 && p.pc.todo == LockList(req, p.clearing)[RowsLocked(p)..])
    && RowsSecured(db, p, req, RowsLocked(p))
    && PendingSoFar(env, db, p, req)
    && LocksDue(p, req)
  }

  predicate KeyAndChain(db: Db, p: Proc, req: Request) {
    && (Stage(p.pc) >= 8 ==> KeyLock(req.key) in p.held && FindKey(db.txns, req.key).None?)
    && (Stage(p.pc) >= 10 ==> ChainLock in p.held)
  }

  /** After it. */
  ghost predicate LateOk(env: Env, db: Db, p: Proc, req: Request) {
    && 7 <= Stage(p.pc) <= 12
    && !Malformed(req)
    && ClearingSettled(db, p, req)
    && RowsSecured(db, p, req, 2)
    && Funded(db.entries, req, p.clearing)
    && KeyAndChain(db, p, req)
    && PendingSoFar(env, db, p, req)
    && LocksDue(p, req)
  }

  ghost predicate PostOk(env: Env, db: Db, p: Proc, req: Request) {
    if p.pc.Done? then p.held == {} && p.pend == EMPTY
    else if 7 <= Stage(p.pc) <= 12 then LateOk(env, db, p, req)
    else EarlyOk(env, db, p, req)
  }

  ghost predicate OpenOk(db: Db, p: Proc, name: string) {
    match p.pc
    case Done(_) => p.held == {} && p.pend == EMPTY
    case ReadName => p.held == {} && p.pend == EMPTY
    case InsertName => p.held == {} && p.pend == EMPTY
    case Commit =>
      && p.held == {NameLock(name)}
      && p.pend == EMPTY.(accounts := [Account(p.draw.accountId, name, false)])
      && FindName(db.accounts, name).None?
    case _ => false
  }

  ghost predicate ProcOk(env: Env, db: Db, p: Proc) {
    match p.job
    case Post(req) => Accepted(req) && PostOk(env, db, p, req)
    case Open(name) => OpenOk(db, p, name)
  }

  // ----- A statement keeps the request's own assertions -----

  /** Entering the locking loop: the clearing account is settled and no row is locked yet. */
  lemma EnterLocking(env: Env, db: Db, after: Proc, req: Request)
    requires !Malformed(req) && after.pc == LockRows(LockList(req, after.clearing))
    requires ClearingSettled(db, after, req)
    requires after.pend == EMPTY.(accounts := after.pend.accounts)
    requires forall lock :: lock in after.held ==>
      lock == ClearingLock || (lock == NameLock(EXTERNAL_CLEARING) && ClearingLock in after.held)
    ensures PostOk(env, db, after, req)
  {
    assert RowsLocked(after) == 0;
    assert LockList(req, after.clearing)[0..] == LockList(req, after.clearing);
  }

  lemma EarlyStep(env: Env, db: Db, p: Proc, req: Request)
    requires PostOk(env, db, p, req) && Stage(p.pc) <= 3
    ensures PostOk(env, db, AdvancePost(env, db, p, req), req)
  {
    assert p.pend == EMPTY && Seen(db, p).accounts == db.accounts;
    assert forall lock :: lock in p.held ==> LockDue(p, req, lock);
    var after := AdvancePost(env, db, p, req);
    if after.pc.LockRows? {
      EnterLocking(env, db, after, req);
    }
  }

  lemma InsertClearingStep(env: Env, db: Db, p: Proc, req: Request)
    requires PostOk(env, db, p, req) && p.pc == InsertClearing
    ensures PostOk(env, db, AdvancePost(env, db, p, req), req)
  {
    assert forall lock :: lock in p.held ==> LockDue(p, req, lock);
    if ClearingOf(db.accounts).None? {
      EnterLocking(env, db, AdvancePost(env, db, p, req), req);
    }
  }

  lemma LockRowStep(env: Env, db: Db, p: Proc, req: Request)
    requires PostOk(env, db, p, req) && p.pc.LockRows? && RowsLocked(p) < 2
    ensures PostOk(env, db, AdvancePost(env, db, p, req), req)
  {
    var n, ids := RowsLocked(p), LockList(req, p.clearing);
    assert p.pc.todo == ids[n..];
    assert ids[n..][1..] == ids[n + 1..];
    assert ids[..n + 1] == ids[..n] + [ids[n]];
  }

  lemma RowsDoneStep(env: Env, db: Db, p: Proc, req: Request)
    requires PostOk(env, db, p, req) && p.pc.LockRows? && RowsLocked(p) == 2
    ensures PostOk(env, db, AdvancePost(env, db, p, req), req)
  {
    assert p.pc.todo == [];
  }

  lemma CheckFundsStep(env: Env, db: Db, p: Proc, req: Request)
    requires PostOk(env, db, p, req) && p.pc == CheckFunds
    ensures PostOk(env, db, AdvancePost(env, db, p, req), req)
  {
    assert Seen(db, p).entries == db.entries;
  }

  lemma MoreLocksSecured(db: Db, p: Proc, after: Proc, req: Request)
    requires RowsSecured(db, p, req, 2)
    requires after.clearing == p.clearing && after.pend.accounts == p.pend.accounts && p.held <= after.held
    ensures RowsSecured(db, after, req, 2)
  {
  }

  lemma MoreLocksSettled(db: Db, p: Proc, after: Proc, req: Request)
    requires ClearingSettled(db, p, req)
    requires after.clearing == p.clearing && after.draw == p.draw && after.pend.accounts == p.pend.accounts
    requires p.held <= after.held
    ensures ClearingSettled(db, after, req)
  {
  }

  lemma LocksStayDue(p: Proc, after: Proc, req: Request)
    requires LocksDue(p, req)
    requires Stage(after.pc) == Stage(p.pc) + 1 && RowsLocked(after) == RowsLocked(p)
    requires after.clearing == p.clearing && p.held <= after.held
    requires forall lock :: lock in after.held ==> lock in p.held || LockDue(after, req, lock)
    ensures LocksDue(after, req)
  {
    forall lock | lock in after.held && lock in p.held
      ensures LockDue(after, req, lock)
    {
      assert LockDue(p, req, lock);
    }
  }

  /** After the balance check a statement only adds: its lock, if it takes one, and its pending rows. */
  lemma LateStep(env: Env, db: Db, p: Proc, after: Proc, req: Request)
    requires LateOk(env, db, p, req) && Stage(p.pc) <= 11
    requires Stage(after.pc) == Stage(p.pc) + 1
    requires after.clearing == p.clearing && after.draw == p.draw && after.pend.accounts == p.pend.accounts
    requires p.held <= after.held && LocksDue(after, req)
    requires KeyAndChain(db, after, req) && PendingSoFar(env, db, after, req)
    ensures LateOk(env, db, after, req)
  {
    MoreLocksSecured(db, p, after, req);
    MoreLocksSettled(db, p, after, req);
  }

  lemma InsertTxnStep(env: Env, db: Db, p: Proc, req: Request)
    requires PostOk(env, db, p, req) && p.pc == InsertTxn
    ensures PostOk(env, db, AdvancePost(env, db, p, req), req)
  {
    hide NewTxn, LinkedTxn, NewEntries, NewEvent;
    if FindKey(db.txns, req.key).None? {
      var after := AdvancePost(env, db, p, req);
      LocksStayDue(p, after, req);
      LateStep(env, db, p, after, req);
    }
  }

  lemma AddEntriesStep(env: Env, db: Db, p: Proc, req: Request)
    requires PostOk(env, db, p, req) && p.pc == AddEntries
    ensures PostOk(env, db, AdvancePost(env, db, p, req), req)
  {
    hide NewTxn, LinkedTxn, NewEntries, NewEvent;
    var after := AdvancePost(env, db, p, req);
    LocksStayDue(p, after, req);
    LateStep(env, db, p, after, req);
  }

  lemma TakeChainLockStep(env: Env, db: Db, p: Proc, req: Request)
    requires PostOk(env, db, p, req) && p.pc == TakeChainLock
    ensures PostOk(env, db, AdvancePost(env, db, p, req), req)
  {
    hide NewTxn, LinkedTxn, NewEntries, NewEvent;
    var after := AdvancePost(env, db, p, req);
    LocksStayDue(p, after, req);
    LateStep(env, db, p, after, req);
  }

  /** The writer's own row, still unlinked, is not the tip it reads. */
  lemma LinkSeesCommitted(env: Env, db: Db, p: Proc, req: Request)
    requires p.pend.txns == [NewTxn(env, req, p.draw)]
    ensures LinkedTxn(env, Seen(db, p).txns, req, p.draw) == LinkedTxn(env, db.txns, req, p.draw)
  {
    var own := NewTxn(env, req, p.draw);
    assert Seen(db, p).txns == db.txns + [own];
    LinkIgnoresUnlinked(env, db.txns, own, own, QuantizedCents(req.amount));
  }

  lemma LinkTipStep(env: Env, db: Db, p: Proc, req: Request)
    requires PostOk(env, db, p, req) && p.pc == LinkTip
    ensures PostOk(env, db, AdvancePost(env, db, p, req), req)
  {
    hide NewTxn, LinkedTxn, NewEntries, NewEvent;
    LinkSeesCommitted(env, db, p, req);
    var after := AdvancePost(env, db, p, req);
    LocksStayDue(p, after, req);
    LateStep(env, db, p, after, req);
  }

  lemma QueueEventStep(env: Env, db: Db, p: Proc, req: Request)
    requires PostOk(env, db, p, req) && p.pc == QueueEvent
    ensures PostOk(env, db, AdvancePost(env, db, p, req), req)
  {
    hide NewTxn, LinkedTxn, NewEntries, NewEvent;
    var after := AdvancePost(env, db, p, req);
    LocksStayDue(p, after, req);
    LateStep(env, db, p, after, req);
  }

  lemma PostKeepsOk(env: Env, db: Db, p: Proc, req: Request)
    requires PostOk(env, db, p, req) && !p.pc.Done? && p.pc != Commit
    ensures PostOk(env, db, AdvancePost(env, db, p, req), req)
  {
    match p.pc
    case InsertClearing => InsertClearingStep(env, db, p, req);
    case LockRows(_) => if RowsLocked(p) < 2 { LockRowStep(env, db, p, req); } else { RowsDoneStep(env, db, p, req); }
    case CheckFunds => CheckFundsStep(env, db, p, req);
    case InsertTxn => InsertTxnStep(env, db, p, req);
    case AddEntries => AddEntriesStep(env, db, p, req);
    case TakeChainLock => TakeChainLockStep(env, db, p, req);
    case LinkTip => LinkTipStep(env, db, p, req);
    case QueueEvent => QueueEventStep(env, db, p, req);
    case _ => EarlyStep(env, db, p, req);
  }

  /** A statement touches neither the request nor its draws. */
  lemma SameRequest(env: Env, db: Db, p: Proc)
    ensures Next(env, db, p).job == p.job && Next(env, db, p).draw == p.draw
  {
  }

  lemma NextKeepsOk(env: Env, db: Db, p: Proc)
    requires ProcOk(env, db, p) && !p.pc.Done? && p.pc != Commit
    ensures ProcOk(env, db, Next(env, db, p))
  {
    SameRequest(env, db, p);
    if p.job.Post? {
      PostKeepsOk(env, db, p, p.job.req);
    }
  }

  // ----- Another request's commit keeps them too -----

  /** Every row about to be committed is guarded by a lock. */
  ghost predicate Covers(locks: set<Lock>, more: Db) {
    && (forall a :: a in more.accounts ==> NameLock(a.name) in locks)
    && (forall t :: t in more.txns ==> KeyLock(t.key) in locks)
    && (more.txns != [] ==> ChainLock in locks)
    && (forall e :: e in more.entries ==> RowLock(e.accountId) in locks)
  }

  lemma {:induction false} NoSuchName(accounts: seq<Account>, name: string)
    requires forall a :: a in accounts ==> a.name != name
    ensures FindName(accounts, name).None?
  {
    FindNameMeaning(accounts, name);
  }

  lemma {:induction false} NoSuchKey(txns: seq<Txn>, key: string)
    requires forall t :: t in txns ==> t.key != key
    ensures FindKey(txns, key).None?
  {
    FindKeyMeaning(txns, key);
  }

  lemma NameStaysFree(db: Db, more: Db, locks: set<Lock>, name: string)
    requires Covers(locks, more) && NameLock(name) !in locks
    ensures FindName(Apply(db, more).accounts, name) == FindName(db.accounts, name)
  {
    FindNameAppend(db.accounts, more.accounts, name);
    NoSuchName(more.accounts, name);
  }

  lemma KeyStaysFree(db: Db, more: Db, locks: set<Lock>, key: string)
    requires Covers(locks, more) && KeyLock(key) !in locks
    ensures FindKey(Apply(db, more).txns, key) == FindKey(db.txns, key)
  {
    FindKeyAppend(db.txns, more.txns, key);
    NoSuchKey(more.txns, key);
  }

  /** A balance read under the row lock stays exact. */
  lemma LockedBalanceStays(db: Db, more: Db, locks: set<Lock>, id: Uuid)
    requires Covers(locks, more) && RowLock(id) !in locks
    ensures Balance(Apply(db, more).entries, id) == Balance(db.entries, id)
  {
    BalanceAppend(db.entries, more.entries, id);
    BalanceUntouched(more.entries, id);
  }

  lemma ClearingStays(db: Db, more: Db, locks: set<Lock>, p: Proc, req: Request)
    requires ClearingSettled(db, p, req) && Covers(locks, more) && p.held !! locks
    ensures ClearingSettled(Apply(db, more), p, req)
  {
    FindNameAppend(db.accounts, more.accounts, EXTERNAL_CLEARING);
    if p.pend.accounts != [] {
      NameStaysFree(db, more, locks, EXTERNAL_CLEARING);
    }
  }

  lemma SecuredStays(db: Db, more: Db, p: Proc, id: Uuid)
    requires Secured(db, p, id)
    ensures Secured(Apply(db, more), p, id)
  {
    FindAccountAppend(db.accounts, p.pend.accounts, id);
    FindAccountAppend(db.accounts, more.accounts, id);
    FindAccountAppend(db.accounts + more.accounts, p.pend.accounts, id);
  }

  lemma FundedStays(db: Db, more: Db, locks: set<Lock>, p: Proc, req: Request)
    requires Funded(db.entries, req, p.clearing) && Covers(locks, more) && p.held !! locks
    requires RowsSecured(db, p, req, 2)
    ensures Funded(Apply(db, more).entries, req, p.clearing)
  {
    LockedBalanceStays(db, more, locks, Debited(req, p.clearing));
  }

  lemma PostStays(env: Env, db: Db, more: Db, locks: set<Lock>, p: Proc, req: Request)
    requires PostOk(env, db, p, req) && Covers(locks, more) && p.held !! locks
    ensures PostOk(env, Apply(db, more), p, req)
  {
    var st, n, ids := Stage(p.pc), RowsLocked(p), LockList(req, p.clearing);
    if 5 <= st <= 12 {
      ClearingStays(db, more, locks, p, req);
      if n >= 1 {
        SecuredStays(db, more, p, ids[0]);
      }
      if n == 2 {
        SecuredStays(db, more, p, ids[1]);
      }
      if st >= 7 {
        FundedStays(db, more, locks, p, req);
      }
      if st >= 8 {
        KeyStaysFree(db, more, locks, req.key);
      }
      if st >= 10 {
        assert Apply(db, more).txns == db.txns;
      }
    }
  }

  lemma OkStays(env: Env, db: Db, more: Db, locks: set<Lock>, p: Proc)
    requires ProcOk(env, db, p) && Covers(locks, more) && p.held !! locks
    ensures ProcOk(env, Apply(db, more), p)
  {
    match p.job
    case Post(req) => PostStays(env, db, more, locks, p, req);
    case Open(name) =>
      if p.pc == Commit {
        NameStaysFree(db, more, locks, name);
      }
  }

  // ----- A commit is one sequential request -----

  lemma CommitCovered(env: Env, db: Db, p: Proc)
    requires ProcOk(env, db, p) && p.pc == Commit
    ensures Covers(p.held, p.pend)
  {
    if p.job.Post? {
      var ids := LockList(p.job.req, p.clearing);
      assert forall e :: e in p.pend.entries ==> e.accountId == ids[0] || e.accountId == ids[1];
    }
  }

  lemma SecuredNotMissing(db: Db, p: Proc, req: Request)
    requires RowsSecured(db, p, req, 2)
    ensures FirstMissing(db.accounts + p.pend.accounts, LockList(req, p.clearing)).None?
  {
    var ids := LockList(req, p.clearing);
    assert ids[1..] == [ids[1]] && ids[1..][1..] == [];
    assert FirstMissing(db.accounts + p.pend.accounts, ids[1..]).None?;
  }

  /** What p commits is what the sequential request would do to the database of that very moment. */
  lemma CommitIsSequential(env: Env, db: Db, p: Proc)
    requires ProcOk(env, db, p) && p.pc == Commit
    ensures Perform(env, db, p.job, p.draw) == Outcome(Apply(db, p.pend), Success(p))
  {
    match p.job
    case Post(req) =>
      SecuredNotMissing(db, p, req);
      assert p.pend == Delta(env, db, req, p.draw);
    case Open(name) =>
  }
}
