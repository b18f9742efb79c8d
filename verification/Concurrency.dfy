/** Whole runs of the concurrent protocol: every schedule commits a sequential history. */
module Concurrency {
  import opened Values
  import opened Chain
  import opened Ledger
  import opened Invariant
  import opened Protocol

  // ----- The invariant of all reachable states -----

  predicate DrawsApart(a: Draw, b: Draw) {
    && a.accountId != b.accountId
    && a.txnId != b.txnId
    && a.debitId != b.debitId && a.debitId != b.creditId
    && a.creditId != b.debitId && a.creditId != b.creditId
    && a.eventId != b.eventId
  }

  ghost predicate AllApart(procs: seq<Proc>) {
    forall p, q :: 0 <= p < q < |procs| ==> DrawsApart(procs[p].draw, procs[q].draw)
  }

  ghost predicate Exclusive(procs: seq<Proc>) {
    forall p, q :: 0 <= p < q < |procs| ==> procs[p].held !! procs[q].held
  }

  ghost predicate ProcAt(env: Env, s: State, p: nat)
    requires p < |s.procs|
  {
    ProcOk(env, s.db, s.procs[p]) && (!s.procs[p].pc.Done? ==> FreshDraw(s.db, s.procs[p].draw))
  }

  ghost predicate StateInv(env: Env, s: State) {
    && Inv(env, s.db)
    && AllApart(s.procs)
    && Exclusive(s.procs)
    && forall p :: 0 <= p < |s.procs| ==> ProcAt(env, s, p)
  }

  /** A consistent database and any number of requests about to start; uuid4 never repeats an id. */
  ghost predicate Initial(env: Env, s: State) {
    && Inv(env, s.db)
    && AllApart(s.procs)
    && forall p :: 0 <= p < |s.procs| ==>
         && s.procs[p] == Arrival(s.procs[p].job, s.procs[p].draw)
         && AcceptedJob(s.procs[p].job)
         && FreshDraw(s.db, s.procs[p].draw)
  }

  /** Any requests arriving at a database on which no transaction has run yet, with any accounts. */
  lemma FreshIsInitial(env: Env, s: State)
    requires Fresh(s.db) && AllApart(s.procs)
    requires forall p :: 0 <= p < |s.procs| ==>
      && s.procs[p] == Arrival(s.procs[p].job, s.procs[p].draw)
      && (s.procs[p].job.Post? ==> s.procs[p].job.req.amount.coeff > 0 && WholeCents(s.procs[p].job.req.amount))
      && s.procs[p].draw.debitId != s.procs[p].draw.creditId
      && forall i :: 0 <= i < |s.db.accounts| ==> s.db.accounts[i].id != s.procs[p].draw.accountId
    ensures Initial(env, s)
  {
    FreshInv(env, s.db);
  }

  lemma InitialInv(env: Env, s: State)
    requires Initial(env, s)
    ensures StateInv(env, s)
  {
  }

  lemma HeldDisjoint(procs: seq<Proc>, p: nat, q: nat)
    requires Exclusive(procs) && p < |procs| && q < |procs| && p != q
    ensures procs[p].held !! procs[q].held
  {
  }

  /** A statement takes at most the lock it asked for. */
  lemma NextHeld(env: Env, db: Db, p: Proc)
    ensures Next(env, db, p).held <= p.held + (match Wants(db, p) case Some(l) => {l} case None => {})
    ensures Next(env, db, p).draw == p.draw && Next(env, db, p).job == p.job
  {
    SameRequest(env, db, p);
  }

  lemma StepExclusive(env: Env, s: State, p: nat, after: Proc)
    requires Exclusive(s.procs) && p < |s.procs|
    requires forall q :: 0 <= q < |s.procs| && q != p ==> after.held !! s.procs[q].held
    ensures Exclusive(s.procs[p := after])
  {
    var procs := s.procs[p := after];
    forall i, j | 0 <= i < j < |procs|
      ensures procs[i].held !! procs[j].held
    {
      if i != p && j != p {
        HeldDisjoint(s.procs, i, j);
      }
    }
  }

  lemma AdvanceExclusive(env: Env, s: State, p: nat)
    requires Exclusive(s.procs) && Running(s, p) && !Blocked(s, p)
    ensures Exclusive(s.procs[p := Next(env, s.db, s.procs[p])])
  {
    var after := Next(env, s.db, s.procs[p]);
    NextHeld(env, s.db, s.procs[p]);
    forall q | 0 <= q < |s.procs| && q != p
      ensures after.held !! s.procs[q].held
    {
      HeldDisjoint(s.procs, p, q);
      assert !WaitsFor(s, p, q);
    }
    StepExclusive(env, s, p, after);
  }

  lemma FinishExclusive(env: Env, s: State, p: nat, response: Response)
    requires Exclusive(s.procs) && p < |s.procs|
    ensures Exclusive(s.procs[p := Finish(s.procs[p], response)])
  {
    StepExclusive(env, s, p, Finish(s.procs[p], response));
  }

  lemma SameDraws(procs: seq<Proc>, p: nat, after: Proc)
    requires AllApart(procs) && p < |procs| && after.draw == procs[p].draw
    ensures AllApart(procs[p := after])
  {
    var changed := procs[p := after];
    forall i, j | 0 <= i < j < |changed|
      ensures DrawsApart(changed[i].draw, changed[j].draw)
    {
      assert DrawsApart(procs[i].draw, procs[j].draw);
    }
  }

  /** Changing one request, and nothing committed. */
  lemma ReplaceKeepsInv(env: Env, s: State, p: nat, after: Proc)
    requires StateInv(env, s) && Running(s, p)
    requires ProcOk(env, s.db, after) && after.draw == s.procs[p].draw
    requires Exclusive(s.procs[p := after])
    ensures StateInv(env, State(s.db, s.procs[p := after]))
  {
    var changed := State(s.db, s.procs[p := after]);
    SameDraws(s.procs, p, after);
    forall q | 0 <= q < |changed.procs|
      ensures ProcAt(env, changed, q)
    {
      assert ProcAt(env, s, q);
    }
  }

  lemma AbortKeepsInv(env: Env, s: State, p: nat)
    requires StateInv(env, s) && Running(s, p)
    ensures StateInv(env, Exec(env, s, Abort(p)))
  {
    assert ProcAt(env, s, p);
    FinishExclusive(env, s, p, Aborted);
    FinishedOk(env, s.db, s.procs[p], Aborted);
    ReplaceKeepsInv(env, s, p, Finish(s.procs[p], Aborted));
  }

  lemma FinishedOk(env: Env, db: Db, p: Proc, response: Response)
    requires ProcOk(env, db, p)
    ensures ProcOk(env, db, Finish(p, response))
  {
  }

  lemma StatementKeepsInv(env: Env, s: State, p: nat)
    requires StateInv(env, s) && Running(s, p) && !Blocked(s, p) && s.procs[p].pc != Commit
    ensures StateInv(env, Exec(env, s, Advance(p)))
  {
    assert ProcAt(env, s, p);
    NextKeepsOk(env, s.db, s.procs[p]);
    NextHeld(env, s.db, s.procs[p]);
    AdvanceExclusive(env, s, p);
    ReplaceKeepsInv(env, s, p, Next(env, s.db, s.procs[p]));
  }

  /** What a committing request adds carries only its own draws. */
  lemma CommitDraws(env: Env, db: Db, p: Proc)
    requires ProcOk(env, db, p) && p.pc == Commit
    ensures forall a :: a in p.pend.accounts ==> a.id == p.draw.accountId
    ensures forall t :: t in p.pend.txns ==> t.id == p.draw.txnId
    ensures forall e :: e in p.pend.entries ==> e.id == p.draw.debitId || e.id == p.draw.creditId
    ensures forall e :: e in p.pend.events ==> e.id == p.draw.eventId
  {
  }

  lemma StillFresh(env: Env, db: Db, p: Proc, draw: Draw)
    requires ProcOk(env, db, p) && p.pc == Commit
    requires FreshDraw(db, draw) && (DrawsApart(p.draw, draw) || DrawsApart(draw, p.draw))
    ensures FreshDraw(Apply(db, p.pend), draw)
  {
    CommitDraws(env, db, p);
  }

  lemma CommitKeepsInv(env: Env, s: State, p: nat)
    requires StateInv(env, s) && Running(s, p) && !Blocked(s, p) && s.procs[p].pc == Commit
    ensures StateInv(env, Exec(env, s, Advance(p)))
  {
    var proc, after := s.procs[p], Exec(env, s, Advance(p));
    assert ProcAt(env, s, p);
    CommitIsSequential(env, s.db, proc);
    PerformKeepsInv(env, s.db, proc.job, proc.draw);
    CommitCovered(env, s.db, proc);
    FinishExclusive(env, s, p, Success(proc));
    SameDraws(s.procs, p, after.procs[p]);
    forall q | 0 <= q < |after.procs|
      ensures ProcAt(env, after, q)
    {
      if q != p {
        assert ProcAt(env, s, q);
        HeldDisjoint(s.procs, p, q);
        OkStays(env, s.db, proc.pend, proc.held, s.procs[q]);
        if !s.procs[q].pc.Done? {
          assert DrawsApart(proc.draw, s.procs[q].draw) || DrawsApart(s.procs[q].draw, proc.draw);
          StillFresh(env, s.db, proc, s.procs[q].draw);
        }
      }
    }
  }

  lemma ExecKeepsInv(env: Env, s: State, a: Action)
    requires StateInv(env, s)
    ensures StateInv(env, Exec(env, s, a))
  {
    if Enabled(s, a) {
      match a
      case Abort(p) => AbortKeepsInv(env, s, p);
      case Advance(p) =>
        if s.procs[p].pc == Commit {
          CommitKeepsInv(env, s, p);
        } else {
          StatementKeepsInv(env, s, p);
        }
    }
  }

  /** Every state of every run satisfies the invariant, whatever the schedule and the aborts. */
  lemma {:induction false} RunKeepsInv(env: Env, s: State, schedule: seq<Action>)
    requires StateInv(env, s)
    ensures StateInv(env, Run(env, s, schedule))
  {
    if schedule != [] {
      RunKeepsInv(env, s, schedule[..|schedule| - 1]);
      ExecKeepsInv(env, Run(env, s, schedule[..|schedule| - 1]), schedule[|schedule| - 1]);
    }
  }

  // ----- Serialisability -----

  datatype Call = Call(job: Job, draw: Draw)

  /** The calls that took effect, in commit order. */
  ghost function Commits(env: Env, s: State, schedule: seq<Action>): seq<Call> {
    if schedule == [] then []
    else
      var before, a := Run(env, s, schedule[..|schedule| - 1]), schedule[|schedule| - 1];
      var earlier := Commits(env, s, schedule[..|schedule| - 1]);
      if Enabled(before, a) && a.Advance? && before.procs[a.p].pc == Commit
      then earlier + [Call(before.procs[a.p].job, before.procs[a.p].draw)]
      else earlier
  }

  /** Performs the calls one after the other; None when some call does not succeed. */
  function Replay(env: Env, db: Db, calls: seq<Call>): Option<Db> {
    if calls == [] then Some(db)
    else
      match Replay(env, db, calls[..|calls| - 1])
      case None => None
      case Some(mid) =>
        var out := Perform(env, mid, calls[|calls| - 1].job, calls[|calls| - 1].draw);
        if out.response.Created? || out.response.Opened? then Some(out.db) else None
  }

  /** One action either leaves the committed tables alone or performs exactly one successful sequential call. */
  lemma ActionIsAtomic(env: Env, s: State, a: Action)
    requires StateInv(env, s)
    ensures
      var after := Exec(env, s, a);
      if Enabled(s, a) && a.Advance? && s.procs[a.p].pc == Commit
      then Perform(env, s.db, s.procs[a.p].job, s.procs[a.p].draw) == Outcome(after.db, Success(s.procs[a.p]))
      else after.db == s.db
  {
    if Enabled(s, a) {
      assert ProcAt(env, s, a.p);
      if a.Advance? && s.procs[a.p].pc == Commit {
        CommitIsSequential(env, s.db, s.procs[a.p]);
      }
    }
  }

  /** Whatever the schedule, the committed tables are those of a sequential run of the committed calls. */
  lemma {:induction false} Serialisable(env: Env, s: State, schedule: seq<Action>)
    requires StateInv(env, s)
    ensures Replay(env, s.db, Commits(env, s, schedule)) == Some(Run(env, s, schedule).db)
  {
    hide StateInv, Exec, Perform;
    if schedule != [] {
      var front, a := schedule[..|schedule| - 1], schedule[|schedule| - 1];
      var before := Run(env, s, front);
      Serialisable(env, s, front);
      RunKeepsInv(env, s, front);
      ActionIsAtomic(env, before, a);
      if Enabled(before, a) && a.Advance? && before.procs[a.p].pc == Commit {
        var calls := Commits(env, s, schedule);
        assert calls[..|calls| - 1] == Commits(env, s, front);
      }
    }
  }

  datatype Posted = Posted(req: Request, draw: Draw)

  /** The transactions among the calls. */
  function Posts(calls: seq<Call>): seq<Posted> {
    if calls == [] then []
    else
      var last := calls[|calls| - 1];
      match last.job
      case Post(req) => Posts(calls[..|calls| - 1]) + [Posted(req, last.draw)]
      case Open(_) => Posts(calls[..|calls| - 1])
  }

  /** Row i records the i-th posted call. */
  ghost predicate RowsOf(txns: seq<Txn>, posts: seq<Posted>) {
    && |txns| == |posts|
    && forall i :: 0 <= i < |txns| ==> txns[i].key == posts[i].req.key && txns[i].id == posts[i].draw.txnId
  }

  lemma PerformAppends(env: Env, db: Db, job: Job, draw: Draw) returns (rows: seq<Txn>)
    requires var r := Perform(env, db, job, draw).response; r.Created? || r.Opened?
    ensures Perform(env, db, job, draw).db.txns == db.txns + rows
    ensures RowsOf(rows, match job case Post(req) => [Posted(req, draw)] case Open(_) => [])
  {
    match job
    case Post(req) => rows := [LinkedTxn(env, db.txns, req, draw)];
    case Open(_) => rows := [];
  }

  lemma MoreRows(txns: seq<Txn>, posts: seq<Posted>, rows: seq<Txn>, more: seq<Posted>)
    requires RowsOf(txns, posts) && RowsOf(rows, more)
    ensures RowsOf(txns + rows, posts + more)
  {
  }

  /** Each sequential transaction appends its row at the end of the table. */
  lemma {:induction false} ReplayOrder(env: Env, db: Db, calls: seq<Call>)
    requires Replay(env, db, calls).Some?
    ensures |Replay(env, db, calls).value.txns| >= |db.txns|
    ensures Replay(env, db, calls).value.txns[..|db.txns|] == db.txns
    ensures RowsOf(Replay(env, db, calls).value.txns[|db.txns|..], Posts(calls))
  {
    if calls != [] {
      var front, last := calls[..|calls| - 1], calls[|calls| - 1];
      ReplayOrder(env, db, front);
      var mid := Replay(env, db, front).value;
      var rows := PerformAppends(env, mid, last.job, last.draw);
      MoreRows(mid.txns[|db.txns|..], Posts(front), rows,
               match last.job case Post(req) => [Posted(req, last.draw)] case Open(_) => []);
      AppendAfter(mid.txns, rows, |db.txns|);
    }
  }

  lemma AppendAfter<T>(s: seq<T>, more: seq<T>, n: nat)
    requires n <= |s|
    ensures (s + more)[..n] == s[..n] && (s + more)[n..] == s[n..] + more
  {
  }

  /** In every reachable state chain_seq counts the commits: the rows are numbered 1..n in commit order, the rows
      added are those of the committed requests in that order, and the verifier accepts the chain. */
  lemma ChainOrderIsCommitOrder(env: Env, s: State, schedule: seq<Action>)
    requires StateInv(env, s)
    ensures |Run(env, s, schedule).db.txns| >= |s.db.txns|
    ensures RowsOf(Run(env, s, schedule).db.txns[|s.db.txns|..], Posts(Commits(env, s, schedule)))
    ensures forall i :: 0 <= i < |Run(env, s, schedule).db.txns| ==>
      Run(env, s, schedule).db.txns[i].chainSeq == Some(i + 1)
    ensures Report(env, Run(env, s, schedule).db.txns) == ChainReport(true, |Run(env, s, schedule).db.txns|, [])
  {
    Serialisable(env, s, schedule);
    ReplayOrder(env, s.db, Commits(env, s, schedule));
    RunKeepsInv(env, s, schedule);
    LinearPasses(env, Run(env, s, schedule).db.txns);
  }

  // ----- What holds in every reachable state -----

  /** No schedule overdraws an account other than the clearing account. */
  lemma NoOverdraft(env: Env, s: State, schedule: seq<Action>, i: nat)
    requires Initial(env, s)
    requires i < |Run(env, s, schedule).db.accounts|
    requires Run(env, s, schedule).db.accounts[i].name != EXTERNAL_CLEARING
    ensures var db := Run(env, s, schedule).db; Balance(db.entries, db.accounts[i].id) >= 0
  {
    InitialInv(env, s);
    RunKeepsInv(env, s, schedule);
  }

  /** In every reachable state the clearing balance is minus the sum of all others. */
  lemma ClearingMirror(env: Env, s: State, schedule: seq<Action>)
    requires Initial(env, s)
    requires ClearingOf(Run(env, s, schedule).db.accounts).Some?
    ensures
      var db := Run(env, s, schedule).db;
      Balance(db.entries, ClearingOf(db.accounts).value.id) == -OtherBalances(db.accounts, db.entries) <= 0
  {
    InitialInv(env, s);
    RunKeepsInv(env, s, schedule);
    var db := Run(env, s, schedule).db;
    ClearingMirrorsOthers(env, db, ClearingOf(db.accounts).value);
  }

  /** At most one transaction per idempotency key is ever committed. */
  lemma OneTransactionPerKey(env: Env, s: State, schedule: seq<Action>, i: nat, j: nat)
    requires Initial(env, s)
    requires i < |Run(env, s, schedule).db.txns| && j < |Run(env, s, schedule).db.txns|
    requires Run(env, s, schedule).db.txns[i].key == Run(env, s, schedule).db.txns[j].key
    ensures i == j
  {
    InitialInv(env, s);
    RunKeepsInv(env, s, schedule);
  }

  /** Every committed deposit and withdrawal used the one clearing account, whoever created it. */
  lemma OneClearingAccount(env: Env, s: State, schedule: seq<Action>, i: nat)
    requires Initial(env, s)
    requires i < |Run(env, s, schedule).db.txns| && Run(env, s, schedule).db.txns[i].kind != Transfer
    ensures |Run(env, s, schedule).db.entries| == 2 * |Run(env, s, schedule).db.txns|
    ensures ClearingOf(Run(env, s, schedule).db.accounts).Some?
    ensures
      var db := Run(env, s, schedule).db;
      ClearingOf(db.accounts).value.id ==
        (if db.txns[i].kind == Deposit then db.entries[2 * i].accountId else db.entries[2 * i + 1].accountId)
  {
    InitialInv(env, s);
    RunKeepsInv(env, s, schedule);
    assert RecordedAt(Run(env, s, schedule).db, i);
  }
}
