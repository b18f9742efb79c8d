/** The interleaved statements against the reference: a request that nothing disturbs gets exactly the reference's
    answer, whichever it is, and nobody is answered by an abort that did not happen. */
module Alone {
  import opened Values
  import opened Ledger
  import opened Invariant
  import opened Protocol
  import opened Concurrency
  import opened Progress

  /** The request can still end as the reference does, or it has. */
  ghost predicate OnCourse(env: Env, db: Db, p: Proc) {
    if p.pc.Done? then Perform(env, db, p.job, p.draw) == Outcome(db, p.pc.response)
    else
      && ProcOk(env, db, p)
      && match p.job
         case Post(req) =>
           && (Stage(p.pc) > 0 ==> FindKey(db.txns, req.key).None?)
           && (2 <= Stage(p.pc) <= 4 ==> ClearingOf(db.accounts).None?)
         case Open(name) => p.pc == InsertName ==> FindName(db.accounts, name).None?
  }

  lemma EarlyOnCourse(env: Env, db: Db, p: Proc, req: Request)
    requires OnCourse(env, db, p) && p.job == Post(req) && Stage(p.pc) <= 4
    ensures OnCourse(env, db, AdvancePost(env, db, p, req))
  {
    hide EarlyOk, LateOk, NewTxn, LinkedTxn, NewEntries, NewEvent, Record;
    NothingPending(env, db, p, req);
    PostKeepsOk(env, db, p, req);
  }

  lemma NothingPending(env: Env, db: Db, p: Proc, req: Request)
    requires PostOk(env, db, p, req) && Stage(p.pc) <= 4
    ensures Seen(db, p).accounts == db.accounts
  {
    assert db.accounts + [] == db.accounts;
  }

  /** The first row that is missing for the lock loop is the first that is missing at all. */
  lemma MissingOnCourse(env: Env, db: Db, p: Proc, req: Request)
    requires OnCourse(env, db, p) && p.job == Post(req) && p.pc.LockRows? && p.pc.todo != []
    requires FindAccount(Seen(db, p).accounts, p.pc.todo[0]).None?
    ensures Perform(env, db, p.job, p.draw) == Outcome(db, NotFound(p.pc.todo[0]))
  {
    var ids, accounts := LockList(req, p.clearing), db.accounts + p.pend.accounts;
    assert ids[1..] == [ids[1]];
    assert p.pc.todo == ids[RowsLocked(p)..];
    assert FirstMissing(accounts, ids) == Some(p.pc.todo[0]);
  }

  lemma FundsOnCourse(env: Env, db: Db, p: Proc, req: Request)
    requires OnCourse(env, db, p) && p.job == Post(req) && p.pc == CheckFunds
    requires !Funded(Seen(db, p).entries, req, p.clearing)
    ensures Perform(env, db, p.job, p.draw) == Outcome(db, InsufficientBalance)
  {
    assert Seen(db, p).entries == db.entries;
    SecuredNotMissing(db, p, req);
  }

  lemma LateOnCourse(env: Env, db: Db, p: Proc, req: Request)
    requires OnCourse(env, db, p) && p.job == Post(req) && 5 <= Stage(p.pc) < 12
    ensures OnCourse(env, db, AdvancePost(env, db, p, req))
  {
    hide NewTxn, LinkedTxn, NewEntries, NewEvent, Record, LockDue, FindAccount, RowsSecured, ClearingSettled,
      PendingSoFar, LocksDue, KeyAndChain, RowsLocked;
    PostKeepsOk(env, db, p, req);
    if p.pc.LockRows? && p.pc.todo != [] && FindAccount(Seen(db, p).accounts, p.pc.todo[0]).None? {
      MissingOnCourse(env, db, p, req);
    } else if p.pc == CheckFunds && !Funded(Seen(db, p).entries, req, p.clearing) {
      FundsOnCourse(env, db, p, req);
    }
  }

  lemma CourseStage(env: Env, db: Db, p: Proc)
    requires OnCourse(env, db, p) && !p.pc.Done? && p.pc != Commit
    ensures p.job.Post? ==> Stage(p.pc) < 12
  {
  }

  lemma OpenOnCourse(env: Env, db: Db, p: Proc, name: string)
    requires OnCourse(env, db, p) && p.job == Open(name) && !p.pc.Done? && p.pc != Commit
    ensures OnCourse(env, db, AdvanceOpen(db, p, name))
  {
  }

  lemma NextOnCourse(env: Env, db: Db, p: Proc)
    requires OnCourse(env, db, p) && !p.pc.Done? && p.pc != Commit
    ensures OnCourse(env, db, Next(env, db, p))
  {
    CourseStage(env, db, p);
    hide OnCourse;
    match p.job
    case Post(req) =>
      if Stage(p.pc) <= 4 {
        EarlyOnCourse(env, db, p, req);
      } else {
        LateOnCourse(env, db, p, req);
      }
    case Open(name) => OpenOnCourse(env, db, p, name);
  }

  /** No other request holds a lock. */
  ghost predicate Undisturbed(s: State, p: nat) {
    p < |s.procs| && forall q :: 0 <= q < |s.procs| && q != p ==> s.procs[q].held == {}
  }

  /** p has its answer, the tables are those of the reference, and every other request is where it was. */
  ghost predicate EndsAs(out: Outcome, s: State, p: nat, after: State) {
    && p < |s.procs| == |after.procs|
    && after.procs[p].pc == Done(out.response) && after.db == out.db
    && forall q :: 0 <= q < |s.procs| && q != p ==> after.procs[q] == s.procs[q]
  }

  lemma OneStatement(env: Env, s: State, p: nat)
    requires Undisturbed(s, p) && OnCourse(env, s.db, s.procs[p]) && !s.procs[p].pc.Done?
    ensures
      var proc, after := s.procs[p], Exec(env, s, Advance(p));
      if proc.pc == Commit then EndsAs(Perform(env, s.db, proc.job, proc.draw), s, p, after)
      else
        && after == s.(procs := s.procs[p := Next(env, s.db, proc)])
        && Undisturbed(after, p) && OnCourse(env, after.db, after.procs[p])
        && after.procs[p].job == proc.job && after.procs[p].draw == proc.draw
        && StepsLeft(after.procs[p]) < StepsLeft(proc)
  {
    var proc := s.procs[p];
    assert !Blocked(s, p);
    if proc.pc == Commit {
      CommitIsSequential(env, s.db, proc);
    } else {
      NextOnCourse(env, s.db, proc);
      NextCloser(env, s.db, proc);
      SameRequest(env, s.db, proc);
    }
  }

  lemma {:induction false} CourseEnds(env: Env, s: State, p: nat) returns (schedule: seq<Action>)
    requires Undisturbed(s, p) && OnCourse(env, s.db, s.procs[p])
    ensures forall a :: a in schedule ==> a == Advance(p)
    ensures EndsAs(Perform(env, s.db, s.procs[p].job, s.procs[p].draw), s, p, Run(env, s, schedule))
    decreases StepsLeft(s.procs[p])
  {
    if s.procs[p].pc.Done? {
      schedule := [];
    } else {
      hide OnCourse, Perform, Exec, Next;
      OneStatement(env, s, p);
      var more := [];
      if s.procs[p].pc != Commit {
        more := CourseEnds(env, Exec(env, s, Advance(p)), p);
      }
      RunFront(env, s, Advance(p), more);
      schedule := [Advance(p)] + more;
    }
  }

  /** Statement by statement, a request that arrives while no other holds a lock and runs without interruption leaves
      the tables and gives the answer of the sequential reference, for every request and every tables. */
  lemma AloneIsSequential(env: Env, s: State, p: nat) returns (schedule: seq<Action>)
    requires Undisturbed(s, p) && s.procs[p] == Arrival(s.procs[p].job, s.procs[p].draw)
    requires AcceptedJob(s.procs[p].job)
    ensures forall a :: a in schedule ==> a == Advance(p)
    ensures EndsAs(Perform(env, s.db, s.procs[p].job, s.procs[p].draw), s, p, Run(env, s, schedule))
  {
    schedule := CourseEnds(env, s, p);
  }

  // ----- Aborts -----

  lemma PostNeverAborts(env: Env, db: Db, p: Proc, req: Request)
    requires !p.pc.Done?
    ensures AdvancePost(env, db, p, req).pc != Done(Aborted)
  {
  }

  /** A request is answered by an abort only if the schedule aborted it. */
  lemma {:induction false} AbortedMeansAbort(env: Env, s: State, schedule: seq<Action>, p: nat)
    requires Initial(env, s)
    requires p < |Run(env, s, schedule).procs| && Run(env, s, schedule).procs[p].pc == Done(Aborted)
    ensures Abort(p) in schedule
  {
    hide AdvancePost;
    var front, a := schedule[..|schedule| - 1], schedule[|schedule| - 1];
    var before := Run(env, s, front);
    assert schedule == front + [a];
    if before.procs[p].pc == Done(Aborted) {
      AbortedMeansAbort(env, s, front, p);
    } else if before.procs[p].job.Post? && !before.procs[p].pc.Done? {
      PostNeverAborts(env, before.db, before.procs[p], before.procs[p].job.req);
    }
  }
}
