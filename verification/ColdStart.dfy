/** The first burst of requests on a ledger without a clearing account. */
module ColdStart {
  import opened Values
  import opened Ledger
  import opened Protocol
  import opened Concurrency

  /** Nobody opens an account under the reserved name. */
  ghost predicate NoRival(s: State) {
    forall p :: 0 <= p < |s.procs| ==> s.procs[p].job != Open(EXTERNAL_CLEARING)
  }

  /** Whoever is about to insert the clearing account will find the name free. */
  ghost predicate NameFree(s: State) {
    forall p :: 0 <= p < |s.procs| && s.procs[p].pc == InsertClearing ==> ClearingOf(s.db.accounts).None?
  }

  lemma ExecKeepsNameFree(env: Env, s: State, a: Action)
    requires StateInv(env, s) && NoRival(s) && NameFree(s)
    ensures NoRival(Exec(env, s, a)) && NameFree(Exec(env, s, a))
  {
    if Enabled(s, a) {
      assert ProcAt(env, s, a.p);
      if a.Advance? && s.procs[a.p].pc == Commit {
        CommitKeepsNameFree(env, s, a.p);
      } else if a.Advance? {
        NextHeld(env, s.db, s.procs[a.p]);
        if Next(env, s.db, s.procs[a.p]).pc == InsertClearing {
          NextFindsNameFree(env, s.db, s.procs[a.p]);
        }
      }
    }
  }

  /** A request reaches the insert only after a lookup that finds nothing. */
  lemma NextFindsNameFree(env: Env, db: Db, p: Proc)
    requires ProcOk(env, db, p) && !p.pc.Done? && p.pc != Commit
    requires p.job.Post? && p.pc != InsertClearing && Next(env, db, p).pc == InsertClearing
    ensures ClearingOf(db.accounts).None?
  {
    OnlyRecheckInserts(env, db, p, p.job.req);
    assert p.pend.accounts == [];
    assert db.accounts + [] == db.accounts;
  }

  lemma OnlyRecheckInserts(env: Env, db: Db, p: Proc, req: Request)
    requires p.pc != InsertClearing && AdvancePost(env, db, p, req).pc == InsertClearing
    ensures p.pc == RecheckClearing && ClearingOf(Seen(db, p).accounts).None?
  {
  }

  lemma CommitKeepsNameFree(env: Env, s: State, c: nat)
    requires StateInv(env, s) && NoRival(s) && NameFree(s)
    requires Running(s, c) && !Blocked(s, c) && s.procs[c].pc == Commit
    ensures NoRival(Exec(env, s, Advance(c))) && NameFree(Exec(env, s, Advance(c)))
  {
    var after := Exec(env, s, Advance(c));
    forall p | 0 <= p < |after.procs| && after.procs[p].pc == InsertClearing
      ensures ClearingOf(after.db.accounts).None?
    {
      assert p != c && after.procs[p] == s.procs[p];
      CommitBringsNoClearing(env, s, p, c);
      FindNameAppend(s.db.accounts, s.procs[c].pend.accounts, EXTERNAL_CLEARING);
    }
  }

  lemma CommitBringsNoClearing(env: Env, s: State, p: nat, c: nat)
    requires StateInv(env, s) && NoRival(s) && p < |s.procs| && c < |s.procs| && p != c
    requires s.procs[p].pc == InsertClearing && s.procs[c].pc == Commit
    ensures FindName(s.procs[c].pend.accounts, EXTERNAL_CLEARING).None?
  {
    HeldDisjoint(s.procs, p, c);
    assert ProcAt(env, s, p) && ProcAt(env, s, c);
    assert ClearingLock in s.procs[p].held;
    RivalCommit(env, s.db, s.procs[c]);
  }

  /** A commit that brings the clearing account holds the advisory lock. */
  lemma RivalCommit(env: Env, db: Db, p: Proc)
    requires ProcOk(env, db, p) && p.pc == Commit && p.job != Open(EXTERNAL_CLEARING) && ClearingLock !in p.held
    ensures FindName(p.pend.accounts, EXTERNAL_CLEARING).None?
  {
    if p.job.Open? {
      assert p.pend.accounts[1..] == [];
    }
  }

  lemma {:induction false} RunKeepsNameFree(env: Env, s: State, schedule: seq<Action>)
    requires StateInv(env, s) && NoRival(s) && NameFree(s)
    ensures NoRival(Run(env, s, schedule)) && NameFree(Run(env, s, schedule))
  {
    if schedule != [] {
      var front := schedule[..|schedule| - 1];
      RunKeepsNameFree(env, s, front);
      RunKeepsInv(env, s, front);
      ExecKeepsNameFree(env, Run(env, s, front), schedule[|schedule| - 1]);
    }
  }

  lemma CreatorIsAlone(env: Env, s: State, p: nat, q: nat)
    requires StateInv(env, s) && NoRival(s)
    requires p < |s.procs| && q < |s.procs| && s.procs[p].pc == InsertClearing
    ensures !WaitsFor(s, p, q)
  {
    if q != p {
      HeldDisjoint(s.procs, p, q);
      assert ProcAt(env, s, p) && ProcAt(env, s, q);
    }
  }

  lemma InsertClearingSucceeds(env: Env, s: State, p: nat)
    requires StateInv(env, s) && NoRival(s) && NameFree(s)
    requires p < |s.procs| && s.procs[p].pc == InsertClearing
    ensures Enabled(s, Advance(p)) && Exec(env, s, Advance(p)).procs[p].pc.LockRows?
  {
    assert ProcAt(env, s, p);
    forall q | 0 <= q < |s.procs|
      ensures !WaitsFor(s, p, q)
    {
      CreatorIsAlone(env, s, p, q);
    }
  }

  /** A request about to insert the clearing account runs its insert at once and goes on to lock rows. */
  ghost predicate Inserts(env: Env, s: State, p: nat)
    requires p < |s.procs|
  {
    Enabled(s, Advance(p)) && Exec(env, s, Advance(p)).procs[p].pc.LockRows?
  }

  /** However many requests race on a cold start, none waits for another's name or collides with it. */
  lemma CreatorInserts(env: Env, s: State, schedule: seq<Action>, p: nat)
    requires Initial(env, s) && NoRival(s)
    requires p < |Run(env, s, schedule).procs| && Run(env, s, schedule).procs[p].pc == InsertClearing
    ensures Inserts(env, Run(env, s, schedule), p)
  {
    InitialInv(env, s);
    RunKeepsInv(env, s, schedule);
    RunKeepsNameFree(env, s, schedule);
    InsertClearingSucceeds(env, Run(env, s, schedule), p);
  }

  // ----- A rival under the reserved name -----

  lemma RunSnoc(env: Env, s: State, schedule: seq<Action>, a: Action)
    ensures Run(env, s, schedule + [a]) == Exec(env, Run(env, s, schedule), a)
  {
    assert (schedule + [a])[..|schedule|] == schedule;
  }

  /** Only c may hold a lock, and that is not one p asks for. */
  ghost predicate Undisturbed(s: State, p: nat, c: nat) {
    && p < |s.procs|
    && (forall r :: 0 <= r < |s.procs| && r != p && r != c ==> s.procs[r].held == {})
    && (p != c && c < |s.procs| ==> s.procs[c].held == {ClearingLock} && Wants(s.db, s.procs[p]) != Some(ClearingLock))
  }

  lemma UndisturbedStep(env: Env, s: State, p: nat, c: nat)
    requires Undisturbed(s, p, c) && !s.procs[p].pc.Done?
    ensures Exec(env, s, Advance(p)) ==
            if s.procs[p].pc == Commit
            then State(Apply(s.db, s.procs[p].pend), s.procs[p := Finish(s.procs[p], Success(s.procs[p]))])
            else s.(procs := s.procs[p := Next(env, s.db, s.procs[p])])
  {
    forall q | 0 <= q < |s.procs|
      ensures !WaitsFor(s, p, q)
    {
    }
  }

  function At(proc: Proc, pc: Pc, held: set<Lock>): Proc {
    proc.(pc := pc, held := held)
  }

  /** A deposit or withdrawal that will look for the clearing account and miss it. */
  ghost predicate Starter(s: State, p: nat, req: Request) {
    && p < |s.procs|
    && s.procs[p] == Arrival(Post(req), s.procs[p].draw)
    && req.kind != Transfer && !Malformed(req) && FindKey(s.db.txns, req.key).None?
  }

  ghost predicate Idle(s: State) {
    && ClearingOf(s.db.accounts).None?
    && forall r :: 0 <= r < |s.procs| ==> s.procs[r].held == {} && s.procs[r].pend == EMPTY
  }

  lemma StarterNext(env: Env, db: Db, proc: Proc, req: Request)
    requires proc == Arrival(Post(req), proc.draw) && ClearingOf(db.accounts).None?
    requires req.kind != Transfer && !Malformed(req) && FindKey(db.txns, req.key).None?
    ensures Next(env, db, proc) == At(proc, FindClearing, {})
    ensures Next(env, db, At(proc, FindClearing, {})) == At(proc, TakeClearingLock, {})
    ensures Next(env, db, At(proc, TakeClearingLock, {})) == At(proc, RecheckClearing, {ClearingLock})
    ensures Next(env, db, At(proc, RecheckClearing, {ClearingLock})) == At(proc, InsertClearing, {ClearingLock})
  {
    assert db.accounts + [] == db.accounts;
  }

  function StarterSchedule(p: nat): seq<Action> {
    [] + [Advance(p)] + [Advance(p)] + [Advance(p)] + [Advance(p)]
  }

  /** One more statement of a request that runs while all others wait at the start. */
  lemma AloneStep(env: Env, s: State, p: nat, schedule: seq<Action>, from: Proc, to: Proc)
    requires p < |s.procs| && Idle(s) && !from.pc.Done? && from.pc != Commit
    requires Run(env, s, schedule) == s.(procs := s.procs[p := from]) && Next(env, s.db, from) == to
    ensures Run(env, s, schedule + [Advance(p)]) == s.(procs := s.procs[p := to])
  {
    RunSnoc(env, s, schedule, Advance(p));
    UndisturbedStep(env, s.(procs := s.procs[p := from]), p, p);
    assert s.procs[p := from][p := to] == s.procs[p := to];
  }

  /** The first four statements of a starter bring it to the insert. */
  lemma ReachInsert(env: Env, s: State, p: nat, req: Request)
    requires Starter(s, p, req) && Idle(s)
    ensures Run(env, s, StarterSchedule(p)) == s.(procs := s.procs[p := At(s.procs[p], InsertClearing, {ClearingLock})])
  {
    var proc, a := s.procs[p], Advance(p);
    StarterNext(env, s.db, proc, req);
    assert s.procs[p := proc] == s.procs;
    AloneStep(env, s, p, [], proc, At(proc, FindClearing, {}));
    AloneStep(env, s, p, [] + [a], At(proc, FindClearing, {}), At(proc, TakeClearingLock, {}));
    AloneStep(env, s, p, [] + [a] + [a], At(proc, TakeClearingLock, {}), At(proc, RecheckClearing, {ClearingLock}));
    AloneStep(env, s, p, [] + [a] + [a] + [a], At(proc, RecheckClearing, {ClearingLock}),
              At(proc, InsertClearing, {ClearingLock}));
  }

  function RivalAccount(proc: Proc): Account {
    Account(proc.draw.accountId, EXTERNAL_CLEARING, false)
  }

  function RivalCommitting(proc: Proc): Proc {
    proc.(pc := Commit, held := {NameLock(EXTERNAL_CLEARING)}, pend := EMPTY.(accounts := [RivalAccount(proc)]))
  }

  lemma RivalNext(env: Env, db: Db, proc: Proc)
    requires proc == Arrival(Open(EXTERNAL_CLEARING), proc.draw) && ClearingOf(db.accounts).None?
    ensures Next(env, db, proc) == proc.(pc := InsertName)
    ensures Next(env, db, proc.(pc := InsertName)) == RivalCommitting(proc)
  {
    assert {} + {NameLock(EXTERNAL_CLEARING)} == {NameLock(EXTERNAL_CLEARING)};
  }

  /** Meanwhile the rival opens its account in three statements. */
  lemma RivalOpens(env: Env, s: State, c: nat, q: nat)
    requires Undisturbed(s, q, c) && c != q && c < |s.procs| && s.procs[c].held == {ClearingLock}
    requires s.procs[q] == Arrival(Open(EXTERNAL_CLEARING), s.procs[q].draw)
    requires ClearingOf(s.db.accounts).None?
    ensures
      var after := Exec(env, Exec(env, Exec(env, s, Advance(q)), Advance(q)), Advance(q));
      && after.db.accounts == s.db.accounts + [RivalAccount(s.procs[q])]
      && |after.procs| == |s.procs| && after.procs[c] == s.procs[c]
  {
    var proc := s.procs[q];
    var mid := s.(procs := s.procs[q := proc.(pc := InsertName)]);
    var last := s.(procs := s.procs[q := RivalCommitting(proc)]);
    RivalNext(env, s.db, proc);
    UndisturbedStep(env, s, q, c);
    UndisturbedStep(env, mid, q, c);
    UndisturbedStep(env, last, q, c);
  }

  function RivalSchedule(p: nat, q: nat): seq<Action> {
    StarterSchedule(p) + [Advance(q)] + [Advance(q)] + [Advance(q)]
  }

  /** An account opened under the reserved name between the second lookup and the insert makes the insert fail. */
  lemma RivalWins(env: Env, s: State, p: nat, req: Request, q: nat)
    requires Starter(s, p, req) && Idle(s)
    requires q < |s.procs| && s.procs[q] == Arrival(Open(EXTERNAL_CLEARING), s.procs[q].draw)
    ensures var now := Run(env, s, RivalSchedule(p, q));
      && p < |now.procs| && now.procs[p].pc == InsertClearing && !Inserts(env, now, p)
      && Next(env, now.db, now.procs[p]).pc == Done(IntegrityError)
  {
    ReachInsert(env, s, p, req);
    var early := Run(env, s, StarterSchedule(p));
    RunSnoc(env, s, StarterSchedule(p), Advance(q));
    RunSnoc(env, s, StarterSchedule(p) + [Advance(q)], Advance(q));
    RunSnoc(env, s, StarterSchedule(p) + [Advance(q)] + [Advance(q)], Advance(q));
    RivalOpens(env, early, p, q);
    FindNameAppend(s.db.accounts, [RivalAccount(s.procs[q])], EXTERNAL_CLEARING);
    InsertFails(env, Run(env, s, RivalSchedule(p, q)), p, req);
  }

  lemma InsertFails(env: Env, s: State, p: nat, req: Request)
    requires p < |s.procs| && s.procs[p].job == Post(req) && s.procs[p].pc == InsertClearing
    requires ClearingOf(s.db.accounts).Some?
    ensures !Inserts(env, s, p) && Next(env, s.db, s.procs[p]).pc == Done(IntegrityError)
  {
  }

  /** Some run brings some request to the insert and makes it wait or fail there. */
  ghost predicate Collides(env: Env, s: State, schedule: seq<Action>, p: nat) {
    && p < |Run(env, s, schedule).procs|
    && Run(env, s, schedule).procs[p].pc == InsertClearing
    && !Inserts(env, Run(env, s, schedule), p)
  }

  /** On a cold start with a deposit or withdrawal on its way, a collision on the clearing account's name is possible
      if and only if somebody opens an account under the reserved name. */
  lemma CollisionIffRival(env: Env, s: State, p: nat, req: Request)
    requires Initial(env, s) && ClearingOf(s.db.accounts).None? && Starter(s, p, req)
    ensures (exists schedule, r: nat :: Collides(env, s, schedule, r)) <==> !NoRival(s)
  {
    if NoRival(s) {
      if schedule, r: nat :| Collides(env, s, schedule, r) {
        CreatorInserts(env, s, schedule, r);
      }
    } else {
      var q :| 0 <= q < |s.procs| && s.procs[q].job == Open(EXTERNAL_CLEARING);
      RivalWins(env, s, p, req, q);
      assert Collides(env, s, RivalSchedule(p, q), p);
    }
  }
}
