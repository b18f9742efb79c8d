/** Deadlock freedom and termination of the concurrent protocol. */
module Progress {
  import opened Values
  import opened Ledger
  import opened Protocol
  import opened Concurrency

  // ----- The order in which locks are requested -----

  /** Clearing advisory, account name, account rows by id, idempotency key, chain advisory. */
  function Rank(lock: Lock): nat {
    match lock
    case ClearingLock => 0
    case NameLock(_) => UUID_SPACE
    case RowLock(id) => 2 * UUID_SPACE + id
    case KeyLock(_) => 3 * UUID_SPACE
    case ChainLock => 4 * UUID_SPACE
  }

  /** A request never waits for a lock ranked at or below one it holds; row locks are re-entrant. */
  lemma WantsHigher(env: Env, db: Db, p: Proc, lock: Lock)
    requires ProcOk(env, db, p) && lock in p.held && Wants(db, p).Some?
    ensures Rank(lock) < Rank(Wants(db, p).value) || lock == Wants(db, p).value
  {
    if p.job.Post? {
      var req := p.job.req;
      assert LockDue(p, req, lock);
      if p.pc.LockRows? {
        var ids, n := LockList(req, p.clearing), RowsLocked(p);
        assert Wants(db, p).value == RowLock(ids[n]);
        assert forall id :: id in ids[..n] ==> id <= ids[n];
      }
    }
  }

  /** The rank of the lock a request needs next; -1 when it needs none. */
  function WantedRank(s: State, p: nat): int
    requires p < |s.procs|
  {
    match Wants(s.db, s.procs[p])
    case Some(lock) => Rank(lock)
    case None => -1
  }

  /** Along every wait the requested rank grows. */
  lemma WaitGrows(env: Env, s: State, p: nat, q: nat)
    requires StateInv(env, s) && p < |s.procs| && q < |s.procs|
    requires WaitsFor(s, p, q) && Blocked(s, q)
    ensures WantedRank(s, p) < WantedRank(s, q)
  {
    assert ProcAt(env, s, q);
    WantsHigher(env, s.db, s.procs[q], Wants(s.db, s.procs[p]).value);
    var r :| 0 <= r < |s.procs| && WaitsFor(s, q, r);
    HeldDisjoint(s.procs, q, r);
  }

  /** Each request of the path waits for the next one. */
  ghost predicate WaitPath(s: State, path: seq<nat>) {
    && (forall i :: 0 <= i < |path| ==> path[i] < |s.procs|)
    && forall i, j :: 0 <= i && j == i + 1 < |path| ==> WaitsFor(s, path[i], path[j])
  }

  lemma {:induction false} RankAlongPath(env: Env, s: State, path: seq<nat>)
    requires StateInv(env, s) && WaitPath(s, path) && |path| >= 2
    requires Blocked(s, path[|path| - 1])
    ensures WantedRank(s, path[0]) < WantedRank(s, path[|path| - 1])
  {
    var n := |path| - 1;
    assert WaitsFor(s, path[n - 1], path[n]);
    WaitGrows(env, s, path[n - 1], path[n]);
    if n >= 2 {
      RankAlongPath(env, s, path[..n]);
    }
  }

  /** The wait-for graph has no cycle in any reachable state. */
  lemma NoWaitCycle(env: Env, s: State, schedule: seq<Action>, path: seq<nat>)
    requires Initial(env, s) && WaitPath(Run(env, s, schedule), path) && |path| >= 2
    ensures path[0] != path[|path| - 1]
  {
    InitialInv(env, s);
    RunKeepsInv(env, s, schedule);
    var r := Run(env, s, schedule);
    if path[0] == path[|path| - 1] {
      assert WaitsFor(r, path[0], path[1]);
      RankAlongPath(env, r, path);
    }
  }

  // ----- Some request can always move -----

  lemma HolderRuns(env: Env, s: State, p: nat, lock: Lock)
    requires StateInv(env, s) && p < |s.procs| && lock in s.procs[p].held
    ensures Running(s, p)
  {
    assert ProcAt(env, s, p);
  }

  /** From a blocked request, following the waits ends at a request that can run its next statement. */
  lemma FollowWaits(env: Env, s: State, p: nat) returns (q: nat)
    requires StateInv(env, s) && Running(s, p)
    ensures Enabled(s, Advance(q))
    decreases 5 * UUID_SPACE - WantedRank(s, p)
  {
    if !Blocked(s, p) {
      q := p;
    } else {
      var r :| 0 <= r < |s.procs| && WaitsFor(s, p, r);
      HolderRuns(env, s, r, Wants(s.db, s.procs[p]).value);
      if Blocked(s, r) {
        var t :| 0 <= t < |s.procs| && WaitsFor(s, r, t);
        WaitGrows(env, s, p, r);
        q := FollowWaits(env, s, r);
      } else {
        q := r;
      }
    }
  }

  /** No reachable state is a deadlock: while a request is unfinished, some request can run without aborting. */
  lemma NoDeadlock(env: Env, s: State, schedule: seq<Action>, p: nat)
    requires Initial(env, s) && Running(Run(env, s, schedule), p)
    ensures exists q :: Enabled(Run(env, s, schedule), Advance(q))
  {
    InitialInv(env, s);
    RunKeepsInv(env, s, schedule);
    var q := FollowWaits(env, Run(env, s, schedule), p);
  }

  // ----- Every schedule finishes -----

  /** Upper bound on the statements a request has left. */
  function StepsLeft(p: Proc): nat {
    match p.pc
    case ReadKey => 15
    case FindClearing => 14
    case TakeClearingLock => 13
    case RecheckClearing => 12
    case InsertClearing => 11
    case LockRows(todo) => 8 + |todo|
    case CheckFunds => 7
    case InsertTxn => 6
    case AddEntries => 5
    case TakeChainLock => 4
    case LinkTip => 3
    case QueueEvent => 2
    case ReadName => 3
    case InsertName => 2
    case Commit => 1
    case Done(_) => 0
  }

  function Measure(procs: seq<Proc>): nat {
    if procs == [] then 0 else Measure(procs[..|procs| - 1]) + StepsLeft(procs[|procs| - 1])
  }

  lemma {:induction false} MeasureUpdate(procs: seq<Proc>, p: nat, after: Proc)
    requires p < |procs|
    ensures Measure(procs[p := after]) + StepsLeft(procs[p]) == Measure(procs) + StepsLeft(after)
  {
    var n := |procs| - 1;
    if p == n {
      assert procs[p := after][..n] == procs[..n];
    } else {
      assert procs[p := after][..n] == procs[..n][p := after];
      MeasureUpdate(procs[..n], p, after);
    }
  }

  lemma PostCloser(env: Env, db: Db, p: Proc, req: Request)
    requires Stage(p.pc) < 12
    ensures StepsLeft(AdvancePost(env, db, p, req)) < StepsLeft(p)
  {
    match p.pc
    case ReadKey => assert |LockList(req, 0)| == 2;
    case FindClearing => PostCloserAtLookup(env, db, p, req);
    case RecheckClearing => PostCloserAtLookup(env, db, p, req);
    case InsertClearing => assert |LockList(req, p.draw.accountId)| == 2;
    case _ =>
  }

  lemma PostCloserAtLookup(env: Env, db: Db, p: Proc, req: Request)
    requires p.pc == FindClearing || p.pc == RecheckClearing
    ensures StepsLeft(AdvancePost(env, db, p, req)) < StepsLeft(p)
  {
  }

  lemma NextCloser(env: Env, db: Db, p: Proc)
    requires ProcOk(env, db, p) && !p.pc.Done? && p.pc != Commit
    ensures StepsLeft(Next(env, db, p)) < StepsLeft(p)
  {
    if p.job.Post? {
      PostCloser(env, db, p, p.job.req);
    }
  }

  lemma ExecCloser(env: Env, s: State, a: Action)
    requires StateInv(env, s) && Enabled(s, a)
    ensures Measure(Exec(env, s, a).procs) < Measure(s.procs)
  {
    var p := s.procs[a.p];
    assert ProcAt(env, s, a.p);
    if a.Advance? && p.pc != Commit {
      NextCloser(env, s.db, p);
    }
    ExecReplaces(env, s, a);
    MeasureUpdate(s.procs, a.p, Exec(env, s, a).procs[a.p]);
  }

  /** An action changes one request. */
  lemma ExecReplaces(env: Env, s: State, a: Action)
    requires Enabled(s, a)
    ensures
      var p := s.procs[a.p];
      var after :=
        if a.Abort? then Finish(p, Aborted)
        else if p.pc == Commit then Finish(p, Success(p))
        else Next(env, s.db, p);
      Exec(env, s, a).procs == s.procs[a.p := after]
  {
  }

  /** How many actions of the schedule had an effect. */
  ghost function Moves(env: Env, s: State, schedule: seq<Action>): nat {
    if schedule == [] then 0
    else
      var front := schedule[..|schedule| - 1];
      Moves(env, s, front) + (if Enabled(Run(env, s, front), schedule[|schedule| - 1]) then 1 else 0)
  }

  lemma {:induction false} MovesBounded(env: Env, s: State, schedule: seq<Action>)
    requires StateInv(env, s)
    ensures Moves(env, s, schedule) + Measure(Run(env, s, schedule).procs) <= Measure(s.procs)
  {
    if schedule != [] {
      var front, a := schedule[..|schedule| - 1], schedule[|schedule| - 1];
      MovesBounded(env, s, front);
      RunKeepsInv(env, s, front);
      if Enabled(Run(env, s, front), a) {
        ExecCloser(env, Run(env, s, front), a);
      }
    }
  }

  lemma {:induction false} ArrivalMeasure(procs: seq<Proc>)
    requires forall p :: 0 <= p < |procs| ==> procs[p] == Arrival(procs[p].job, procs[p].draw)
    ensures Measure(procs) <= 15 * |procs|
  {
    if procs != [] {
      ArrivalMeasure(procs[..|procs| - 1]);
    }
  }

  /** n requests make at most 15 n moves, under every schedule. */
  lemma EveryScheduleFinishes(env: Env, s: State, schedule: seq<Action>)
    requires Initial(env, s)
    ensures Moves(env, s, schedule) <= 15 * |s.procs|
  {
    InitialInv(env, s);
    MovesBounded(env, s, schedule);
    ArrivalMeasure(s.procs);
  }

  lemma {:induction false} RunFront(env: Env, s: State, a: Action, rest: seq<Action>)
    ensures Run(env, s, [a] + rest) == Run(env, Exec(env, s, a), rest)
  {
    if rest == [] {
      assert [a] + rest == [a] && [a][..0] == [];
    } else {
      var n := |rest| - 1;
      assert ([a] + rest)[..n + 1] == [a] + rest[..n];
      RunFront(env, s, a, rest[..n]);
    }
  }

  /** From every reachable state all requests can run to an answer without a single abort. */
  lemma CanAlwaysFinish(env: Env, s: State) returns (rest: seq<Action>)
    requires StateInv(env, s)
    ensures forall a :: a in rest ==> a.Advance?
    ensures forall p :: 0 <= p < |Run(env, s, rest).procs| ==> Run(env, s, rest).procs[p].pc.Done?
    decreases Measure(s.procs)
  {
    if p :| 0 <= p < |s.procs| && !s.procs[p].pc.Done? {
      var q := FollowWaits(env, s, p);
      ExecCloser(env, s, Advance(q));
      ExecKeepsInv(env, s, Advance(q));
      var more := CanAlwaysFinish(env, Exec(env, s, Advance(q)));
      RunFront(env, s, Advance(q), more);
      rest := [Advance(q)] + more;
    } else {
      rest := [];
    }
  }
}
