/** What an observer of the committed tables can rely on after any run of the concurrent protocol. */
module Reachable {
  import opened Values
  import opened Text
  import opened Chain
  import opened Ledger
  import opened Invariant
  import opened Protocol
  import opened Concurrency
  import opened Audit

  lemma RunInv(env: Env, s: State, schedule: seq<Action>)
    requires Initial(env, s)
    ensures StateInv(env, Run(env, s, schedule))
  {
    InitialInv(env, s);
    RunKeepsInv(env, s, schedule);
  }

  lemma RunSound(env: Env, s: State, schedule: seq<Action>)
    requires Initial(env, s)
    ensures Sound(Run(env, s, schedule).db)
  {
    RunInv(env, s, schedule);
    InvariantPassesAudit(env, Run(env, s, schedule).db);
  }

  /** The independent audit passes in every reachable state, when nothing is committed while it runs. */
  lemma AuditAlwaysPasses(env: Env, s: State, schedule: seq<Action>)
    requires Initial(env, s)
    ensures Faults(Still(Run(env, s, schedule).db)) == []
  {
    RunSound(env, s, schedule);
    NoFaultsIffSound(Run(env, s, schedule).db);
  }

  // ----- The audit while requests run -----

  /** What statement k of an audit sees that runs beside the schedule: the tables after cut(k) of its actions. */
  ghost function Live(env: Env, s: State, schedule: seq<Action>, cut: nat -> nat): nat -> Db
    requires Forward(schedule, cut)
  {
    (k: nat) => Run(env, s, schedule[..cut(k)]).db
  }

  /** Later statements see later moments. */
  ghost predicate Forward(schedule: seq<Action>, cut: nat -> nat) {
    && (forall k: nat :: cut(k) <= |schedule|)
    && forall j: nat, k: nat :: j <= k ==> cut(j) <= cut(k)
  }

  lemma LiveSound(env: Env, s: State, schedule: seq<Action>, cut: nat -> nat, k: nat)
    requires Initial(env, s) && Forward(schedule, cut)
    ensures Sound(Live(env, s, schedule, cut)(k))
  {
    RunSound(env, s, schedule[..cut(k)]);
  }

  /** The faults reported beside any schedule are exactly those of two counts between which a transaction committed. */
  lemma LiveAuditFaults(env: Env, s: State, schedule: seq<Action>, cut: nat -> nat)
    requires Initial(env, s) && Forward(schedule, cut)
    ensures
      var v := ViewsOf(Live(env, s, schedule, cut));
      Faults(v) ==
      (if |v.total.txns| != |v.unique.txns| then [DuplicateKeys(|v.total.txns|, |v.unique.txns|)] else []) +
      (if |v.entries.txns| != |v.txns.txns| then [WrongEntryCount(2 * |v.txns.txns|, 2 * |v.entries.txns|)] else [])
  {
    hide Sound, Faults, Initial, Live;
    forall k: nat
      ensures Sound(Live(env, s, schedule, cut)(k))
    {
      LiveSound(env, s, schedule, cut, k);
    }
    FaultsOfSoundViews(ViewsOf(Live(env, s, schedule, cut)));
  }

  lemma ExecGrows(env: Env, s: State, a: Action)
    ensures s.db.txns <= Exec(env, s, a).db.txns
  {
  }

  lemma {:induction false} TxnsGrow(env: Env, s: State, schedule: seq<Action>, m: nat, n: nat)
    requires m <= n <= |schedule|
    ensures Run(env, s, schedule[..m]).db.txns <= Run(env, s, schedule[..n]).db.txns
  {
    if m < n {
      TxnsGrow(env, s, schedule, m, n - 1);
      assert schedule[..n][..n - 1] == schedule[..n - 1];
      ExecGrows(env, Run(env, s, schedule[..n - 1]), schedule[n - 1]);
    }
  }

  lemma LiveGrows(env: Env, s: State, schedule: seq<Action>, cut: nat -> nat, j: nat, k: nat)
    requires Forward(schedule, cut) && j <= k
    ensures Live(env, s, schedule, cut)(j).txns <= Live(env, s, schedule, cut)(k).txns
  {
    TxnsGrow(env, s, schedule, cut(j), cut(k));
  }

  lemma SamePrefix(a: seq<Txn>, b: seq<Txn>)
    requires a <= b
    ensures |a| == |b| <==> a == b
  {
  }

  /** An audit beside a running ledger passes if and only if no transaction commits between its two key counts and none
      between its two row counts. */
  lemma LiveAuditPasses(env: Env, s: State, schedule: seq<Action>, cut: nat -> nat)
    requires Initial(env, s) && Forward(schedule, cut)
    ensures
      var v := ViewsOf(Live(env, s, schedule, cut));
      Faults(v) == [] <==> v.total.txns == v.unique.txns && v.entries.txns == v.txns.txns
  {
    hide Run, Live, Faults, Initial, Forward;
    var v := ViewsOf(Live(env, s, schedule, cut));
    var n := 3 + 2 * |Live(env, s, schedule, cut)(2).accounts|;
    LiveAuditFaults(env, s, schedule, cut);
    LiveGrows(env, s, schedule, cut, n + 2, n + 3);
    LiveGrows(env, s, schedule, cut, n + 4, n + 5);
    SamePrefix(v.total.txns, v.unique.txns);
    SamePrefix(v.entries.txns, v.txns.txns);
  }

  /** Statements up to n run before the last action of a schedule, the later ones after it. */
  function CutAfter(length: nat, n: nat): nat -> nat {
    (k: nat) => if k <= n then length else length + 1
  }

  lemma CommitAddsTxn(env: Env, s: State, p: nat)
    requires StateInv(env, s) && Enabled(s, Advance(p)) && s.procs[p].pc == Commit && s.procs[p].job.Post?
    ensures |Exec(env, s, Advance(p)).db.txns| == |s.db.txns| + 1
  {
    assert ProcAt(env, s, p);
  }

  lemma AlarmView(env: Env, s: State, schedule: seq<Action>, a: Action, n: nat, k: nat)
    ensures Forward(schedule + [a], CutAfter(|schedule|, n))
    ensures Live(env, s, schedule + [a], CutAfter(|schedule|, n))(k) ==
            (if k <= n then Run(env, s, schedule) else Exec(env, Run(env, s, schedule), a)).db
  {
    var longer := schedule + [a];
    assert longer[..|schedule|] == schedule && longer[..|schedule| + 1] == longer;
  }

  /** An audit that finds one ledger up to its first key count and another one from then on. */
  lemma SplitViews(view: nat -> Db, db: Db, later: Db)
    requires forall k: nat :: view(k) == if k <= 5 + 2 * |db.accounts| then db else later
    ensures ViewsOf(view) == Views(db, db, db, db, db, later, later, later)
  {
    assert view(2) == db;
  }

  lemma SplitAlarm(db: Db, later: Db)
    requires Sound(db) && Sound(later) && |later.txns| == |db.txns| + 1
    ensures Faults(Views(db, db, db, db, db, later, later, later)) == [DuplicateKeys(|db.txns|, |db.txns| + 1)]
  {
    FaultsOfSoundViews(Views(db, db, db, db, db, later, later, later));
  }

  /** The false alarm: when a request commits between the two key counts, a sound ledger is reported to have duplicate
      keys, fewer rows than keys at that. */
  lemma FalseAlarm(env: Env, s: State, schedule: seq<Action>, p: nat)
    requires Initial(env, s) && Enabled(Run(env, s, schedule), Advance(p))
    requires Run(env, s, schedule).procs[p].pc == Commit && Run(env, s, schedule).procs[p].job.Post?
    ensures
      var db := Run(env, s, schedule).db;
      var cut := CutAfter(|schedule|, 5 + 2 * |db.accounts|);
      && Forward(schedule + [Advance(p)], cut)
      && Faults(ViewsOf(Live(env, s, schedule + [Advance(p)], cut))) == [DuplicateKeys(|db.txns|, |db.txns| + 1)]
  {
    hide Run, Exec, Live, Faults, Sound, ViewsOf, Forward, CutAfter;
    var now := Run(env, s, schedule);
    var later := Exec(env, now, Advance(p));
    var n := 5 + 2 * |now.db.accounts|;
    AlarmView(env, s, schedule, Advance(p), n, 0);
    forall k: nat
      ensures Live(env, s, schedule + [Advance(p)], CutAfter(|schedule|, n))(k) == if k <= n then now.db else later.db
    {
      AlarmView(env, s, schedule, Advance(p), n, k);
    }
    SplitViews(Live(env, s, schedule + [Advance(p)], CutAfter(|schedule|, n)), now.db, later.db);
    RunInv(env, s, schedule);
    CommitAddsTxn(env, now, p);
    ExecKeepsInv(env, now, Advance(p));
    InvariantPassesAudit(env, now.db);
    InvariantPassesAudit(env, later.db);
    SplitAlarm(now.db, later.db);
  }

  /** Through replays, conflicts, rejections and aborts, each committed transaction has exactly two entries, which
      sum to zero, and exactly one event. */
  lemma AtomicCorrespondence(env: Env, s: State, schedule: seq<Action>, i: nat)
    requires Initial(env, s) && i < |Run(env, s, schedule).db.txns|
    ensures
      var db := Run(env, s, schedule).db;
      && |EntriesOf(db.entries, db.txns[i].id)| == 2
      && TxnSum(db.entries, db.txns[i].id) == 0
      && |EventsOf(db.events, db.txns[i].id)| == 1
  {
    RunInv(env, s, schedule);
    ExactlyTwoEntriesOneEvent(env, Run(env, s, schedule).db, i);
  }

  /** And no committed entry or event lacks its transaction. */
  lemma NoStrays(env: Env, s: State, schedule: seq<Action>)
    requires Initial(env, s)
    ensures
      var db := Run(env, s, schedule).db;
      && (forall e :: e in db.entries ==>
            FindTxn(db.txns, e.txnId).Some? && FindAccount(db.accounts, e.accountId).Some?)
      && (forall e :: e in db.events ==> FindTxn(db.txns, e.aggregateId).Some?)
  {
    RunInv(env, s, schedule);
    NothingOrphaned(env, Run(env, s, schedule).db);
  }

  lemma RunChain(env: Env, s: State, schedule: seq<Action>)
    requires Initial(env, s)
    ensures Linear(env, Run(env, s, schedule).db.txns) && forall t :: t in Run(env, s, schedule).db.txns ==> Honest(t)
  {
    RunInv(env, s, schedule);
  }

  /** Any table that passes verification and ends in the digest of a reachable one is that table, as far as hashes
      reach, or SHA-256 is broken on texts that are named. */
  lemma ReachableTamperEvidence(
      sha: string -> Digest, json: Canonical -> string, s: State, schedule: seq<Action>, b: seq<Txn>)
    requires Initial(Sha256(sha, json), s)
    requires Report(Sha256(sha, json), b).pass && Chained(b) != [] && forall t :: t in Chained(b) ==> FitsColumns(t)
    requires var txns := Run(Sha256(sha, json), s, schedule).db.txns;
      txns != [] && txns[|txns| - 1].chainHash == Chained(b)[|Chained(b)| - 1].chainHash
    ensures SameOrBroken(sha, Run(Sha256(sha, json), s, schedule).db.txns, Chained(b))
  {
    hide Initial, SameOrBroken;
    RunChain(Sha256(sha, json), s, schedule);
    LinearTamperEvidence(sha, json, Run(Sha256(sha, json), s, schedule).db.txns, b);
  }

  /** In no reachable state is a request about to record a payment out of the clearing account: every withdrawal and
      transfer naming it as source has been, or will be, turned away. */
  lemma ClearingNeverPaysConcurrently(env: Env, s: State, schedule: seq<Action>, p: nat)
    requires Initial(env, s)
    requires p < |Run(env, s, schedule).procs|
    requires var proc := Run(env, s, schedule).procs[p];
      proc.job.Post? && proc.job.req.kind != Deposit && 7 <= Stage(proc.pc) <= 12
    ensures
      var now := Run(env, s, schedule);
      !IsClearing(Seen(now.db, now.procs[p]).accounts, Debited(now.procs[p].job.req, now.procs[p].clearing))
  {
    RunInv(env, s, schedule);
    PastBalanceCheck(env, Run(env, s, schedule), p);
  }

  lemma PastBalanceCheck(env: Env, s: State, p: nat)
    requires StateInv(env, s) && p < |s.procs|
    requires s.procs[p].job.Post? && s.procs[p].job.req.kind != Deposit && 7 <= Stage(s.procs[p].pc) <= 12
    ensures !IsClearing(Seen(s.db, s.procs[p]).accounts, Debited(s.procs[p].job.req, s.procs[p].clearing))
  {
    assert ProcAt(env, s, p);
    PassedPayer(env, s.db, s.procs[p], s.procs[p].job.req);
  }

  lemma PassedPayer(env: Env, db: Db, proc: Proc, req: Request)
    requires Inv(env, db) && FreshDraw(db, proc.draw)
    requires Accepted(req) && PostOk(env, db, proc, req) && req.kind != Deposit && 7 <= Stage(proc.pc) <= 12
    ensures !IsClearing(Seen(db, proc).accounts, Debited(req, proc.clearing))
  {
    PayerIsNotClearing(env, db, req, proc.draw, proc.clearing, proc.pend.accounts);
  }
}
