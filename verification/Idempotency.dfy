/** Retries in a sequential history: a request whose key is already committed changes nothing. */
module Idempotency {
  import opened Values
  import opened Text
  import opened Ledger
  import opened Concurrency

  function Final(env: Env, db: Db, calls: seq<Call>): Db {
    if calls == [] then db
    else Perform(env, Final(env, db, calls[..|calls| - 1]), calls[|calls| - 1].job, calls[|calls| - 1].draw).db
  }

  function Answers(env: Env, db: Db, calls: seq<Call>): (r: seq<Response>)
    ensures |r| == |calls|
  {
    if calls == [] then []
    else
      Answers(env, db, calls[..|calls| - 1]) +
      [Perform(env, Final(env, db, calls[..|calls| - 1]), calls[|calls| - 1].job, calls[|calls| - 1].draw).response]
  }

  /** Once committed, a transaction stays the one found under its key. */
  lemma KeyStays(env: Env, db: Db, job: Job, draw: Draw, key: string)
    requires FindKey(db.txns, key).Some?
    ensures FindKey(Perform(env, db, job, draw).db.txns, key) == FindKey(db.txns, key)
  {
    match job
    case Post(req) => FindKeyAppend(db.txns, [LinkedTxn(env, db.txns, req, draw)], key);
    case Open(name) => assert Perform(env, db, job, draw).db.txns == db.txns;
  }

  /** A created transaction is found under its key, with its request hash. */
  lemma CreatedIsFound(env: Env, db: Db, req: Request, draw: Draw)
    requires CreateTransaction(env, db, req, draw).response.Created?
    ensures
      var found := FindKey(CreateTransaction(env, db, req, draw).db.txns, req.key);
      found.Some? && found.value.id == draw.txnId && found.value.requestHash == RequestHash(env, req)
  {
    FindKeyAppend(db.txns, [LinkedTxn(env, db.txns, req, draw)], req.key);
  }

  /** Call i was answered by creating a transaction. */
  predicate CreatedAt(env: Env, db: Db, calls: seq<Call>, i: nat) {
    i < |calls| && calls[i].job.Post? && Answers(env, db, calls)[i].Created?
  }

  lemma {:induction false} CreatedEarlier(env: Env, db: Db, calls: seq<Call>, i: nat)
    requires CreatedAt(env, db, calls, i)
    ensures
      var req := calls[i].job.req;
      var found := FindKey(Final(env, db, calls).txns, req.key);
      found.Some? && found.value.id == calls[i].draw.txnId && found.value.requestHash == RequestHash(env, req)
  {
    var front, last := calls[..|calls| - 1], calls[|calls| - 1];
    if i == |calls| - 1 {
      CreatedIsFound(env, Final(env, db, front), calls[i].job.req, last.draw);
    } else {
      CreatedEarlier(env, db, front, i);
      KeyStays(env, Final(env, db, front), last.job, last.draw, calls[i].job.req.key);
    }
  }

  /** A later request under the same key: a replay of the first when the hashes agree, a conflict when they do not,
      and no change to the ledger either way. */
  lemma RetryAnswer(env: Env, db: Db, calls: seq<Call>, i: nat, retry: Request, draw: Draw)
    requires CreatedAt(env, db, calls, i) && retry.key == calls[i].job.req.key
    ensures CreateTransaction(env, Final(env, db, calls), retry, draw) ==
            Outcome(Final(env, db, calls),
                    if RequestHash(env, retry) == RequestHash(env, calls[i].job.req)
                    then Replayed(calls[i].draw.txnId) else Conflict)
  {
    CreatedEarlier(env, db, calls, i);
  }

  /** Two requests have one canonical form exactly when they agree on everything but the key, the amount digit for
      digit. */
  lemma SameCanonical(a: Request, b: Request)
    ensures CanonicalOf(a) == CanonicalOf(b) <==> a.(key := b.key) == b
  {
    if CanonicalOf(a) == CanonicalOf(b) {
      DecimalTextInjective(a.amount, b.amount);
    }
  }

  /** A later request under a committed key is recognised as a retry exactly when it is the same request again; any
      other request gets the conflict answer. */
  lemma RetryRecognised(env: Env, db: Db, calls: seq<Call>, i: nat, retry: Request, draw: Draw)
    requires CreatedAt(env, db, calls, i) && retry.key == calls[i].job.req.key
    requires RequestHash(env, retry) == RequestHash(env, calls[i].job.req) ==>
               CanonicalOf(retry) == CanonicalOf(calls[i].job.req)
    ensures CreateTransaction(env, Final(env, db, calls), retry, draw).response ==
            if retry == calls[i].job.req then Replayed(calls[i].draw.txnId) else Conflict
  {
    RetryAnswer(env, db, calls, i, retry, draw);
    SameCanonical(retry, calls[i].job.req);
  }

  /** The same value with other digits is not a retry: 10.00 after 10, under one key, is answered with a conflict. */
  lemma SameValueDifferentPrint(env: Env, db: Db, calls: seq<Call>, i: nat, draw: Draw)
    requires CreatedAt(env, db, calls, i) && calls[i].job.req.amount == Decimal(10, 0)
    requires var first := calls[i].job.req;
      RequestHash(env, first.(amount := Decimal(1000, -2))) != RequestHash(env, first)
    ensures var first := calls[i].job.req;
      var second := first.(amount := Decimal(1000, -2));
      && StoredCents(first.amount) == StoredCents(second.amount) == 1000
      && CanonicalOf(first) != CanonicalOf(second)
      && CreateTransaction(env, Final(env, db, calls), second, draw) == Outcome(Final(env, db, calls), Conflict)
  {
    var second := calls[i].job.req.(amount := Decimal(1000, -2));
    assert Pow10(0) == 1 && Pow10(2) == 100;
    assert StoredCents(Decimal(10, 0)) == 10 * Pow10(2) && StoredCents(Decimal(1000, -2)) == 1000 * Pow10(0);
    RetryAnswer(env, db, calls, i, second, draw);
    SameCanonical(calls[i].job.req, second);
  }

  // ----- Any number of retries, anywhere -----

  /** The calls that are not marked as retries. */
  function Strip(calls: seq<Call>, retry: seq<bool>): seq<Call>
    requires |calls| == |retry|
  {
    if calls == [] then []
    else
      var n := |calls| - 1;
      if retry[n] then Strip(calls[..n], retry[..n]) else Strip(calls[..n], retry[..n]) + [calls[n]]
  }

  function StripAnswers(answers: seq<Response>, retry: seq<bool>): seq<Response>
    requires |answers| == |retry|
  {
    if answers == [] then []
    else
      var n := |answers| - 1;
      if retry[n] then StripAnswers(answers[..n], retry[..n]) else StripAnswers(answers[..n], retry[..n]) + [answers[n]]
  }

  /** Call i posts a key under which a transaction is already committed when its turn comes. */
  predicate IsRetry(env: Env, db: Db, calls: seq<Call>, i: nat)
    requires i < |calls|
  {
    calls[i].job.Post? && FindKey(Final(env, db, calls[..i]).txns, calls[i].job.req.key).Some?
  }

  predicate OnlyRetries(env: Env, db: Db, calls: seq<Call>, retry: seq<bool>)
    requires |calls| == |retry|
  {
    forall i :: 0 <= i < |calls| && retry[i] ==> IsRetry(env, db, calls, i)
  }

  lemma AnswersFront(env: Env, db: Db, calls: seq<Call>)
    requires calls != []
    ensures Answers(env, db, calls[..|calls| - 1]) == Answers(env, db, calls)[..|calls| - 1]
  {
  }

  lemma OnlyRetriesFront(env: Env, db: Db, calls: seq<Call>, retry: seq<bool>)
    requires calls != [] && |calls| == |retry| && OnlyRetries(env, db, calls, retry)
    ensures OnlyRetries(env, db, calls[..|calls| - 1], retry[..|calls| - 1])
  {
    var n := |calls| - 1;
    forall i | 0 <= i < n && retry[..n][i]
      ensures IsRetry(env, db, calls[..n], i)
    {
      assert IsRetry(env, db, calls, i);
      assert calls[..n][..i] == calls[..i];
    }
  }

  /** A marked last call leaves the ledger as it found it. */
  lemma LastRetryIsInvisible(env: Env, db: Db, calls: seq<Call>)
    requires calls != [] && IsRetry(env, db, calls, |calls| - 1)
    ensures Final(env, db, calls) == Final(env, db, calls[..|calls| - 1])
  {
  }

  lemma StripAnswersLast(answers: seq<Response>, retry: seq<bool>)
    requires |answers| == |retry| > 0
    ensures
      var n := |answers| - 1;
      StripAnswers(answers, retry) ==
      StripAnswers(answers[..n], retry[..n]) + (if retry[n] then [] else [answers[n]])
  {
  }

  /** Sprinkling retries of committed requests through a history changes neither the final ledger nor the answer to
      any other call. */
  lemma {:induction false} RetriesAreInvisible(env: Env, db: Db, calls: seq<Call>, retry: seq<bool>)
    requires |calls| == |retry| && OnlyRetries(env, db, calls, retry)
    ensures Final(env, db, calls) == Final(env, db, Strip(calls, retry))
    ensures StripAnswers(Answers(env, db, calls), retry) == Answers(env, db, Strip(calls, retry))
  {
    if calls != [] {
      var n := |calls| - 1;
      OnlyRetriesFront(env, db, calls, retry);
      RetriesAreInvisible(env, db, calls[..n], retry[..n]);
      AnswersFront(env, db, calls);
      StripAnswersLast(Answers(env, db, calls), retry);
      if retry[n] {
        LastRetryIsInvisible(env, db, calls);
      } else {
        var kept := Strip(calls, retry);
        assert kept[..|kept| - 1] == Strip(calls[..n], retry[..n]);
      }
    }
  }
}
