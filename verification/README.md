# Verified model of the double-entry ledger

A Dafny model of the ledger API and proofs about it. The model follows four connected parts of the system over one
database of accounts, transactions, entries and outbox events.

1. **The write path.** `Ledger` states what one `POST /transactions` or `POST /accounts` does when nothing else runs.
   `Session` is the service code as an object that reads, adds pending rows and commits or rolls back, proved equal to
   that reference, and `Acceptance` gives the exact condition of every answer in terms of the rows. `Protocol` is the
   same code as interleaved statements of any number of requests, with a lock table,
   pending rows, waits and aborts. `Invariant`, `Concurrency`, `ColdStart`, `Progress`, `Reachable` and `Idempotency`
   prove what every schedule keeps: serialisability, no overdraft, no deadlock, one chain, one clearing account.
   `Answers` ties what each client is told to the committed tables, and `Alone` shows that an undisturbed request gets
   the reference's answer.
2. **The hash chain.** `Values` and `Text` give amounts, UUIDs and the chain payload their exact printed forms, with
   decoders. `Chain` links, verifies, localises faults and turns any undetected change into a SHA-256 collision.
   `BrokenRows` states what is reported on any table, however many rows are wrong.
   `Migration` is the in-place rebuild of a damaged chain, and `Migrated` carries the result to the running system.
3. **The outbox, the relay and the consumer.** `Relay` is one call and a series of calls, `Consumer` is the
   deduplicating handler, and `Delivery` runs the concurrent ledger, overlapping relay calls, crashes and redelivery
   together. `Refinement` shows that its relay is the relay method, and `Drain` that it can always be brought to rest
   with exact counts.
4. **The readers.** `Audit` is the independent reconciliation, `AuditMeaning` what it reports on any tables, and
   `Paging` the cursor walk over an account's entries. `Sorting` is `ORDER BY`.

`dafny verify dfyconfig.toml` checks the whole project.

## How the system is represented

- **Isolation.** The engine sets no isolation level (`app/database.py:14`), so PostgreSQL's default applies, Read
  Committed (PostgreSQL manual, section 13.2.1): each statement sees what is committed at that moment plus the
  request's own pending rows. The audit, the cursor walk and the relay read under the same rule. A commit appends the
  pending rows to the tables, so each table is in commit order; no query relies on that.
- **Locks.** Advisory locks, row locks and in-flight inserts of a unique value (`app/models.py:35`,
  `app/models.py:46`) are one kind of lock, held until commit or abort. An insert of a value that another request is
  inserting waits; it fails if that request commits and goes on if it aborts. Row locks are re-entrant.
- **Runs.** A schedule is any sequence of "request p runs its next statement" and "request p aborts"; an action that is
  not possible changes nothing, so quantifying over schedules quantifies over all runs.
- **Parameters.** `uuid4` and `now()` become the draws of a request. Draws never repeat an identifier; timestamps are
  arbitrary. SHA-256 and `json.dumps` are arbitrary functions (`Text.Sha256` composes them with the printed payload).
  Collision-freedom is never assumed of a whole hash function: results either exhibit the colliding texts or name the
  one pair that must not collide.
- **Amounts.** Requests carry unnormalised decimals, because the request hash and the event print them as they came.
  Rows carry whole cents.
- **Accepted requests.** A positive amount with at most two decimal places is what the request schema guarantees
  (`app/schemas.py:34`).

## Results that correct the documentation

- `docs/DECISIONS.md:27-29` calls the same key with the same parameters a safe retry. The hash covers the printed
  amount, so `10` and `10.00` are different requests and the second is answered by a conflict
  (`Idempotency.SameValueDifferentPrint`). `Idempotency.RetryRecognised` gives the exact condition: the same request
  again, its amount digit for digit.
- The audit is meant to recompute the ledger's integrity (`app/audit.py:12-150`), but its counts are separate statements.
  On a correct ledger it answers "fail" when a transaction commits between `total_keys` and `unique_keys` or between
  `entry_count` and `txn_count`, and only then (`Reachable.LiveAuditPasses`, `Reachable.FalseAlarm`).
- The audit's last check is described as "exactly 2 ledger entries" per transaction (`app/audit.py:132`), but it
  compares totals. `Audit.UnevenEntriesPass` gives tables that pass with four entries on one transaction and none on
  another; `Audit.EntryCountCheckShows` gives the exact condition under which the check means what it says.
- The second lookup under the advisory lock (`app/service.py:34-37`) protects deposits and withdrawals from each other,
  not from an administrator who opens an account named "External Clearing" at that moment. `ColdStart.CollisionIffRival`
  proves that this is the only way to collide, and that it does collide.
- An amount with more than two decimals would not always verify after storage, since the hash rounds half to even and
  the column rounds half away from zero. `Values.QuantizeSurvivesStorage` gives the exact amounts; the schema admits
  none of them.

## Model

| member | source | states |
|---|---|---|
| Values.QuantizeSurvivesStorage | app/chain.py:22 | the amount hashed at write time equals the amount hashed on read-back if and only if it is not halfway above an even cent; every schema-accepted amount qualifies and stays positive |
| Values.TrailingZero | app/service.py:117 | a trailing zero changes neither the stored nor the hashed cents, and an amount given in cents is those cents; this fixes both values of every amount with two decimals or fewer, so that 10.5 is 1050 |
| Values.NearestCent | app/chain.py:22 | with more decimals both are a nearest cent; halfway between two, the stored value is the larger and the hashed value the even one |
| Values.WholeTrailingZero | app/schemas.py:34 | which amounts count as having at most two decimal places: trailing zeros do not matter, two or fewer always qualify, three or more with a last digit other than zero never do |
| Text.ParseUuidText | app/chain.py:26 | the 36-character form of a UUID reads back to the same UUID |
| Text.UuidShape | app/chain.py:26 | the 36 characters are hyphens at positions 8, 13, 18 and 23 and lower-case hexadecimal digits elsewhere |
| Text.ParseAmountText | app/chain.py:22 | the printed two-place amount, negative ones included, reads back to the same number of cents |
| Text.AmountTextIsStr | app/chain.py:22 | the amount printer used in the payload agrees with `str()` of the decimal read from the column |
| Text.ParseDecimalText | app/service.py:58 | `str()` of any unnormalised decimal, plain or scientific, reads back to the same coefficient and exponent |
| Text.DecimalTextForms | app/service.py:58 | the exact form of `str()`: plain digits, a point with the given decimals, zeros in front of a small number, or an exponent when it is positive or the number is below one millionth |
| Text.NatTextIsDigits | app/service.py:58 | digits are decimal and carry no leading zero |
| Text.DecodeInvertsPayload | app/chain.py:25-28 | a decoder that takes the id from the left and the rest from the right inverts the payload for every idempotency key, including keys full of separators |
| Text.PayloadInjective | app/chain.py:25-28 | an honest link and any row that fits its columns have the same payload text only if all six hashed fields agree |
| Text.PayloadAmbiguous | app/chain.py:24-28 | the hypothesis above is needed on prev_hash: for every pair built in the stated way, a key swallows the other link's fields and two different links share one payload |
| Text.RequestHashAmbiguous | app/chain.py:24-28 | it is needed on request_hash too: with one and the same prev_hash two different links share a payload when a request hash holds separators |
| Chain.LinkIgnoresUnlinked | app/chain.py:38-48 | the writer's own pending row, not yet numbered, never becomes its own predecessor |
| Chain.LinkKeepsLinear | app/chain.py:32-48 | appending keeps chain_seq at 1..n and every link intact |
| Chain.VerifyHashChain | app/chain.py:51-99 | the one-pass verifier computes the specified report, and passes if and only if every row names its predecessor's hash and carries its own; what the report lists on a failing table is `BrokenRows.RowReported` and `BrokenRows.ReportIsExact` |
| Chain.BreaksMeasureLinked | app/chain.py:67-89 | the list of breaks is empty if and only if the chain is intact as defined without the verifier |
| BrokenRows.ChainedExactly | app/chain.py:58-60 | the rows walked are those that have a chain_seq, each as often as the table holds it, in ascending chain_seq |
| BrokenRows.RowReported | app/chain.py:67-87 | on any table with distinct ids, however many rows are wrong, a hash mismatch is reported for a row if and only if it does not carry the digest of its own fields, and a predecessor mismatch if and only if its prev_hash is not the chain_hash of the row before it, 64 zeros for the first |
| BrokenRows.ReportIsExact | app/chain.py:67-99 | the report holds these breaks and no others, each once, in row order with the predecessor mismatch first, and its length is the number of chained rows whether the table passes or fails |
| Chain.LinearPasses | app/chain.py:51-99 | a table written by appends alone passes with length n and no breaks |
| Chain.TruncationPasses | app/chain.py:51-99 | every prefix of an intact chain passes, so a removed tail is not reported |
| Chain.TamperEvidence | app/chain.py:21-29 | an honest chain and any table that passes and ends in the same digest, of whatever length, have the same length and agree at every position on id, key, type, amount, request hash and both hashes, or two different payloads with one SHA-256 digest exist, or a payload whose digest is 64 zeros |
| Chain.DishonestTwins | app/chain.py:21-29 | honesty is needed: a request hash that is not a digest gives two tables that fit their columns, pass, end in the same digest and differ, with no collision |
| Chain.CollisionIsSha | app/chain.py:24-29 | a collision between two rows is a collision of SHA-256 itself, on texts that are named |
| Chain.DataFault | app/chain.py:67-87 | overwriting hashed data of row i of an intact chain yields exactly one report, a hash mismatch at i |
| Chain.ChainHashFault | app/chain.py:67-87 | overwriting only the chain hash of row i yields exactly a hash mismatch at i and, if there is a successor, a predecessor mismatch there |
| Chain.PrevHashFault | app/chain.py:67-87 | overwriting only the previous hash of row i yields exactly two reports, both at i |
| Sorting.SortIgnoresOrder | migrations/versions/004_chain_sequence.py:41 | ordering by a key without ties gives one result for all physical orders of the rows |
| Migration.UpdateWhereId | migrations/versions/004_chain_sequence.py:53-62 | the update rewrites the three chain columns of the rows with that id and nothing else |
| Migration.Upgrade | migrations/versions/004_chain_sequence.py:30-63 | the in-place pass leaves every row carrying the link of its place in age order, the row created earlier, or at the same time with the smaller id, having the smaller chain_seq; the verifier accepts all n rows, and no data column changes, whatever the chain columns held before |
| Migration.RepairedByAge | migrations/versions/004_chain_sequence.py:41 | in a repaired table the numbers run from 1 to n and follow (created_at, id) |
| Migration.RepairedIsRebuilt | migrations/versions/004_chain_sequence.py:45-63 | a table whose rows carry their new links, in any physical order, reads in chain order as the rebuilt chain and passes verification |
| Migration.RepairIgnoresRowOrder | migrations/versions/004_chain_sequence.py:37-63 | the rebuilt chain is the same for every physical order of the same rows |
| Migration.TipOfTable | app/chain.py:38-43 | the greatest chain_seq found in any physical order is the end of the chain |
| Migration.LinkExactly | app/chain.py:32-48 | on any table, intact or not, the new row gets the greatest chain_seq plus one and the hash of a row that has it, or 1 and the genesis hash when no row is chained; its own hash is the digest of its fields, and no other column changes |
| Migration.AppendKeepsLinear | app/chain.py:32-48 | on a table in any physical order whose chain is intact, an append keeps it intact and passing, one row longer |
| Migration.AppendsAfterRepair | app/chain.py:32-48 | after the repair, verification passes after any number of appends, at the right length |
| Migrated.MigratedLedger | migrations/versions/004_chain_sequence.py:30-63 | a ledger consistent but for its chain satisfies, after the repair and with its rows listed in chain order, the whole invariant, so that every theorem on concurrent runs applies to it; the rows are those of the repaired table and its entries and events |
| Session.DbSession.GetOrCreateClearingAccount | app/service.py:29-42 | returns the visible clearing account and takes no lock; or takes the advisory lock and returns the one committed by others in the meantime; or, if there is still none, adds exactly one pending system account |
| Session.DbSession.LockAccounts | app/service.py:69-79 | returns the two rows in id order, or the first id, in that order, that has no row; locks exactly the rows before that, in that order |
| Session.DbSession.LinkTransaction | app/chain.py:32-48 | takes the chain lock, then numbers and chains the pending row after the tip committed by then, and touches no other pending row |
| Session.DbSession.CreateTransaction | app/service.py:82-195 | committed tables and answer are those of the reference for every input and branch, and nothing stays pending or locked; when each answer is given is `Acceptance.CreatedExactly`, `Acceptance.RefusedExactly` and `Acceptance.RepeatedExactly` |
| Session.DbSession.PostAccount | app/main.py:215-230 | committed tables and answer are those of the reference, and nothing stays pending or locked |
| Acceptance.CreatedExactly | app/service.py:85-195 | a request is answered by created if and only if its key is free, a deposit or withdrawal names an existing account or a transfer two different existing ones, and the payer of a withdrawal or transfer has at least the amount |
| Acceptance.RefusedExactly | app/service.py:69-179 | under a free key: 422 if and only if an account the type needs is not named or a transfer names one account twice; 404 exactly for the smallest named id that has no row; insufficient balance if and only if all rows exist and the payer has less than the amount |
| Acceptance.RepeatedExactly | app/service.py:91-105 | replayed, with that row's id, if and only if a row has the key and the request's hash; conflict if and only if a row has the key and another hash |
| Acceptance.OpenedExactly | app/main.py:215-230 | an account is opened if and only if no account has its name, and then exactly that account, not a system account, is added; otherwise a conflict, and nothing changes |
| Invariant.MovesMoney | app/service.py:107-179 | a created transaction moves exactly the requested amount between exactly the requested accounts, or the clearing account, and no other balance; every other answer leaves the tables as they were |
| Invariant.RecordsRequest | app/service.py:113-186 | a created transaction adds one row and one event that say what was requested (ids, type, cents, amount as printed, key, hash of the canonical form, reference, time), numbered next, and no account except a missing clearing account |
| Invariant.RecordsEntries | app/service.py:126-179 | and exactly two entries, both naming it: minus the amount on the payer, plus the amount on the receiver, the clearing account standing in for the outside |
| Invariant.CreateKeepsInv | app/service.py:82-195 | any accepted request, whatever its answer, keeps uniqueness, the pairing of transactions with entries and events, the chain and every balance |
| Invariant.OpenKeepsInv | app/main.py:215-230 | opening an account, even one under the reserved name, keeps them too |
| Invariant.GroupedByAccount | app/audit.py:58-75 | with no orphaned account reference, account balances add up to the global sum |
| Invariant.TotalIsZero | app/audit.py:19-32 | all entries sum to zero |
| Invariant.ClearingMirrorsOthers | app/service.py:107-179 | the clearing balance is minus the sum of all other balances, hence never positive |
| Invariant.ClearingNeverPays | app/service.py:126-162 | a withdrawal or transfer out of the clearing account is refused, with exactly the 404 or the insufficient-balance answer, and changes nothing |
| Invariant.PayerIsNotClearing | app/service.py:132-134 | whoever passes the balance check is not the clearing account, even one still pending |
| Protocol.NextKeepsOk | app/service.py:82-186 | every statement keeps what the request relies on: its locks, pending rows, balance, key and clearing account |
| Protocol.LockedBalanceStays | app/service.py:130-134 | a balance read under the row lock is unchanged by any commit that does not hold that lock |
| Protocol.OkStays | app/service.py:69-79 | no other request's commit invalidates what a request relies on, as long as their locks are disjoint |
| Protocol.CommitCovered | app/service.py:184-186 | every row a request commits is guarded by a lock it holds |
| Protocol.CommitIsSequential | app/service.py:82-195 | what a request commits is exactly what the sequential request would do to the tables of that moment |
| Alone.AloneIsSequential | app/service.py:82-195 | from any tables, a request that arrives while no other holds a lock and runs its statements without interruption leaves exactly the tables of the reference and gives its answer, a refusal included |
| Alone.AbortedMeansAbort | app/database.py:18-23 | in every run, only a request that the schedule aborts is answered by an abort |
| Concurrency.FreshIsInitial | app/service.py:82-195 | any requests arriving at a database without transactions, with any accounts the unique constraints allow, are a starting state of the theorems below |
| Concurrency.AbortKeepsInv | app/database.py:18-23 | an exception at any statement drops the pending rows and all locks and leaves every other request's assumptions intact |
| Concurrency.RunKeepsInv | app/service.py:82-195 | the invariant holds in every state of every schedule, through aborts at any statement |
| Concurrency.ActionIsAtomic | app/service.py:184-186 | each step either leaves the committed tables alone or performs exactly one successful sequential call |
| Concurrency.Serialisable | app/service.py:82-195 | after any schedule the committed tables equal a sequential replay of the committed calls in commit order |
| Concurrency.ChainOrderIsCommitOrder | app/chain.py:32-48 | chain_seq is 1..n in commit order, the rows added are those of the committed requests in that order, and verification passes with length n, after every schedule |
| Concurrency.NoOverdraft | app/service.py:158-162 | no schedule brings an account other than External Clearing below zero |
| Concurrency.ClearingMirror | app/service.py:107-147 | in every reachable state the clearing balance is minus the sum of the others |
| Concurrency.OneTransactionPerKey | app/service.py:85-105 | no schedule commits two transactions under one idempotency key |
| Concurrency.OneClearingAccount | app/service.py:29-42 | every committed deposit and withdrawal used the one clearing account, whoever created it and whoever aborted |
| ColdStart.CreatorInserts | app/service.py:34-42 | unless somebody opens an account under the reserved name, a request that reaches the insert of the clearing account neither waits nor collides, in any schedule |
| ColdStart.RivalWins | app/service.py:37-41 | an account opened under the reserved name between the second lookup and the insert makes the insert fail; the schedule is given |
| ColdStart.CollisionIffRival | app/service.py:29-42 | on a cold start a collision on the clearing name is reachable if and only if somebody opens an account under that name |
| Progress.WantsHigher | app/service.py:69-79 | a request never asks for a lock ranked at or below one it holds: clearing advisory, name, rows by id, key, chain advisory |
| Progress.NoWaitCycle | app/service.py:69-79 | the wait-for graph of every reachable state has no cycle |
| Progress.NoDeadlock | app/service.py:69-79 | in every reachable state with an unfinished request some request can run its next statement |
| Progress.EveryScheduleFinishes | app/service.py:82-195 | n requests make at most 15 n effective moves under every schedule |
| Progress.CanAlwaysFinish | app/service.py:82-195 | from every reachable state all requests can run to an answer without an abort |
| Reachable.AuditAlwaysPasses | app/audit.py:12-150 | in any reachable state an audit during which nothing is committed reports nothing |
| Reachable.LiveAuditFaults | app/audit.py:19-143 | beside any schedule, with later statements seeing later moments, the faults reported are exactly duplicate keys when the number of transactions differs between the two key counts, and a wrong entry count when it differs between the two row counts |
| Reachable.LiveAuditPasses | app/audit.py:106-143 | an audit beside a running ledger passes if and only if no transaction commits between its two key counts and none between its two row counts |
| Reachable.FalseAlarm | app/audit.py:106-123 | when a request commits between the two key counts, a correct ledger of n transactions is reported to have n transactions but n + 1 unique keys, and nothing else |
| Reachable.AtomicCorrespondence | app/outbox.py:11-34 | in every reachable state each transaction has exactly two entries, summing to zero, and exactly one event |
| Reachable.NoStrays | app/service.py:113-186 | in every reachable state no entry or event lacks its transaction, and no entry its account |
| Reachable.ReachableTamperEvidence | app/chain.py:51-99 | any table that passes verification and ends in the digest of a reachable table agrees with it throughout, or SHA-256 is broken on texts that are named |
| Reachable.ClearingNeverPaysConcurrently | app/service.py:126-162 | in no reachable state is a request past its balance check about to debit the clearing account |
| Answers.AnswersAreSupported | app/service.py:91-105 | in every reachable state every answer given is borne out by the committed tables and the request: created and replayed by the row under the key with the request's hash, conflict by a row with another hash, 422 by a missing or repeated account name in the request, integrity error by the committed key or, except for a transfer, a clearing account |
| Answers.AnsweredIsCommitted | app/service.py:101-105 | a request answered by created or replayed has exactly one committed row with that id and its key, in every reachable state |
| Answers.IntegrityErrorMeansKey | app/service.py:120-121 | unless somebody opens an account under the reserved name, a posted request answered by an integrity error finds its key committed, in every reachable state |
| Answers.RefusedEarlier | app/service.py:69-79 | an account reported missing is one the request names and had no committed row, and a balance reported insufficient was below the amount, in the state in which the answer was given |
| Idempotency.RetryAnswer | app/service.py:91-105 | a later request under a committed key changes nothing and is answered by replay when the hashes agree, by conflict when they do not |
| Idempotency.SameCanonical | app/service.py:54-66 | two requests have one canonical form if and only if they agree on everything but the key, the amount digit for digit |
| Idempotency.RetryRecognised | app/service.py:54-105 | if the two request hashes do not collide, a later request under a committed key is replayed when it is the same request and answered by conflict when it is not |
| Idempotency.SameValueDifferentPrint | app/service.py:58 | after 10, the request with 10.00 stores the same cents, has another canonical form and, unless the two hashes collide, is answered by conflict |
| Idempotency.RetriesAreInvisible | app/service.py:85-105 | inserting retries of keys already committed, before the history or in it, anywhere in a sequential history changes neither the final tables nor any other answer |
| Audit.VerifyLedger | app/audit.py:12-150 | with each query reading what is committed when it runs, the audit reports exactly the faults its queries see, in order, passes when there are none, and lists every account with its name, its balance and the number of entries that name it; when nothing is committed meanwhile, it passes if and only if the tables are sound |
| AuditMeaning.ReportedExactly | app/audit.py:19-143 | on any tables a fault is in the report if and only if the rows its queries read show it, with their numbers: the sum of all entries, each transaction that has entries not summing to zero, the counts of entries without transaction or account, of keys and distinct keys, of entries and transactions |
| AuditMeaning.ReportedInOrder | app/audit.py:19-143 | faults come in the order of the checks, a transaction once and every other check at most once |
| AuditMeaning.EntriesOfExactly | app/audit.py:34-41 | the entries summed for a transaction are those that name it, each as often as the table holds it |
| AuditMeaning.EntryCountsAddUp | app/audit.py:58-75 | with unique account ids and no orphaned account reference, the entry counts of all accounts add up to the number of entries |
| Audit.ReportNamesUnbalanced | app/audit.py:34-56 | a transaction is named in the report if and only if its entries, as the grouping query sees them, do not sum to zero, with that sum |
| Audit.KeysCountDistinct | app/audit.py:106-123 | comparing count with count of distinct keys detects exactly the tables in which a key repeats |
| Audit.GroupedByTransaction | app/audit.py:34-41 | the total grouped by transaction is the global sum, on any table |
| Audit.TotalsAgree | app/audit.py:19-75 | on any table without orphaned account references the global sum, the sum by account and the sum by transaction are equal |
| Audit.InvariantPassesAudit | app/audit.py:12-150 | every state that satisfies the write path's invariant is sound |
| Audit.FaultsOfSoundViews | app/audit.py:106-143 | when every query sees sound tables, the faults reported are exactly those of two counts that were taken of different tables |
| Audit.EntryCountCheckShows | app/audit.py:125-143 | on a sound table every transaction has exactly two entries if and only if none has fewer than two |
| Audit.UnevenEntriesPass | app/audit.py:125-143 | a passing audit does not imply two entries per transaction: tables that show it |
| Relay.OutboxPublish | app/main.py:450-480 | one call over the table in any physical order marks exactly the acknowledged prefix of the oldest pending rows, stops at the first publish that raises, leaves all other rows as they were, and published + failed is the batch size |
| Relay.BatchIsOldest | app/main.py:455-461 | the batch holds pending rows only, in ascending created_at, none of them younger than a pending row left out, and as many as the limit allows |
| Relay.PublishNext | app/main.py:455-480 | over a queue published up to a mark, a call sends the next rows in order and moves the mark past the acknowledged ones |
| Relay.RunCall | app/main.py:450-480 | a call that commits, or dies and is rolled back, moves the mark and extends the broker's log as one step of the series below |
| Relay.RunSeries | app/main.py:450-480 | any sequence of calls on the table, with raised publishes the broker may have taken and with crashes, ends with the marks and the broker log of the series |
| Relay.OldestFirst | app/main.py:455-480 | over any series of calls with failures and crashes, even when the broker took a message whose publish raised, events reach the broker first in queue order and every marked event reached it |
| Relay.DrainsInCeiling | app/main.py:455-480 | with a working transport the outbox of n events is empty if and only if at least ceil(n / limit) calls were made |
| Consumer.Deduplicator.Mark | scripts/consumer.py:40-41 | marking adds the id to the set and grows it by one exactly when the id is new |
| Consumer.Handler.Handle | scripts/consumer.py:53-80 | a duplicate is acknowledged and not counted, an unreadable message is neither counted nor marked, any other is counted under its type and marked; acknowledged if and only if marked afterwards, refused if and only if new and malformed, raised if and only if new and unusable |
| Consumer.RedeliveryIsNoOp | scripts/consumer.py:57-60 | after any sequence of deliveries, redelivering a handled message changes nothing |
| Delivery.HistoryKeepsInv | app/main.py:455-480 | under every interleaving, published events were accepted, accepted events are committed, and the totals count exactly the marked events |
| Delivery.BatchAgrees | app/main.py:455-461 | the batch of the composite model is the one the relay method reads from the table |
| Refinement.CallEffect | app/main.py:455-480 | the moves of one relay call, with a publish that raises, a commit or a crash, give the broker exactly what reached it and mark exactly what was acknowledged, or nothing |
| Refinement.RelayCall | app/main.py:450-480 | a relay call on the table and its moves in the composite model change the marks and the broker alike, whatever the transport does and whether the call commits or dies |
| Delivery.ExactlyOnce | scripts/consumer.py:53-80 | under every interleaving of writers, overlapping relay calls, failures, crashes, redelivery and reordering, totals never exceed the committed transactions of a type, and equal them once the outbox is drained and accepted messages are handled |
| Drain.CanAlwaysDrain | app/main.py:455-480 | from every reachable state, with any page size, a finite continuation without failures answers every request, marks every event and has every accepted message handled |
| Drain.EventuallyExact | scripts/consumer.py:53-80 | after any history of failures and crashes there is a continuation after which the totals equal the committed transactions of every type |
| Paging.PageIsOk | app/main.py:342-360 | a page is in strict id order and holds exactly the account's entries, as its query sees them, between its bound and its cursor |
| Paging.PageIsFull | app/main.py:350-360 | a page holds at most limit entries; one with a next cursor holds exactly limit, and further entries of the account follow it |
| Paging.BoundExactly | app/main.py:342-349 | a cursor bounds the page when it names an entry, and is ignored otherwise |
| Paging.PagingIsComplete | app/main.py:342-360 | following the cursors returns every entry the first query could see exactly once, in id order and without repeats, while entries are appended between pages and between the cursor lookup and the query of one page |
| Paging.WalkFinishes | app/main.py:342-360 | the walk ends as soon as the pages requested could hold more entries than the table does |

## Left out

- Routing, middleware, schemas as HTTP objects, logging, `/status`, `/health`, the portal, Terraform and Docker.
- Authentication and roles (`app/auth.py`).
- The inside of SQLAlchemy, PostgreSQL, SHA-256 and `json.dumps`; their effect is described above.
- Primary-key collisions: draws are taken never to repeat an identifier in use.
- Overflow of NUMERIC(12,2) columns and sums; amounts are unbounded here.
- Responses of rejected or same-key racing requests are not serialised: the key is read before any lock, so the loser of
  a race may get an integrity error or a 422 instead of a replay. Committed effects are serialised, and answers are
  shown to agree with the tables (`Answers`), no more.
- Chain.TamperEvidence: takes the last digest as given, because the verifier has no record of it
  (`Chain.TruncationPasses`), and the request hashes of one side to be digests, without which it is false
  (`Chain.DishonestTwins`); `Reachable.ReachableTamperEvidence` establishes that for every reachable table.
- `list_transactions` paging: its cursor compares `created_at` alone (`app/main.py:312`), which is not unique.
- Date-windowed statements and their running balances: prefix sums over `created_at`, which is not commit order.
- The 404 of `list_entries` for an unknown account, one branch before the query.
- Fixed-row migrations 001 and 005 and the schema-only migrations 002 and 003.
- Two transports of `app/publisher.py`: here a transport accepts or fails, at will.
- A restart of the consumer, whose dedupe set is in memory; messages are handled one at a time.
- Order among equal `created_at` values: rows with equal values stay in physical order. The order in which `GROUP BY`
  returns groups is taken as first appearance.
- `published_at` in `Delivery` is the set of event ids marked so far, kept beside the events.
- Session.DbSession.CreateTransaction: runs alone, so nothing is committed while it waits; its parts
  `GetOrCreateClearingAccount` and `LinkTransaction` allow for that, and `Protocol` interleaves every statement.
- Text.PayloadInjective: requires the hashes of one side to be digests, which `Concurrency.RunKeepsInv` establishes for
  every committed row; `Text.PayloadAmbiguous` shows what happens without that.
- Relay.OldestFirst: calls follow one another over a fixed pending set; overlapping calls are in `Delivery`, where no order
  is claimed, because there is none.
- Delivery.ExactlyOnce: every message carries a readable payload, as `write_transaction_event` produces; foreign messages
  are covered by `Consumer.Handler.Handle` alone.
