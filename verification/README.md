# Auticuro in Dafny

A model of the replicated wallet Auticuro and of the raft message queue it runs on, with proofs.
`dafny verify dfyconfig.toml` checks all of it.

## What is modelled

**The wallet.** `Ledger` gives the meaning of commands: accounts in memory plus the full history of
events; `RequestMeaning` says in terms of the accounts before and after what each request does, and
`HistoryMeaning` what every history records. `WalletMachine` is the state machine as it runs, with a
write batch, two caches, tombstones of deleted accounts and a database; `StateMachine` is the same
as objects updated in place, each method proved against its function. `WalletSystem` runs it command
by command under every schedule of commands, flushes, event collections (scan and write as two
steps, between any two commands) and crashes to any earlier version of the database.
`WalletRefinement` shows it refines the ledger; `WalletTheorems`, `Conservation` and `Transparency`
draw the conclusions: event sourcing, exactly-once, conservation of money, limits, and exactly which
logs can tell when the wallet flushed or crashed. `DeletedRecords` says exactly which deleted
accounts stay in the store. `EventLogGc` and `EventQuery` are the collector and the reader of the
event log, `CollectionTiming` the runs in which the collector comes between two commands or two
reads, `Keys` the byte keys under all of it.

**From request to response.** `Batching` merges client commands into raft entries and slices the
responses. `Callbacks`, `CallbackSystem` and `CallbackTheorems` follow every callback through the
proposal queue, the apply tasks and the apply queue, `CallbackOutcomes` says exactly which proposals
wait, were called stale or were answered, and `ApplyObjects` are the loops that move them.
`LogConsumer` hands applied entries to the wallet; `ConsumerRuns` and `ConsumerOvertaken` run it
beside the raft log it reads. `MessageBroker` joins events to waiting clients by position,
`BrokerFeed` shows what one run of the wallet feeds it, and `Routing` composes all of these end to
end.

**The raft log.** `RaftLog` is the stored log (append, cut, collect, term lookups), `RaftLogSystem`
the log under appends, compaction, delayed collection and crashes that lose unsynced writes of
either engine, `RaftLogSuffix` shows it is always a suffix of the log, and `RaftFetch` has the two
ways to read a range. `Lru` and `LruObjects` are the recency sequence and the linked list with
sentinels that refines it.

Amounts are decimals (mantissa and scale, compared by value) or text that does not parse. Ids are
bytes. Raft itself is an assumption, stated as the `Enabled` predicates of the two raft systems:
consecutive indices, non-decreasing terms, committed entries never overwritten, and Log Matching
(section 5.3 of "In Search of an Understandable Consensus Algorithm" by Ongaro and Ousterhout).

Where the program does not do what one expects, the model follows the program and the fact is a
lemma: a transfer to oneself loses its amount, a batch keeps only the last spec of an account, a
deleted account can be recreated only after a flush, a config update puts a deleted record back, a
duplicate whose event is collected between its two reads fails, and the log consumer passes over
entries that are collected while it reads them. The comment at `firm-wallet-service/src/test.rs:536`
notes the gap in the config update itself. `README.md:64-69` of the repository promises that events
rebuild the state; `WalletTheorems.EventSourcingIsComplete` shows they do, with those quirks.

## Model

| member | source | states |
|---|---|---|
| `Transparency.TransparentExactlyWhenClean` | firm-wallet-service/src/state_machine.rs:75-301 | without event collection, any two schedules of commands, flushes and crashes give the same answer per position and, before the same command, the same events, sequence number and live accounts, if and only if no fresh command of the log reaches an account that an earlier entry deleted without also reaching one that is deleted as it stands |
| `TombstoneTiming.RecreationIsObservable` | firm-wallet-service/src/state_machine.rs:183-187 | the log create, delete, create of one account is not transparent: the second creation is accepted after a flush and refused before it |
| `DeletedRecords.DeletedRecordsExactly` | firm-wallet-service/src/state_machine.rs:569-621 | in every reachable state the store with its batch, and every version of the store, holds a deleted record of an account if and only if the last event naming the account is a new limit accepted while it was deleted |
| `DeletedRecords.ConfigUpdateRevivesRecord` | firm-wallet-service/src/state_machine.rs:569-600 | a fresh config update leaves a deleted record exactly when memory holds the account as a tombstone, or does not know it and such a record was there before |
| `DeletedRecords.DeletedRecordSurvives` | firm-wallet-service/src/state_machine.rs:183-187 | after create, delete, new limit and a flush the store holds the deleted record, though memory has dropped the account |
| `DeletedRecords.RefusedForGood` | firm-wallet-service/src/state_machine.rs:75-98 | after a restart from a store with such a record the account is a tombstone no flush drops: until another crash its creation is refused in every state |
| `Transparency.RefusedExactly` | firm-wallet-service/src/account.rs:300-308 | a transfer or batch is refused for a deleted account if and only if an account it reaches is deleted |
| `CollectionTiming.DuplicateThenEffect` | firm-wallet-service/src/state_machine.rs:275-281 | a run in which one entry holds a command id twice and a collection lands between: the first is answered with the recorded event, the second takes effect again |
| `CollectionTiming.RaceFailsExactly` | firm-wallet-service/src/state_machine.rs:275-281 | in every reachable state with a scan waiting to be written: written between the two reads of a duplicate lookup, it makes the unwrap fail if and only if it covers the sequence number found |
| `CollectionTiming.RaceIsReachable` | firm-wallet-service/src/state_machine.rs:275-281 | a run reaches such a state: the next command is a duplicate of the event the waiting scan collects |
| `WalletTheorems.EventSourcingIsComplete` | firm-wallet-service/src/state_machine.rs:303-637 | in every reachable state, between any two commands, after deletes, flushes, collection and recovery, the live accounts equal the fold of the full event history from the empty map |
| `WalletTheorems.MemoryIsTheOverlay` | firm-wallet-service/src/state_machine.rs:101-116 | in every reachable state the live accounts in memory are those of the database overlaid by the write batch, cache-then-database lookups are lookups in that overlay, and every id waiting to be dropped is a tombstone |
| `WalletTheorems.ExactlyOnceWithinRetention` | firm-wallet-service/src/state_machine.rs:275-301 | in every reachable state dedup ids and retained events are in one-to-one correspondence, and of two events of one command id the earlier has been collected |
| `WalletTheorems.DuplicateChangesNothing` | firm-wallet-service/src/state_machine.rs:216-221 | a command whose event is retained changes nothing but the answers sent; it is answered with that event, or with a conflict if the event is of another type, so the unwrap cannot fail; with a collection between its two reads it can, as `CollectionTiming.RaceFailsExactly` says |
| `WalletTheorems.EventWindow` | firm-wallet-service/src/gc.rs:94-163 | every database version of every run holds exactly the events numbered max(first, 1) to last, each the event of that number in the history |
| `WalletTheorems.MoneyIsConserved` | firm-wallet-service/src/state_machine.rs:303-456 | in every reachable state the funds of all accounts equal the net of the events; if every transfer has two accounts and every batch distinct ones, that is the sum of the accepted batch amounts |
| `WalletTheorems.LimitsAreRespected` | firm-wallet-service/src/account.rs:86-245 | in every reachable state reservations are positive, deleted accounts are empty, the limit of a live account is the one last set for it while it was there, and its available amount is within that limit if a balance operation came since |
| `RequestMeaning.RequestExactly` | firm-wallet-service/src/state_machine.rs:303-600 | every request is accepted exactly under a condition on the accounts, amounts and limits before it, and then the accounts after it and its event are what the request says: who has how much more or less available, which reservations stay, which limit and state, and that nothing else changed |
| `RequestMeaning.TransferMeans` | firm-wallet-service/src/state_machine.rs:303-343 | a transfer is accepted exactly if the amount parses, both accounts are Normal or absent and both new amounts are within the limits; then the amount is added to the one and taken from the other, or only taken if they are the same |
| `RequestMeaning.BatchMeans` | firm-wallet-service/src/state_machine.rs:345-383 | a batch is accepted exactly if every spec is on the accounts before it; then the last spec of each account counts, and no other account changes |
| `RequestMeaning.ReserveMeans` | firm-wallet-service/src/state_machine.rs:385-417 | a reserve is accepted exactly for a positive amount under a new reservation id within the limit; available falls by the amount and the reservation holds it |
| `RequestMeaning.ReleaseMeans` | firm-wallet-service/src/state_machine.rs:419-456 | a release of nothing stated, or of all, ends the reservation and raises available by it; of less, lowers it by exactly the amount; of more, or of an amount that is not positive, it is refused |
| `RequestMeaning.ManagementMeans` | firm-wallet-service/src/state_machine.rs:458-600 | when accounts are created, locked, unlocked, deleted and given a limit, and that nothing else about them changes |
| `RequestMeaning.RefusalsAreJustified` | firm-wallet-service/src/account.rs:250-345 | every refusal names something that is so: a state, a limit, a missing or existing id, an amount that does not parse or is out of range |
| `RequestMeaning.AssetClassesMustMatch` | firm-wallet-service/src/account.rs:250-265 | accounts of different asset classes do not trade, whatever the accounts |
| `HistoryMeaning.EventsAreTrue` | firm-wallet-service/src/state_machine.rs:209-273 | in every reachable state event n has number n, carries the id, time and request of the command at its position in the log, and tells what that request means for the accounts before and after it |
| `HistoryMeaning.OncePerPosition` | firm-wallet-service/src/state_machine.rs:119-146 | whatever crashes and is applied again, no two events of the history are of one log position, and they come in log order |
| `HistoryMeaning.LimitsAreThoseSet` | firm-wallet-service/src/state_machine.rs:569-600 | in every reachable state a live account has the limit of the last config update accepted while it was there, or none, and a balance operation since then has left it inside |
| `WalletTheorems.BalancesChangeOnlyInNormal` | firm-wallet-service/src/account.rs:300-308 | over every run without a crash in the step: a balance changes only in state Normal, an account is dropped only if deleted, and appears only by a command |
| `WalletTheorems.AnswersAreOutcomes` | firm-wallet-service/src/state_machine.rs:209-273 | answer number i was sent by the step that found i answers before it, and is that step's outcome |
| `WalletTheorems.AnswersAreForTheirCommand` | firm-wallet-service/src/state_machine.rs:209-273 | every answer ever sent was sent by one step of the run, and is the answer to the command at its log position in the state of that step: its new event, the retained event of its id, a conflict with that event, or the error of handling its request there |
| `WalletTheorems.ReadsEvolve` | firm-wallet-service/src/service.rs:197-232 | reads taken at any moments of a run without a crash see databases that evolve as a query expects |
| `WalletSystem.EveryRunIsSafe` | firm-wallet-service/src/state_machine.rs:724-742 | the invariant of the wallet (refinement of the reference machine, balanced books, well-formed database versions) holds after every schedule of commands, flushes, two-step collections and crashes to any database version, a collection falling between any two commands |
| `WalletSystem.StepKeepsInv` | firm-wallet-service/src/state_machine.rs:119-202 | each step, one command being a step, keeps that invariant |
| `WalletSystem.FlushKeepsGc` | firm-wallet-service/src/gc.rs:113-163 | a flush between the scan and the write of a collection leaves the pending deletions exactly what a scan would find now |
| `EventSourcing.HandleFolds` | firm-wallet-service/src/internal.rs:200-440 | one successful request changes the live accounts exactly as folding its event does |
| `EventSourcing.RunSound` | firm-wallet-service/src/state_machine.rs:209-273 | one command keeps stored accounts well formed, sequence numbers consecutive and live accounts equal to the folded history |
| `EventSourcing.IncreaseEachAt` | firm-wallet-service/src/state_machine.rs:345-383 | a batch succeeds only with every spec succeeding on the accounts as they were before the batch |
| `Conservation.HandleTotal` | firm-wallet-service/src/state_machine.rs:303-600 | a successful request changes the total funds by exactly its net: nothing for most, minus the amount for a transfer to oneself, the specs that are not overwritten for a batch |
| `Conservation.ConservesExactlyWhen` | firm-wallet-service/src/state_machine.rs:303-383 | a successful request moves the total by what its amounts say if and only if it is no self-transfer of a non-zero amount and no batch whose overwritten specs sum to something |
| `Conservation.SelfTransferLosesMoney` | firm-wallet-service/src/state_machine.rs:313-329 | a transfer of 5 from a fresh account to itself is accepted and leaves -5 |
| `Conservation.RepeatedSpecIsLost` | firm-wallet-service/src/state_machine.rs:354-368 | a batch of 5 and 7 for one fresh account is accepted and leaves 7 |
| `Conservation.BatchFunds` | firm-wallet-service/src/state_machine.rs:345-383 | a batch leaves each account at its old funds plus the amount of the last spec that names it |
| `Conservation.ConservingHistory` | firm-wallet-service/src/state_machine.rs:303-383 | for histories of conserving requests the net of the events is the sum of the accepted batches |
| `Conservation.RunBalanced` | firm-wallet-service/src/state_machine.rs:209-273 | every command keeps the books balanced and every limit in force respected, after every prefix of the history |
| `WalletRefinement.ExecRefines` | firm-wallet-service/src/state_machine.rs:209-301 | a command on the machine with batch, caches and database answers and moves as on the reference machine |
| `WalletRefinement.EntryRefines` | firm-wallet-service/src/state_machine.rs:119-146 | an entry answers its commands in order, as the reference machine does, and leaves the counters in the batch |
| `WalletRefinement.SeqNumRefines` | firm-wallet-service/src/state_machine.rs:110-116 | cache-then-database finds the sequence number of the retained event of a command, and nothing else |
| `WalletRefinement.EventRefines` | firm-wallet-service/src/state_machine.rs:101-108 | cache-then-database finds the event of every retained sequence number |
| `WalletRefinement.FlushDb` | firm-wallet-service/src/state_machine.rs:176-202 | a flush leaves in the database exactly the retained history and the applied index |
| `WalletRefinement.FlushRefines` | firm-wallet-service/src/state_machine.rs:176-202 | a flush loses no live account and forgets no retained event |
| `WalletRefinement.FlushIsDurable` | firm-wallet-service/src/state_machine.rs:176-202 | a machine that recovers right after a flush is the flushed machine, counters included, with the same live accounts |
| `WalletRefinement.RecoverRefines` | firm-wallet-service/src/state_machine.rs:75-98 | recovery from a database gives the machine of the history that database holds |
| `WalletRefinement.TombstonesStay` | firm-wallet-service/src/state_machine.rs:602-621 | no request writes a deleted account back to life, and a delete writes a deleted account |
| `WalletStore.Overlay` | firm-wallet-service/src/state_machine.rs:176-202 | a batch of the machine on any database is that database overlaid by what the batch stores |
| `StateMachineObjects.StateMachine.Recover` | firm-wallet-service/src/state_machine.rs:75-98 | recovery is the recovered machine of the model |
| `StateMachineObjects.StateMachine.UpdateAccount` | firm-wallet-service/src/state_machine.rs:612-621 | one account written to memory and the batch |
| `StateMachineObjects.StateMachine.DeleteAccount` | firm-wallet-service/src/state_machine.rs:602-610 | the record deleted in the batch, the tombstone kept in memory and queued |
| `StateMachineObjects.StateMachine.HandleTransfer` | firm-wallet-service/src/state_machine.rs:303-343 | the in-place transfer is the model's transfer: both sides computed from the accounts before, `to` written first |
| `StateMachineObjects.StateMachine.HandleBatch` | firm-wallet-service/src/state_machine.rs:345-383 | the two loops are the model's batch: all specs computed before any write, the first error returned with nothing written |
| `StateMachineObjects.StateMachine.HandleReserve` | firm-wallet-service/src/state_machine.rs:385-417 | in place, as the model's reserve |
| `StateMachineObjects.StateMachine.HandleRelease` | firm-wallet-service/src/state_machine.rs:419-456 | in place, as the model's release; an empty amount releases everything |
| `StateMachineObjects.StateMachine.HandleCreate` | firm-wallet-service/src/state_machine.rs:458-486 | in place, as the model's create |
| `StateMachineObjects.StateMachine.HandleLock` | firm-wallet-service/src/state_machine.rs:488-513 | in place, as the model's lock |
| `StateMachineObjects.StateMachine.HandleUnlock` | firm-wallet-service/src/state_machine.rs:515-540 | in place, as the model's unlock |
| `StateMachineObjects.StateMachine.HandleDelete` | firm-wallet-service/src/state_machine.rs:542-567 | in place, as the model's delete |
| `StateMachineObjects.StateMachine.HandleUpdateConfig` | firm-wallet-service/src/state_machine.rs:569-600 | in place, as the model's config update, which checks no state |
| `StateMachineObjects.StateMachine.Dispatch` | firm-wallet-service/src/state_machine.rs:222-262 | each request goes to its handler |
| `StateMachineObjects.StateMachine.UpdateSeqNumAndEvent` | firm-wallet-service/src/state_machine.rs:283-301 | sequence counter, both caches and the batch move together |
| `StateMachineObjects.StateMachine.HandleCommand` | firm-wallet-service/src/state_machine.rs:209-301 | the whole of one command, duplicates included |
| `StateMachineObjects.StateMachine.ApplyEntry` | firm-wallet-service/src/state_machine.rs:119-146 | the loop over an entry's commands, with offsets, and the two counters put in the batch |
| `StateMachineObjects.StateMachine.Flush` | firm-wallet-service/src/state_machine.rs:176-202 | batch written, tombstones dropped, caches cleared |
| `StateMachineObjects.StateMachine.RunOnce` | firm-wallet-service/src/state_machine.rs:724-742 | a turn of the apply loop applies its entries in order and flushes exactly when the batch is full or something waited more than 100 ms; its assertions fail exactly for an entry out of order or a batch size of zero with nothing to flush |
| `Accounts.IncreaseBalanceBy` | firm-wallet-service/src/account.rs:86-111 | succeeds exactly for a Normal account, a parsable amount and a result within a parsable limit; then only the available balance changes, by the amount; state errors take precedence |
| `Accounts.IncreaseFunds` | firm-wallet-service/src/account.rs:86-111 | a balance operation moves the funds by exactly its amount, ends within the limit and changes nothing else |
| `Accounts.ReserveKeepsFunds` | firm-wallet-service/src/account.rs:131-163 | a reserve keeps available plus reservations, stores a positive reservation and stays within the limit |
| `Accounts.ReleaseAllKeepsFunds` | firm-wallet-service/src/account.rs:165-186 | a full release keeps the funds and removes the reservation |
| `Accounts.PartialReleaseKeepsFunds` | firm-wallet-service/src/account.rs:188-218 | a partial release keeps the funds and leaves a smaller positive reservation, or none |
| `Accounts.ReserveThenReleaseIsIdentity` | firm-wallet-service/src/account.rs:131-186 | releasing a reservation just made gives back the very same account |
| `Accounts.DeletedIsFinal` | firm-wallet-service/src/account.rs:220-280 | a deleted account can be neither locked, unlocked, deleted nor moved money on |
| `Accounts.Transitions` | firm-wallet-service/src/account.rs:31-44 | the transition table: Normal to Locked and back, Normal to Deleted for an empty account; nothing but the state changes |
| `Accounts.CheckLimit` | firm-wallet-service/src/account.rs:280-298 | passes exactly for a balance between the limits, an absent limit being none |
| `Accounts.CheckPositive` | firm-wallet-service/src/account.rs:310-320 | passes exactly for parsable amounts above zero |
| `Accounts.CheckEmpty` | firm-wallet-service/src/account.rs:322-331 | passes exactly for a zero balance without reservations |
| `Decimals.Add` | firm-wallet-service/src/balance_calculator.rs:29-39 | the sum by value, normalised; fails exactly when an operand does not parse, blaming the first |
| `Decimals.Neg` | firm-wallet-service/src/balance_calculator.rs:41-46 | the negation by value |
| `Decimals.Cmp` | firm-wallet-service/src/balance_calculator.rs:49-55 | the order of the values |
| `Decimals.NormalizedUnique` | firm-wallet-service/src/balance_calculator.rs:36-37 | normalised amounts with equal values are equal |
| `EventLogGc.GcKeepsDb` | firm-wallet-service/src/gc.rs:113-163 | a collection batch keeps events and dedup ids in one-to-one correspondence with the retained history |
| `EventLogGc.GcRefines` | firm-wallet-service/src/gc.rs:113-163 | a batch written under a running machine, inside an entry or not, is invisible to it but for the collected commands |
| `EventLogGc.RacingLookup` | firm-wallet-service/src/state_machine.rs:275-281 | a batch landing between the two reads of a duplicate lookup makes the event missing exactly when it collected that event |
| `EventLogGc.ScanFrame` | firm-wallet-service/src/gc.rs:113-141 | events outside the scanned range play no part in a batch |
| `EventLogGc.ShouldGc` | firm-wallet-service/src/gc.rs:69-92 | collection is due exactly when the retained range reaches the limit; the new first number is the old one plus the share of the limit, rounded down |
| `EventLogGc.GcCountBounds` | firm-wallet-service/src/gc.rs:69-92 | the count to collect lies below the limit for the allowed percentages |
| `EventLogGc.EventLogGcLoop.GcOneBatch` | firm-wallet-service/src/gc.rs:113-163 | one batch: the deletions of the scan and the new first number, written at once |
| `EventLogGc.EventLogGcLoop.Gc` | firm-wallet-service/src/gc.rs:94-111 | terminates, reaches the new first number exactly when max(first, 1) lies below it, and keeps the database well formed |
| `EventLogGc.EventLogGcLoop.RunOnce` | firm-wallet-service/src/gc.rs:50-92 | the first number moves by the share of the limit, rounded down, if the limit is reached and the share goes past number 1, and stays otherwise; more than limit minus count events stay |
| `EventLogGc.TurnsReachTheLimit` | firm-wallet-service/src/gc.rs:50-92 | with a limit of 40 or more, any number of events is brought below the limit by finitely many turns: at most one for every two events |
| `EventQuery.AdjustedLast` | firm-wallet-service/src/service.rs:234-268 | the range trimmed to the count limit and to what is persisted, and no further |
| `EventQuery.QueryEvents` | firm-wallet-service/src/service.rs:197-232 | for every interleaving with collection: out of range if and only if the range is illegal, truncated if and only if some event asked for is gone by the time it is read, and otherwise exactly the consecutive events asked for; the assertions hold |
| `EventQuery.StepGrows` | firm-wallet-service/src/service.rs:197-232 | every step but a crash only grows the history and its collected part |
| `Keys.EncodeInjective` | dependencies/tiny-mq/src/keys.rs:127-172 | no two keys of the wallet store collide |
| `Keys.FlatRefinesTables` | firm-wallet-service/src/rocksdb_state.rs:100-165 | every operation on the flat byte-key store is the operation on the tables |
| `Keys.ScanAccounts` | firm-wallet-service/src/rocksdb_state.rs:146-165 | the scan of the account range finds exactly the account records |
| `Keys.ScanEventRange` | firm-wallet-service/src/gc.rs:113-141 | the scan of an event key range finds exactly the events with those numbers |
| `Keys.BigEndianRoundTrip` | firm-wallet-service/src/rocksdb_state.rs:65-77 | reading back an encoded number gives the number |
| `Keys.ReadRoundTrip` | firm-wallet-service/src/rocksdb_state.rs:65-77 | encoding a decoded number gives the bytes |
| `Keys.BigEndianOrder` | firm-wallet-service/src/rocksdb_state.rs:65-77 | byte order is numeric order |
| `Keys.RaftLogKeyRoundTrip` | dependencies/tiny-mq/src/keys.rs:80-117 | a raft log key decodes to its region and index |
| `Keys.RaftLogKeyOrder` | dependencies/tiny-mq/src/keys.rs:62-82 | within a region the log is stored in index order |
| `MessageBroker.EveryRunIsAccounted` | firm-wallet-service/src/message_broker.rs:87-159 | for every arrival order of distinct positions: each request is waiting or answered once on its own channel with its position's event or a timeout, each event is waiting, matched or evicted, once |
| `BrokerFeed.PositionsAscend` | firm-wallet-service/src/state_machine.rs:119-146 | from any action on after which there is no crash, the wallet sends its answers with growing positions: none is sent twice |
| `BrokerFeed.CrashRepeatsAPosition` | firm-wallet-service/src/state_machine.rs:75-98 | a crash makes the wallet apply a command again and send its position again |
| `BrokerFeed.BrokerAccountsForTheWallet` | firm-wallet-service/src/message_broker.rs:87-159 | a broker fed by one run of the process, whose clients ask for each position once, accounts for every request and every event: that the published positions are distinct is derived |
| `MessageBroker.EvictTakesTheOldest` | firm-wallet-service/src/message_broker.rs:161-171 | at most the limit of events stays, and those evicted lie before all that stay |
| `MessageBroker.ExpireTakesAPrefix` | firm-wallet-service/src/message_broker.rs:173-193 | only requests sent at least 1000 ms ago time out, a prefix in position order; what stays starts with one in time |
| `MessageBroker.TurnIsARun` | firm-wallet-service/src/message_broker.rs:87-159 | a turn of the broker loop is a stretch of such a run |
| `MessageBroker.MessageBroker.JoinRequests` | firm-wallet-service/src/message_broker.rs:97-122 | the request loop, as the model |
| `MessageBroker.MessageBroker.JoinEvents` | firm-wallet-service/src/message_broker.rs:124-148 | the event loop, as the model |
| `MessageBroker.MessageBroker.GcInflightEvents` | firm-wallet-service/src/message_broker.rs:161-171 | the eviction loop, as the model; it leaves 10000 events, or all if there are no more |
| `MessageBroker.MessageBroker.GcInflightRequests` | firm-wallet-service/src/message_broker.rs:173-193 | the expiry loop, as the model |
| `MessageBroker.MessageBroker.RunOnce` | firm-wallet-service/src/message_broker.rs:87-159 | one turn: requests, events, eviction, expiry |
| `Batching.BatchRaftCmdRequestBuilder.Add` | dependencies/tiny-mq/src/peer.rs:2750-2767 | the command joins the batch, which stays within 60% of the entry limit |
| `Batching.BatchRaftCmdRequestBuilder.Build` | dependencies/tiny-mq/src/peer.rs:2785-2859 | the batch as one proposal, with the only callback itself or a fan-out |
| `Batching.BatchRaftCmdRequestBuilder.HandleCommands` | dependencies/tiny-mq/src/peer.rs:2911-2981 | the proposals of a round are the merges of consecutive groups of its commands, in order, none lost; each group is one command, or commands of one header each within 20% and together within 60% of the limit; no group was full before its last command, and each but the last ended because it was full, cannot be merged, was pushed out by another header or the next command does not join it |
| `Batching.BatchRaftCmdRequestBuilder.ProposeBatch` | dependencies/tiny-mq/src/peer.rs:2984-2993 | the batch so far becomes the next proposal |
| `Batching.OrderIsKept` | dependencies/tiny-mq/src/peer.rs:2911-2981 | the proposed entries concatenate the client requests in arrival order |
| `Batching.EachClientGetsItsSlice` | dependencies/tiny-mq/src/peer.rs:2829-2847 | invoking the callback of a batch gives one invocation per command, number k going to the client of command k, with the error of the entry and no responses, or with exactly the responses to its own requests |
| `Batching.EachClientIsAnswered` | dependencies/tiny-mq/src/peer.rs:2829-2851 | the same when some commands have no callback: those that have one are invoked once each, in order |
| `Batching.MergedRequests` | dependencies/tiny-mq/src/peer.rs:2750-2767 | the requests of a command sit together in its entry, from its start on |
| `Batching.ExecWriteCmd` | dependencies/tiny-mq/src/apply.rs:781-843 | an applied entry answers request `offset` with (index, offset), and panics exactly on a request of another type |
| `Batching.ClientPositions` | dependencies/tiny-mq/src/apply.rs:781-843 | the positions a client is told are those of its own requests in the entry |
| `CallbackTheorems.EveryCallbackIsAccountedFor` | dependencies/tiny-mq/src/peer.rs:1280-1377 | under the guarantees of raft no run panics, and the callbacks handed in are exactly those answered, about to be answered, scheduled or queued |
| `CallbackTheorems.InvokedOnceOrQueuedOnce` | dependencies/tiny-mq/src/apply.rs:1103-1142 | a callback handed in once is invoked once or sits in exactly one queue, once; the apply queue is empty after every task |
| `CallbackTheorems.AnswersAreTruthful` | dependencies/tiny-mq/src/apply.rs:599-649 | a callback is answered with the positions of its own committed entry, or stale, and then the entry is not committed, whatever is committed later |
| `CallbackOutcomes.ProposalsEndAsTheLogDecides` | dependencies/tiny-mq/src/peer.rs:145-176 | over every granted run: once something is committed, a proposal waits if and only if it lies after the last committed entry, was called stale if and only if it does not and its own entry is not committed, and otherwise its callback is with the apply thread or has the response of its own entry; so no proposal of a lower term is left waiting |
| `CallbackOutcomes.ProposedByAction` | dependencies/tiny-mq/src/peer.rs:1564-1680 | every registration comes from a proposal with its callback and payload, at the index raft gave it |
| `CallbackTheorems.StepKeepsInv` | dependencies/tiny-mq/src/peer.rs:1564-1676 | each step keeps the queue invariants and counts its callback once |
| `Callbacks.FindIsExact` | dependencies/tiny-mq/src/peer.rs:145-176 | the search for a committed entry never meets an unexpected callback, pops the front of the queue, hits only its own proposal, calls stale only what can no longer commit, and leaves nothing in the queue that lies before the entry |
| `Callbacks.Queue.Pop` | dependencies/tiny-mq/src/peer.rs:144-157 | the front, unless it lies after the entry |
| `Callbacks.Queue.FindCallback` | dependencies/tiny-mq/src/peer.rs:159-176 | the search loop, as the function; false exactly where it panics |
| `Callbacks.Queue.Push` | dependencies/tiny-mq/src/peer.rs:178-185 | appended; the ordering assertion is its precondition |
| `CallbackSystem.HandoverIsExact` | dependencies/tiny-mq/src/peer.rs:1332-1362 | a run of committed entries takes from the queue exactly their callbacks, in order, and the outdated ones: what stays lies after the last of them, and every registration is accounted for |
| `CallbackSystem.ApplyTaskIsExact` | dependencies/tiny-mq/src/apply.rs:1103-1142 | a task answers each of its callbacks with its entry's response, finds nothing stale, and leaves the apply queue empty |
| `CallbackSystem.FrontIsNext` | dependencies/tiny-mq/src/apply.rs:599-618 | at each entry of a task the apply queue's front is that entry's callback or a later one |
| `CallbackSystem.LeaderEntryAnswersOlder` | dependencies/tiny-mq/src/apply.rs:565-598 | the empty entry of a new leader answers exactly the waiting callbacks of earlier terms as stale, in order |
| `CallbackSystem.AppliedIsConsecutive` | dependencies/tiny-mq/src/apply.rs:516-560 | what is applied without a panic is consecutive from the applied index on, in any state |
| `CallbackSystem.CommitStateNeverGoesBack` | dependencies/tiny-mq/src/apply.rs:1103-1136 | an apply task never takes the commit index or term back, in any state |
| `CallbackSystem.ProposingKeepsOrder` | dependencies/tiny-mq/src/peer.rs:178-190 | the assertion of a push keeps the proposal queue sorted, in any state |
| `ApplyObjects.CommitHandler.HandleRaftCommittedEntries` | dependencies/tiny-mq/src/peer.rs:1332-1362 | the loop over committed entries, as the function |
| `ApplyObjects.ApplyDelegate.DropOlder` | dependencies/tiny-mq/src/apply.rs:580-594 | at an empty entry the callbacks of earlier terms are answered stale |
| `ApplyObjects.ApplyDelegate.HandleRaftEntryNormal` | dependencies/tiny-mq/src/apply.rs:565-649 | one entry, as the function; false exactly where it panics |
| `ApplyObjects.ApplyDelegate.HandleRaftCommittedEntries` | dependencies/tiny-mq/src/apply.rs:516-553 | the loop over a task's entries, with the check of the expected index |
| `ApplyObjects.ApplyDelegate.HandleApply` | dependencies/tiny-mq/src/apply.rs:1103-1133 | one apply task, as a step of the model, with the check that the commit state does not go back |
| `ApplyObjects.ApplyDelegate.AppendProposal` | dependencies/tiny-mq/src/apply.rs:1137-1142 | the callbacks of a task join the queue in order |
| `ApplyObjects.ApplyDelegate.WriteToDb` | dependencies/tiny-mq/src/apply.rs:296-316 | the callbacks of the applied batch are invoked in order and the batch is empty |
| `LogConsumer.Consumer.GetRange` | dependencies/tiny-mq/src/message_queue_adapter.rs:135-158 | the window is checked, then the engine is fetched from: all entries, a panic, or nothing at all, exactly as the engine stands at that moment |
| `LogConsumer.Consumer.ConsumeOnce` | dependencies/tiny-mq/src/message_queue_adapter.rs:375-407 | one turn delivers the wanted entries in order, waits, panics, or skips them, exactly as the windows and the engine decide |
| `LogConsumer.ApplyLoop.Turn` | firm-wallet-service/src/state_machine.rs:724-742 | the assertions on the applied index hold if and only if the entries taken were delivered before the first skip; then the machine applies just those entries and flushes exactly when full or idle |
| `LogConsumer.TurnExactly` | dependencies/tiny-mq/src/message_queue_adapter.rs:375-407 | for an engine holding the entries after `gone`: a turn delivers if and only if the next entry is wanted, in both windows and not gone; it skips silently if and only if a range of more than eight is wholly gone after the second window read |
| `LogConsumer.Consumer.GapFreeExactly` | dependencies/tiny-mq/src/message_queue_adapter.rs:375-407 | what was delivered is every entry from the first on if and only if no turn has skipped any |
| `ConsumerRuns.TurnOfARun` | dependencies/tiny-mq/src/message_queue_adapter.rs:375-407 | a turn that reads window, window and engine at any moments of a run of the raft log without a crash skips if and only if its range was in both windows, is longer than eight and is wholly collected when the engine is read; what it delivers is what the log holds there |
| `ConsumerRuns.GapFreeRun` | dependencies/tiny-mq/src/message_queue_adapter.rs:375-407 | whatever the raft log does meanwhile, a sequence of turns that does not panic has delivered every entry from the first on, as the log holds them, if and only if no turn was overtaken in that way |
| `ConsumerOvertaken.TheConsumerIsOvertaken` | dependencies/tiny-mq/src/message_queue_adapter.rs:395-405 | a run of append, commit, apply, compaction and collection that overtakes the consumer: entries 6 to 16 are passed over and the next turn delivers 17 |
| `RaftLogSuffix.EngineKeepsASuffix` | dependencies/tiny-mq/src/rocks_engine.rs:401-436 | in every reachable state the raft engine holds exactly the entries after some index, at or below the truncated index of every apply state a crash could leave |
| `Routing.PositionsAreOwn` | dependencies/tiny-mq/src/message_queue_adapter.rs:59-80 | a client of an answered batch is told one position per request, and the wallet's command at that position is the one it sent |
| `Routing.AnsweredForTheGroup` | dependencies/tiny-mq/src/peer.rs:2911-2981 | the entry a merged group is answered for is the one it was proposed as: its payload is the requests of the group in order |
| `Routing.ClientGetsItsOwnAnswer` | firm-wallet-service/src/service.rs:92-132 | a client that registers its channel at the position it was told hears on that channel only of that position, and there a timeout or the answer of its own command in the state that executed it |
| `Routing.ChannelHearsItsPosition` | firm-wallet-service/src/service.rs:92-117 | a channel used for one request hears only of the position of that request |
| `Routing.OwnEvent` | firm-wallet-service/src/service.rs:119-129 | an event that comes back carries the id of the command, so the exit on a mismatch is unreachable |
| `Routing.EveryReplyIsRouted` | firm-wallet-service/src/message_broker.rs:87-159 | for every arrival order, positions repeated or not, the two maps share no position and a reply goes to a channel waiting at the event's position |
| `RaftLog.AppendReplacesTail` | dependencies/tiny-mq/src/peer_storage.rs:383-420 | append plus cut turns the stored log into the old one up to the first new entry followed by the new ones, with no leftovers |
| `RaftLog.RaftEngine.AppendImpl` | dependencies/tiny-mq/src/rocks_engine.rs:568-580 | the entries put one by one |
| `RaftLog.RaftEngine.CutLogs` | dependencies/tiny-mq/src/rocks_engine.rs:557-562 | exactly the range deleted |
| `RaftLog.RaftEngine.Gc` | dependencies/tiny-mq/src/rocks_engine.rs:401-436 | deletes exactly [start, to), start being the first stored index when asked from 0, through batches of 256; the count underflows exactly when that start lies past `to` |
| `RaftLog.RaftEngine.DeleteRange` | dependencies/tiny-mq/src/rocks_engine.rs:401-436 | the loop that deletes in batches of 256 deletes exactly the range |
| `RaftLog.PeerStorage.Term` | dependencies/tiny-mq/src/peer_storage.rs:174-185 | defined exactly on [truncated, last], where both shortcuts give the stored entry's term |
| `RaftLog.PeerStorage.Append` | dependencies/tiny-mq/src/peer_storage.rs:383-420 | the storage holds the old log up to the first new entry, then the new ones, with last index and term |
| `RaftLogSystem.EveryRunIsSafe` | dependencies/tiny-mq/src/peer.rs:3612-3634 | under any interleaving of appends, commits, applies, notifications, collection steps and crashes that lose unsynced writes of either engine, nothing panics and the invariant holds |
| `RaftLogSystem.LogIsReadable` | dependencies/tiny-mq/src/raftlog_gc.rs:118-143 | in every reachable state, for the peer and for any engine versions a crash could leave, every index in (truncated, last] reads as the entry last appended there, nothing past last is stored, and truncated <= applied <= last |
| `RaftLogSystem.AnyVersionRestarts` | dependencies/tiny-mq/src/peer_storage.rs:452-563 | whatever versions a crash leaves, the checks of a restart pass |
| `RaftLogSystem.RestartIsCoherent` | dependencies/tiny-mq/src/peer_storage.rs:452-563 | a restart that passes its checks has its applied, last and committed entries inside the log and no term going back, whatever it found |
| `RaftLogSystem.SeekIsInRange` | dependencies/tiny-mq/src/rocks_engine.rs:401-436 | at every collection step the first stored index is at most the end of the current deletion, so its count never underflows |
| `RaftLogSystem.CompactNeverFails` | dependencies/tiny-mq/src/apply.rs:845-933 | a compaction entry of the log is skipped or applied, never refused |
| `RaftLogSystem.CompactExactly` | dependencies/tiny-mq/src/apply.rs:845-933 | a compaction is skipped or taken under exact conditions, and then moves only the truncated index and term |
| `RaftLogSystem.ApplyRange` | dependencies/tiny-mq/src/apply.rs:516-553 | applying a range moves the truncated index up through growing compactions and keeps its term right |
| `RaftLogSystem.OnRaftGcLogTick` | dependencies/tiny-mq/src/peer.rs:3940-4080 | proposes a compaction exactly when every follower is the limit past the first index; the index is then a tenth of the limit past the first, at most every matched index, and carries its entry's term |
| `RaftLogSystem.ProposedCompactionIsOk` | dependencies/tiny-mq/src/peer.rs:4062-4076 | such a proposal names an earlier index of the log it is appended to, with its term |
| `RaftLogSystem.CollectorIsReady` | dependencies/tiny-mq/src/peer.rs:3612-3634 | in every reachable state the tasks scheduled end after everything deleted so far and at or below the truncated index of the apply state the flush will sync |
| `RaftLogSystem.Runner.Run` | dependencies/tiny-mq/src/raftlog_gc.rs:169-176 | tasks gather until 128 are there |
| `RaftLogSystem.Runner.Flush` | dependencies/tiny-mq/src/raftlog_gc.rs:118-143 | the apply state is synced first; then the ranges of all tasks are gone, everything after the last one is kept, and no count underflows |
| `RaftFetch.MultiGet` | dependencies/tiny-mq/src/rocks_engine.rs:285-314 | the shortest non-empty prefix reaching the size limit, or all; a panic exactly when an entry is missing before that |
| `RaftFetch.Scan` | dependencies/tiny-mq/src/rocks_engine.rs:316-375 | the same answer on the same ranges; a gap panics and a log that ends early gives nothing |
| `RaftFetch.FetchEntriesTo` | dependencies/tiny-mq/src/rocks_engine.rs:268-375 | the answer does not depend on the strategy unless entries are missing before the limit is reached |
| `RaftFetch.AnswerIsUnique` | dependencies/tiny-mq/src/rocks_engine.rs:268-375 | there is only one such answer |
| `RaftFetch.WholeRange` | dependencies/tiny-mq/src/rocks_engine.rs:268-375 | on a stored log no entry is missing |
| `Lru.HoldsTheMostRecent` | dependencies/tiny-mq/tikv-util/src/lru.rs:241-326 | for every sample mask and counter value, after any inserts and reads the cache holds exactly the capacity most recently used keys, most recent first, a use being an insert or a sampled read of a cached key |
| `Lru.HoldsTheLastPut` | dependencies/tiny-mq/tikv-util/src/lru.rs:241-326 | after any inserts and reads a cached key is bound to the value last put under it |
| `Lru.InsertKeepsGood` | dependencies/tiny-mq/tikv-util/src/lru.rs:264-294 | inserts and reads keep the order a permutation of the cached keys within the capacity |
| `Lru.RemoveKeepsGood` | dependencies/tiny-mq/tikv-util/src/lru.rs:297-304 | so does a removal, which takes out its key and leaves the order and the bindings of all others |
| `Lru.ResizeKeepsGood` | dependencies/tiny-mq/tikv-util/src/lru.rs:242-256 | so does a resize, which keeps the most recent keys and their values |
| `LruObjects.Trace.CutOut` | dependencies/tiny-mq/tikv-util/src/lru.rs:41-49 | the record leaves the list, its neighbours are linked |
| `LruObjects.Trace.PushFront` | dependencies/tiny-mq/tikv-util/src/lru.rs:83-89 | the record is linked in after the head |
| `LruObjects.Trace.Promote` | dependencies/tiny-mq/tikv-util/src/lru.rs:83-89 | the record moves to the front, all others keep their order |
| `LruObjects.Trace.MaybePromote` | dependencies/tiny-mq/tikv-util/src/lru.rs:76-81 | promotes when the sampled bits of the counter are zero |
| `LruObjects.Trace.Delete` | dependencies/tiny-mq/tikv-util/src/lru.rs:91-97 | the record and its key leave the order |
| `LruObjects.Trace.Create` | dependencies/tiny-mq/tikv-util/src/lru.rs:99-111 | a new record first in the order |
| `LruObjects.Trace.ReuseTail` | dependencies/tiny-mq/tikv-util/src/lru.rs:113-124 | the last record comes first under the new key, its old key is returned |
| `LruObjects.Trace.Clear` | dependencies/tiny-mq/tikv-util/src/lru.rs:126-136 | only the sentinels are left, joined |
| `LruObjects.Trace.RemoveTail` | dependencies/tiny-mq/tikv-util/src/lru.rs:138-146 | the last record leaves, its key is returned |
| `LruObjects.LruCache.Get` | dependencies/tiny-mq/tikv-util/src/lru.rs:307-315 | refines the read of the recency sequence |
| `LruObjects.LruCache.Insert` | dependencies/tiny-mq/tikv-util/src/lru.rs:264-294 | refines the insert of the recency sequence, evicting exactly the tail when full |
| `LruObjects.LruCache.Remove` | dependencies/tiny-mq/tikv-util/src/lru.rs:297-304 | refines the removal |
| `LruObjects.LruCache.Resize` | dependencies/tiny-mq/tikv-util/src/lru.rs:242-256 | refines the resize; capacity 0 becomes 1 |
| `LruObjects.LruCache.Clear` | dependencies/tiny-mq/tikv-util/src/lru.rs:218-222 | refines emptying the sequence |
| `LruObjects.LruCache.ValidIsGood` | dependencies/tiny-mq/tikv-util/src/lru.rs:41-147 | the list is a permutation of the map's keys and within the capacity |

## Left out

- raft-rs itself (elections, replication, quorum, snapshots): its guarantees are the conditions on steps.
- gRPC services, raft client streams, the gateway, the status server and the Postgres utilities: input and output.
- Protobuf, RocksDB internals, and parsing or printing of decimals: entries and records are values, a parser of payloads is a parameter of `LogConsumer`, and the wallet store is a record of tables that `Keys` shows a flat byte-key store represents.
- Time: when a batch is flushed, a request expires or the collector polls is any choice; durations are parameters.
- Widths: counters, indices and sizes are unbounded, except the tick of the cache and the 8-byte keys; the 32-bit size counter of a batch is not modelled.
- Floating point: the share of events to collect and the shares of the entry size limit are reals, so the rounding of f64 is not modelled.
- Asset classes beyond the default: kept as a field compared for equality.
- Response headers inside event payloads repeat the sequence number and position; they are kept once, in the event header. The term bound to a raft response header and the request uuid are not kept.
- Transfer metadata and account hierarchies in requests: they change no account.
- The proposed and committed notifications of a callback, and read callbacks: only the write answer is followed.
- The two reads of one duplicate lookup are one step of `WalletSystem`; what a collection between them does is `EventLogGc.RacingLookup` and `CollectionTiming.RaceFailsExactly`.
- EventLogGc.EventLogGcLoop.Gc: asks for a batch size of at least one; with zero the loop does not end.
- Configuration, metrics, logging, worker pools and the many unreachable stubs of `peer.rs` and `store.rs`.
- Batching.EachClientGetsItsSlice: asks for one response per request in a response without error, as `Batching.ExecWriteCmd` gives; the slice panics otherwise.
- Routing.PositionsAreOwn: speaks of clients with a callback of their own; one without is told nothing, and a merged batch is never merged again.
- The point reads of a short range are one read of the engine in `LogConsumer`; as the engine only loses entries from the front, reads spread over time end as one of its states would.
- RaftFetch.FetchEntriesTo: takes encodings to be non-empty; with empty ones and a limit of zero the two strategies differ.
