# A verified model of the payment backend

The backend keeps one truth in three stores: the ledger (TigerBeetle), the tables (Postgres)
and a cache (Redis). This project models the protocol the backend runs over those stores, and
proves what it keeps. Each store is an explicit state with a step function; the backend's own code
is modelled branch by branch.

Five connected pieces are covered.

1. **The batching worker** (`WorkerSpec`, `WorkerProofs`, `WorkerResults`, `WorkerAnswers`, `WorkerWitness`,
   `Worker`). One loop collects commands into four buffers, flushes them by size or on a tick, and broadcasts the
   answer of a batch to everyone in it. `Worker.dfy` is the loop over its eight vectors, each method proved equal to a
   step of the state machine in `WorkerSpec.dfy`, and every run of that machine one of the loop. Over all runs the
   batched ledger refines one that applies commands one at a time, in an order that respects real time, and each
   command gets exactly one answer.
2. **Credits and debits** (`Saga`, `SagaProofs`, `SagaExactness`, `SagaOrphans`, `SagaWitness`). Any number of requests,
   interleaved step by step with the worker, each free to stop anywhere. The claims are safety properties of every state
   that can occur, an exact account of which posted transfers have or may still get a row, and of each answer when it is
   given.
3. **Priority configurations** (`Priority`, `PriorityProofs`, `PriorityResults`, `PriorityExactness`,
   `PriorityAnswers`, `PriorityService`). The two tables, their indexes, the cached copy, and the handlers that create,
   cancel and clear. Every store call may fail, with or without effect.
4. **Provisioning, balances and pages** (`Provisioning`, `Balance`, `FundsBound`, `Pagination`), with 64-bit wrap-around
   and binary64 rounding.
5. **The audit trigger** (`Audit`): the log replays to the tables.

`Ledger.dfy` states what is relied on from the ledger: unlinked events are applied in order, the answer to a create call
holds the failed indices only, ids are unique, and an account flagged DebitsMustNotExceedCredits keeps that bound. Any
further reason to refuse an event is a parameter, `Policy`. `Uuids.dfy` has the two forms of an idempotency key (the
string of section 4 of RFC 9562 and the 128-bit integer), `Numbers.dfy` the casts, `Wrappers.dfy` and `StoreCalls.dfy` the
outcomes of calls.

How the model reads the code:

- A ledger call ends in an answer, or in a client error after which the batch was applied or not. A database transaction
  commits, aborts, or commits with the confirmation lost. A cache command is answered, or fails executed or not. Handlers
  take these outcomes as parameters.
- A step of the worker is atomic with respect to sends: a send that arrives while the loop awaits the ledger counts as
  sent before or after that step.
- Rust integer arithmetic wraps, as in a release build.
- Operations on the priority of one user do not overlap. Those of different users are shown not to interfere.
- The lists of transactions are paged over rows in a fixed order. The queries order by `created_at` without a tie-breaker
  (`src/db/postgres/transaction.rs:142`), so for rows of equal time that order is an assumption, not something the code gives.

Where the code and its own comments or documentation part, the model follows the code:

- `create_user_priority` maps an error text containing "duplicate key value" to 409 (`src/api/handlers/priority.rs:199-205`). The
  repository wraps every error in a context, and the text of the wrapped error is the context alone, so that branch is
  never taken: a key in use ends as an internal error (`PriorityExactness.TakenKeyIsInternal`).
- `soft_delete_priority_config` sets no actor, so the audit trigger refuses every change it makes
  (`Audit.SoftDeleteNeverDeletes`).
- A failed read of an idempotency key is treated as "not found" in all three handlers. `SagaProofs.AtMostOnce` shows that
  this costs no safety.

Three things the backend might be expected to give, and does not. Each has a counterexample, and the exact condition under
which it holds:

- *Every posted transfer has a row.* `SagaWitness.FaultlessCredit` moves money without a row although no call fails; in
  `WorkerWitness.PostedYetReportedRefused` the sender of a posted transfer is told of the refusal of another one. Of any
  posted transfer, `SagaOrphans.RowComesExactly` says exactly when it has a row or may still come to have one. All others
  are orphans and stay so through every retry (`SagaOrphans.OrphanForever`).
- *The first entry of a batched lookup is the caller's account.* `WorkerWitness.FirstEntryOfAnother`; the condition, for
  senders with and without an account, is in `WorkerAnswers.BatchedLookup`.
- *The cache always agrees with the database.* `PriorityExactness.StaleAfterCancel`; the condition, for each user and from
  any state, is `PriorityResults.CoherenceExactly`.

A fourth: *repeating a find-or-create call returns the same user.* A nid padded with spaces beyond ten characters is cut
when it is stored and not found again (`Provisioning.PaddedNid`); `Provisioning.SameForever` says exactly when it holds.

Check the whole project with `dafny verify dfyconfig.toml` (Dafny 4.11).

## Model

| member | source | states |
|---|---|---|
| `Ledgers.FailuresAreOneAtATime` | src/tigerbeetle/operations.rs:13-21 | An index is listed in the answer to a batch, with a reason, exactly when that event, applied alone after those before it, is refused for that reason. |
| `Ledgers.AnswerDetermined` | src/tigerbeetle/operations.rs:13-21 | The answer to a batch is the one ascending list whose entries are exactly the events refused in their turn, each with its reason. |
| `Ledgers.EmptyAnswerPostsAll` | src/tigerbeetle/operations.rs:13-26 | An empty answer means that the transfers of the batch were appended to those posted, all of them, in batch order. |
| `Ledgers.PostedExactly` | src/tigerbeetle/operations.rs:13-21 | After a batch a transfer is posted exactly when it was before, or some event of the batch carries it and is accepted in its turn. |
| `Ledgers.BooksAlwaysBalance` | src/tigerbeetle/operations.rs:8-50 | Whatever is sent in whatever batches, posted ids stay unique, every account's counters equal its transfer history, and a capped account is never overdrawn. |
| `Ledgers.SearchedLookup` | src/api/handlers/user.rs:261-263 | Searching the answer to a lookup of many ids for one of them gives what a lookup of that id alone gives, found or not. |
| `Ledgers.SearchedTransferLookup` | src/tigerbeetle/operations.rs:72-89 | The same for transfers: the search finds the posted transfer if and only if the id was asked for and is posted. |
| `Ledgers.LookupEach` | src/tigerbeetle/operations.rs:52-89 | A lookup of many ids is the lookups of each, one after the other: the account or the transfer with that id, or nothing. |
| `Ledgers.FirstEntry` | src/tigerbeetle/operations.rs:52-69 | The first entry of a lookup is the account of a given holder exactly when that holder's id is the first one found. |
| `WorkerResults.BatchingRefinesOneAtATime` | src/tigerbeetle/worker.rs:48-125 | In every reachable state the ledger equals the commands put through so far applied one at a time in flush order, and its books balance. |
| `WorkerResults.KindsKeepOrder` | src/tigerbeetle/worker.rs:52-87 | Within each kind, the commands put to the ledger are a prefix of those sent, in the order of sending. |
| `WorkerResults.CallBehindReply` | src/tigerbeetle/client.rs:25-51 | Behind each reply there is one ledger call that carries the command, made after the command was sent and before the reply, and the reply is that call's answer. What answers are is said by the `...AnswerExactly` rows below. |
| `WorkerResults.CalledOnce` | src/tigerbeetle/operations.rs:23-26 | The ledger sees each command at most once. |
| `WorkerResults.RealTimeOrder` | src/tigerbeetle/client.rs:25-51 | A command sent after another was answered reaches the ledger after it, whatever their kinds. |
| `WorkerResults.Whereabouts` | src/tigerbeetle/worker.rs:48-107 | Each command sent has been put to the ledger, or was dropped, or waits in its buffer or in the channel: one of these, once; a command never sent is nowhere. |
| `WorkerResults.ExactlyOneAnswer` | src/tigerbeetle/worker.rs:48-125 | Each command sent is in the channel, in its buffer, answered, or dropped at the exit, once and in one of them only; a dropped command never reached the ledger. |
| `WorkerResults.BatchesAreBounded` | src/tigerbeetle/worker.rs:52-87 | For every configured size, with 0 acting as 1: no call is empty or larger than the size, between steps every buffer is below it, and a direct command has a call of its own. |
| `WorkerResults.TickEmpties` | src/tigerbeetle/worker.rs:110-124 | After a tick every buffer is empty. |
| `WorkerResults.TickCallsInOrder` | src/tigerbeetle/worker.rs:110-124 | A tick makes one call for each kind that has commands waiting, with all of them: transfers, then accounts, then account lookups, then transfer lookups. |
| `WorkerResults.TickAnswersEveryone` | src/tigerbeetle/worker.rs:110-124 | After a tick every command that was taken from the channel has been answered, once. |
| `WorkerAnswers.EmptyAnswerMeansPosted` | src/tigerbeetle/operations.rs:13-26 | Whoever receives an empty answer has their own transfer posted, and no other posted transfer has its id. |
| `WorkerAnswers.EmptyAnswerExactly` | src/tigerbeetle/operations.rs:13-26 | The broadcast answer is empty exactly when the call was answered and no event of the whole batch was refused. |
| `WorkerAnswers.CreateAnswerExactly` | src/tigerbeetle/operations.rs:13-50 | The answer of a create call, of transfers or of accounts: every refused command of the batch with its reason, once and in order, and nothing else, from the ledger as it was at the call; an error if the call was not answered. |
| `WorkerAnswers.SenderIsTold` | src/tigerbeetle/operations.rs:23-25 | Every sender of a create command receives that whole list for the batch it shared, in which its own index stands exactly when its own command was refused, or an error. |
| `WorkerAnswers.CallEffectExactly` | src/tigerbeetle/operations.rs:8-50 | A create call that gets through, answered or not, applies the events of its batch in order; every other call leaves the ledger as it is. |
| `WorkerAnswers.CallPostsExactly` | src/tigerbeetle/operations.rs:13-26 | What one call posts: exactly the transfers of its batch accepted in their turn, and nothing if the batch did not get through. |
| `WorkerAnswers.LookupAnswerExactly` | src/tigerbeetle/operations.rs:52-89 | The answer of a batched lookup is the ledger's, at the call, for the ids of the batch in their order; or an error. |
| `WorkerAnswers.DirectAnswerExactly` | src/tigerbeetle/worker.rs:73-103 | A direct command is answered from a call of its own: the accounts found, or for each of them its id and its posted and pending credits minus debits, exact where the difference fits in 128 bits; or an error. |
| `WorkerAnswers.BatchedLookup` | src/tigerbeetle/operations.rs:52-69 | A batched lookup, searched by the sender's own id, is the lookup of that id alone at the flush. Its first entry is the account of a sender that has one exactly when the sender's id is the first of the batch to have one, and it has no first entry exactly when no id of the batch has an account. |
| `WorkerAnswers.BatchedTransferLookup` | src/tigerbeetle/operations.rs:72-89 | A batched transfer lookup, searched by the sender's own id, gives the posted transfer with that id at the flush, or nothing. |
| `WorkerWitness.PostedYetReportedRefused` | src/tigerbeetle/operations.rs:23-25 | A run of the worker in which two transfers share a batch: the first is posted, the second is not, and both senders receive the refusal of the second. |
| `WorkerWitness.FirstEntryOfAnother` | src/api/handlers/transaction.rs:164-170 | A run of the worker in which a sender with an account receives someone else's account first, and a sender without one receives an account. |
| `WorkerLoop.Worker.constructor` | src/tigerbeetle/worker.rs:29-46 | The loop starts with empty vectors, in the first state of the state machine. |
| `WorkerLoop.Worker.ProcessTransfers` | src/tigerbeetle/operations.rs:8-28 | Flushes the transfer vectors in place: one call with the whole batch, its answer to every responder in order, both vectors emptied. |
| `WorkerLoop.Worker.ProcessAccounts` | src/tigerbeetle/operations.rs:30-50 | The same for new accounts. |
| `WorkerLoop.Worker.ProcessLookupAccounts` | src/tigerbeetle/operations.rs:52-69 | The same for account lookups. |
| `WorkerLoop.Worker.ProcessLookupTransfers` | src/tigerbeetle/operations.rs:72-89 | The same for transfer lookups. |
| `WorkerLoop.Worker.ReceiveTransfer` | src/tigerbeetle/worker.rs:52-58 | Pushes the command onto its two vectors and flushes them once they have reached the size. |
| `WorkerLoop.Worker.ReceiveAccount` | src/tigerbeetle/worker.rs:59-65 | The same for a new account. |
| `WorkerLoop.Worker.ReceiveAccountLookup` | src/tigerbeetle/worker.rs:66-72 | The same for an account lookup. |
| `WorkerLoop.Worker.ReceiveTransferLookup` | src/tigerbeetle/worker.rs:81-87 | The same for a transfer lookup. |
| `WorkerLoop.Worker.ReceiveDirectLookup` | src/tigerbeetle/worker.rs:73-80 | Answers a lookup of many ids at once, without touching the vectors. |
| `WorkerLoop.Worker.ReceiveBalanceQuery` | src/tigerbeetle/worker.rs:88-103 | Answers a balance query at once: credits minus debits, posted and pending, of each account found, in 128 bits. |
| `WorkerLoop.Worker.Receive` | src/tigerbeetle/worker.rs:50-109 | Takes the next command to its branch, or leaves the loop when the channel is closed and drained. |
| `WorkerLoop.Worker.OnTimer` | src/tigerbeetle/worker.rs:110-124 | Flushes whatever waits, kind after kind. |
| `WorkerLoop.Worker.Enqueue` | src/tigerbeetle/client.rs:25-51 | A sender's half: the command joins the end of the channel and nothing else changes. |
| `WorkerLoop.Worker.Close` | src/tigerbeetle/worker.rs:104-107 | The last sender goes: the channel is closed, what it holds stays. |
| `WorkerLoop.Worker.Run` | src/tigerbeetle/worker.rs:48-127 | The loop over any choices of the select, with sends and the closing of the channel anywhere between its rounds, goes through the steps of the state machine, round by round. |
| `WorkerLoop.LoopReaches` | src/tigerbeetle/worker.rs:48-127 | From a reachable state, if every sender has a responder of its own, the loop reaches reachable states only, so every result about those holds of the object. |
| `WorkerLoop.RunsAreLoops` | src/tigerbeetle/worker.rs:48-127 | Every run of the state machine is what the loop does for some choices, so no reachable state is an artefact of the machine. |
| `Uuids.ParseRoundTrip` | src/api/handlers/transaction.rs:100 | The string form of a key reads back as the key. |
| `Uuids.KeyFormsInjective` | src/api/handlers/transaction.rs:100-126 | Two keys have equal strings, or equal 128-bit integers, exactly when they are the same key. |
| `Uuids.OctetWeight` | src/api/handlers/transaction.rs:125 | The 128-bit form is big-endian: octet i weighs 256^(15 - i), and those after it together weigh less. |
| `Uuids.StringForm` | src/api/handlers/transaction.rs:100 | The string form, character by character: hyphens at 8, 13, 18 and 23, and each octet as two lower-case digits in its place. |
| `SagaProofs.RowsAreBacked` | src/api/handlers/transaction.rs:124-162 | In every state that can occur, behind every row there is exactly one posted transfer with the row's key as its id, and it has the row's amount and both of its accounts. |
| `SagaProofs.AtMostOnce` | src/db/postgres/transaction.rs:25-69 | For any number of concurrent or repeated requests, a key is the id of at most one posted transfer and the key of at most one row. |
| `SagaProofs.SuccessIsOwn` | src/api/handlers/transaction.rs:149-176 | A success names a row that is the request's own: its key, direction, amount, user, provider and both accounts; no other row has that id, and the request's transfer is posted. |
| `SagaProofs.ResponsesAreTrue` | src/api/handlers/transaction.rs:109-115 | A request answered as already processed is answered with a row that has its key, and a transfer with that key is posted. |
| `SagaProofs.LateStaysLate` | src/api/handlers/transaction.rs:108-115 | Once a row has a request's key and the request has not passed its check, its steps change neither store, and a check that reads the key answers with that row's id. |
| `SagaProofs.LateForever` | src/api/handlers/transaction.rs:204-219 | Over any further steps of the whole system, as long as the request's own read of the key succeeds, none of its steps changes the ledger, the worker or the table, and it ends with that row's id or in an earlier error. |
| `SagaProofs.PositiveUnwrapped` | src/api/handlers/transaction.rs:153 | The cast amount passes the check that it is positive exactly when the amount is positive and below 2^63, and then the cast has lost nothing. |
| `SagaExactness.AcceptedOnce` | src/tigerbeetle/operations.rs:13-26 | Of all commands with one transfer id, at most one is ever answered with an empty list. |
| `SagaExactness.AcceptedFindsNoRow` | src/api/handlers/transaction.rs:149-162 | A request whose transfer was accepted never finds its key taken in the table, whatever other requests with the key have done. |
| `SagaExactness.RowWrittenExactly` | src/db/postgres/transaction.rs:43-68 | The insert of an accepted request writes its row exactly when the transaction commits, the amount is positive and below 2^63, and the drawn row id is new. |
| `SagaOrphans.RowComesExactly` | src/api/handlers/transaction.rs:124-162 | Of every posted transfer, given an unused row id: its key has a row or comes to have one on some path exactly when it has one now, or a request whose own command was accepted, with an amount that passes the check, has not yet inserted. |
| `SagaOrphans.OrphanForever` | src/api/handlers/transaction.rs:262-300 | A posted transfer without a row, to which no such request is left, never gets a row, whatever happens and however often the request is repeated. |
| `SagaOrphans.UnheardIsOrphan` | src/tigerbeetle/operations.rs:13-26 | A transfer posted by a call whose answer lists any refusal, or was lost, is such an orphan from then on. |
| `SagaOrphans.NoLateAcceptance` | src/tigerbeetle/operations.rs:13-26 | Once an id is posted, no step of the worker tells a further sender of that id that it was accepted. |
| `SagaWitness.FaultlessCredit` | src/api/handlers/transaction.rs:95-182 | For every amount a history without faults posts the transfer; with an amount of 0 or of 2^63 and more it ends with the money moved, no row and an error; with any other it ends in success. |
| `SagaWitness.FaultlessDebit` | src/api/handlers/transaction.rs:199-320 | A debit from an account that a credit has funded, in a history without faults: for every amount the account covers its transfer is posted, from the user to the provider, and for a positive one below 2^63 its DEBIT row is written and it succeeds; for any other amount nothing is posted and it is rejected. |
| `SagaWitness.Serve` | src/api/handlers/transaction.rs:95-182 | From any state with an idle worker, a request of either direction that meets no fault ends as the ledger's verdict on its transfer and its amount decide, and adds exactly its own transfer and its own row. |
| `SagaWitness.GoesOnExactly` | src/api/handlers/transaction.rs:231-284 | With both accounts known, a credit can hand its transfer over to the worker at once; a debit cannot, but can after its priority step exactly when that step succeeded, and has ended if it did not. What is handed over has the request's key, amount and accounts. |
| `SagaWitness.EndsExactly` | src/api/handlers/transaction.rs:102-182 | When and how a request ends: 404 exactly for a missing account, the row's id exactly for a key that has one and could be read, 400 exactly for a refusal in the ledger's answer, and success exactly after its row was written. |
| `SagaWitness.ErrsExactly` | src/api/handlers/transaction.rs:102-182 | A request ends with 500 exactly for a failed read, a failed priority step, an answer lost or in error, an insert that does not commit or meets the check of the amount or a used row id, or a failed last lookup. |
| `SagaWitness.MovesExactly` | src/api/handlers/transaction.rs:95-182 | No request that has not ended is stuck, but for one that waits for a loop that still runs or needs a channel that is closed; one that has ended takes no further step; each call may end in every way. |
| `PriorityProofs.ActiveIndexNeverViolated` | src/db/postgres/priority.rs:72-95 | After the cancel step the insert meets the index of active rows never: it is admitted exactly when the key fits its column and id and key are new. |
| `PriorityProofs.InsertItemsExactly` | src/db/postgres/priority.rs:97-117 | The insert loop succeeds exactly when no provider is named twice, every provider exists and no amount is negative, for fewer than 2^31 items, and then appends one row an item, numbered from 1, in order. |
| `PriorityProofs.CreateTxExactly` | src/db/postgres/priority.rs:65-126 | When the transaction succeeds, and the tables it then leaves. |
| `PriorityProofs.ConfigStateMachine` | migrations/20260528082631_create_initial_schema.sql:189-225 | Over every run of the handlers, with faults anywhere: at most one active configuration a user, unique keys, items that meet their constraints; rows are never lost, and a status moves from ACTIVE to CANCELLED only. |
| `PriorityResults.SortSorts` | src/db/postgres/priority.rs:28 | ORDER BY gives an ascending permutation of the rows. |
| `PriorityResults.QueryIgnoresTableOrder` | src/db/postgres/priority.rs:11-29 | The items a configuration is read with, joined and ordered, are the same however the rows of the item table are permuted. |
| `PriorityAnswers.ItemsQueryExactly` | src/db/postgres/priority.rs:11-29 | The items of any configuration, as they are read, are its rows that are not deleted, each once, in ascending order, joined with their providers. |
| `PriorityAnswers.GetActiveExactly` | src/db/postgres/priority.rs:135-153 | The active configuration as it is read is the user's active row with exactly its items, in order, each with its provider's ledger account and fees; and nothing if there is no such row. |
| `PriorityResults.OthersUntouched` | src/api/handlers/priority.rs:164-245 | One user's operations change neither the active configuration nor the cached value of any other user. |
| `PriorityAnswers.AddLinkExactly` | src/db/postgres/user.rs:58-100 | A provider or an account that comes to exist meanwhile is there afterwards, existing ones keep their columns, and configurations, items and cache stay as they are. |
| `PriorityResults.CreateCoherent` | src/api/handlers/priority.rs:164-241 | Whatever fault strikes a creation, wherever, a coherent cache stays coherent; from its executed deletion on it is coherent whatever it was before. |
| `PriorityResults.CreateHeals` | src/api/handlers/priority.rs:164-169 | A creation that executes its deletion leaves the user's cache coherent from any state. |
| `PriorityResults.CoherenceExactly` | src/api/handlers/transaction.rs:231-259 | For each user and from any state: the user's cached value is coherent after an operation exactly when the operation was the user's and removed it, or it was coherent and the operation did not cancel it in the database and get cut off before the deletion. |
| `PriorityResults.CoherentRun` | src/api/handlers/priority.rs:300-331 | From any coherent moment of a user on, as long as none of that user's cancellations and debits is cut off so, the user's cached value stays coherent, expiry included, whatever befalls other users. |
| `PriorityResults.CoherentMoments` | src/api/handlers/priority.rs:164-169 | Such moments are the beginning and every executed deletion or expiry of the user's value, however stale it was. |
| `PriorityResults.CreateThenGet` | src/api/handlers/priority.rs:113-122 | After a successful creation the active configuration is the request, item by item in its order, numbered from 1, with providers, amounts, usage and both ledger accounts; the response and the cached value are the same. |
| `PriorityResults.DebitClears` | src/api/handlers/transaction.rs:231-259 | A debit that goes on to the ledger leaves no active configuration through its provider, and one that does not contain the provider is untouched. |
| `PriorityResults.DebitDisablesPriority` | src/api/handlers/transaction.rs:231-279 | Once a debit has gone on, at no later moment of the run does an active configuration of the user contain the provider, until a new one is created. |
| `PriorityAnswers.CreateSucceedsExactly` | src/api/handlers/priority.rs:81-245 | A creation is answered with a configuration exactly when the list and the key are there, no row is known by the key, the user has an account with every provider named, what the ledger says is left on each covers its amount, no call fails, key and id are new and the key fits, no provider is named twice and no amount is negative. |
| `PriorityAnswers.CreateAnswersExactly` | src/api/handlers/priority.rs:90-159 | The other answers: 400 exactly for a request that is not well formed, the known row with exactly its items exactly for a known key, and 422 with exactly the providers that are not linked or, if all are, are short of funds, in order and once each. None of these touches a store. |
| `PriorityAnswers.CreateLeavesExactly` | src/api/handlers/priority.rs:161-241 | What a creation leaves in tables and cache, wherever a fault cuts it off: which rows are cancelled and inserted, column by column, and whether the user's cached value is removed, or replaced by the new configuration with its time to live. |
| `PriorityAnswers.AvailableExactly` | src/api/handlers/priority.rs:144-145 | What is available is posted credits minus posted debits where that fits, nothing of an overdrawn account, and otherwise the number that the difference wraps to. |
| `PriorityAnswers.UnfundedExactly` | src/api/handlers/priority.rs:140-154 | The providers listed as short of funds are exactly those whose account is missing from the answer or does not cover the amount, in order and once each. |
| `PriorityAnswers.UnresolvedExactly` | src/api/handlers/priority.rs:113-122 | The providers listed as not linked are exactly those without an account of the user, or whose read was lost, in order and once each. |
| `PriorityAnswers.ResolvedExactly` | src/api/handlers/priority.rs:113-122 | The items looked up in the ledger are exactly those with an account of the user whose read was answered, in order, each with the user's and the provider's ledger account. |
| `PriorityAnswers.TtlExactly` | src/api/handlers/priority.rs:214-233 | The time to live is the whole seconds up to the expiry if there is at least one, and none otherwise. |
| `PriorityAnswers.CancelAnswersExactly` | src/api/handlers/priority.rs:291-337 | The cancellation answers with the configuration exactly when there was an active one, the commit was confirmed and the deletion worked: its id, its key and its items, status CANCELLED, as a row that stands in the table. It answers 404 exactly when there was none, and fails otherwise. It changes exactly that row and the user's cached value. |
| `PriorityAnswers.ClearAnswersExactly` | src/api/handlers/transaction.rs:231-259 | The debit goes on exactly when the read was answered and, if an active configuration has an item through the provider, its cancellation was confirmed; it changes exactly that row and the user's cached value, and nothing without such a configuration. |
| `PriorityExactness.FailedCreateExactly` | src/api/handlers/priority.rs:171-205 | A failed creation leaves the user's active configuration exactly when it does not come as far as cancelling it, in a transaction of its own, or that transaction aborts. |
| `PriorityExactness.NamedTwiceLosesActive` | src/api/handlers/priority.rs:171-205 | A list that names a provider twice, with no fault up to there, ends in an error and leaves its user without an active configuration. |
| `PriorityExactness.TakenKeyIsInternal` | src/api/handlers/priority.rs:199-205 | A creation that comes to its transactions with a key in use, its read of the key having failed, ends as an internal error. |
| `PriorityExactness.StaleAfterCancel` | src/api/handlers/priority.rs:300-322 | A run that ends with a cancelled configuration in the cache: it is created, and the cache fails during its cancellation. |
| `PriorityHandlers.PriorityService.CreatePriorityConfig` | src/db/postgres/priority.rs:55-132 | The transaction with its insert loop: all or nothing, and what it returns. |
| `PriorityHandlers.PriorityService.CancelActivePriorityConfig` | src/db/postgres/priority.rs:156-189 | Cancels the active configuration and returns it with its items, or nothing when there is none. |
| `PriorityHandlers.PriorityService.ResolveAccounts` | src/api/handlers/priority.rs:110-122 | The loop splits the request into resolved items and unresolved providers, each in order. |
| `PriorityHandlers.PriorityService.ValidateFunds` | src/api/handlers/priority.rs:140-154 | The loop lists the providers whose account is missing or does not cover the amount. |
| `PriorityHandlers.PriorityService.CreateUserPriority` | src/api/handlers/priority.rs:81-245 | The handler, check by check and store by store, gives the prescribed stores and answer for every outcome of its calls. |
| `PriorityHandlers.PriorityService.CancelActiveUserPriority` | src/api/handlers/priority.rs:291-337 | The same for the cancellation: the database first, then the cache. |
| `PriorityHandlers.PriorityService.ClearPriorityForDebit` | src/api/handlers/transaction.rs:231-259 | The same for the priority step of a debit, where a failed deletion does not stop the debit. |
| `UserBalance.GetUserBalance` | src/api/handlers/user.rs:236-284 | The summation loop, in arithmetic that wraps at every step: the total is the exact sum wrapped once; each entry has its row's provider id and name and its account's exact balance wrapped once, in order; it fails exactly if the lookup it needs fails. |
| `UserBalance.AnswerIsHistory` | src/api/handlers/user.rs:251-284 | What the handler returns for the worker's answer is the transfer history at one moment between its question and the answer: for each row its provider's id and name with posted credits minus posted debits, and the total, in 64 bits, exact wherever they fit. |
| `UserBalance.BalanceIsHistory` | src/api/handlers/user.rs:251-277 | In every reachable state the total over a user's accounts is the posted credits minus the posted debits of those accounts. |
| `UserBalance.NetsAdd` | src/api/handlers/user.rs:258-270 | What that total is: a single account counts its own history, and two lists together the sum of both. |
| `UserBalance.EachBalanceIsHistory` | src/api/handlers/user.rs:261-268 | The same account by account; one the ledger does not know counts as 0, and one with the flag DebitsMustNotExceedCredits is never negative. |
| `UserBalance.ShownExactly` | src/api/handlers/user.rs:258-270 | The numbers shown are exact exactly when the exact ones fit in 64 bits. |
| `UserBalance.MoneyIsConserved` | src/tigerbeetle/operations.rs:8-28 | In every reachable state the balances of all accounts, each counted once, add up to zero. |
| `FundsBound.MapAgreesWithSearch` | src/api/handlers/priority.rs:135-138 | The hash map of the accounts found gives what a linear search of them gives, for every id looked up. |
| `FundsBound.AcceptedWithinBalance` | src/api/handlers/priority.rs:140-159 | Over one snapshot in which no account of the user is overdrawn, and with counters of any size, the amounts of an accepted list add up to at most the user's exact total, and to at most the total shown where that fits in 64 bits. |
| `FundsBound.AmountsAdd` | src/api/handlers/priority.rs:140-154 | What those amounts add up to: a single item counts its amount, and two lists together the sum of both. |
| `Provisioning.UserRepository.CreateOrLinkUser` | src/db/postgres/user.rs:14-105 | The transaction in place, with what a rollback restores, and what the caller gets for each way it may end. |
| `Provisioning.UserRepository.InsertProvider` | migrations/20260528082631_create_initial_schema.sql:98 | A provider is inserted when its id and its ledger account are new, and refused otherwise. |
| `Provisioning.AlwaysOk` | src/db/postgres/user.rs:31-104 | Over every run: one user a nid, at most one link and one account a pair, and a link exactly where there is an account. |
| `Provisioning.LinkTxExactly` | src/db/postgres/user.rs:31-100 | When the transaction succeeds: the provider exists, the nid fits, and whatever must be created can be. |
| `Provisioning.LinkTxWrites` | src/db/postgres/user.rs:31-104 | What a successful call writes: a known user keeps every column, an unknown one is added with the nid as stored and the internal metadata; the link has the external metadata and no other link changes; a known account keeps its ledger account, an unknown one gets the call's. |
| `Provisioning.StoredExactly` | migrations/20260528082631_create_initial_schema.sql:108 | A nid of up to ten characters is stored as it is, a longer one is cut to ten if the rest are spaces, and refused otherwise. |
| `Provisioning.RepeatsReturnTheSame` | src/db/postgres/user.rs:39-100 | A call for a known user and account succeeds with any drawn ids, returns both unchanged and adds no row. |
| `Provisioning.SameForever` | src/db/postgres/user.rs:31-104 | After a call has committed, any later call of the run with its nid and provider returns the same user and account exactly when the nid fits its column. |
| `Provisioning.PaddedRepeatFails` | src/db/postgres/user.rs:39-56 | A nid longer than its column, cut to that of a known user, makes every further call fail. |
| `Provisioning.PaddedNid` | migrations/20260528082631_create_initial_schema.sql:108 | Ten digits and a space as nid: the first call succeeds and the second fails. |
| `Provisioning.JoinIsOneRow` | src/db/postgres/user.rs:113-138 | The four-way join gives one row when user and provider are linked, and none otherwise. |
| `Pagination.OffsetExactly` | src/api/handlers/transaction.rs:342-344 | The offset is exact exactly when it is below 2^63. |
| `Pagination.PagesAreTheList` | src/db/postgres/transaction.rs:125-151 | In a fixed order, pages 1 to the page count, one after the other, are the list, each row once and in order. |
| `Pagination.PageSizes` | src/db/postgres/transaction.rs:125-151 | Every page before the last is full, the last is not empty, and later ones are. |
| `Pagination.PageCountExact` | src/api/handlers/transaction.rs:351 | For up to 2^53 rows and every admitted limit, conversion, division and rounding up in binary64, each rounded to nearest, give the integer quotient rounded up. |
| `Pagination.PageCountInexactBeyond` | src/api/handlers/transaction.rs:351 | With 2^53 + 1 rows and one row a page the page count is wrong, however ties are rounded. |
| `Pagination.HandlerPagesAreTheList` | src/api/handlers/transaction.rs:342-351 | The handler's own numbers together: with its clamped limit, its wrapped offsets and its binary64 page count, pages 1 to that count are the list of up to 2^53 rows, and further pages are empty while their offset fits. |
| `Pagination.FarPageIsFirst` | src/api/handlers/transaction.rs:342-344 | Where the offset wraps to 0, a page far beyond the end shows the first page. |
| `Pagination.ArgumentsNearest` | src/api/handlers/transaction.rs:342-343 | Arguments out of range are moved to the nearest admitted ones. |
| `Pagination.RefusedExactly` | src/api/handlers/transaction.rs:344 | A page request fails in the database exactly when the product of page and limit, in 64 bits, comes out negative. |
| `Audit.Database.FnAuditTrigger` | migrations/20260528082631_create_initial_schema.sql:40-70 | Raises without a valid actor; otherwise appends one signed entry with the values that its operation has. |
| `Audit.Database.RunTransaction` | migrations/20260528082631_create_initial_schema.sql:40-70 | A transaction does all of its steps or leaves rows and log as they were. |
| `Audit.StepExactly` | migrations/20260528082631_create_initial_schema.sql:40-70 | When a step raises, which row it changes and to what, and the entry it writes: row, actor, action, old values and new values. |
| `Audit.ActorIsLast` | migrations/20260528082631_create_initial_schema.sql:44-49 | The actor of a step is the one set last in its transaction. |
| `Audit.LogReplaysToTables` | migrations/20260528082631_create_initial_schema.sql:40-70 | After any transactions, folding the log from nothing gives every audited row; each entry's old values are the row as the entries before it left it, and its action fits what it tells. |
| `Audit.EntriesAreSigned` | src/db/postgres/priority.rs:65-70 | A transaction that sets its actor first signs all of its entries with that actor. |
| `Audit.WithoutActorNothing` | migrations/20260528082631_create_initial_schema.sql:51-53 | A transaction that sets no actor changes neither a row nor the log. |
| `Audit.WithoutActorFails` | migrations/20260528082631_create_initial_schema.sql:51-53 | It fails exactly when one of its steps would touch a row or runs into another error. |
| `Audit.SoftDeleteNeverDeletes` | src/db/postgres/priority.rs:192-212 | The soft delete changes nothing, and fails exactly when the configuration or one of its items exists. |

## Left out

- The one-second windows by which `create_or_link` decides whether a ledger account must be created (`src/api/handlers/user.rs:117-121`), and so when that account appears: they compare the clocks of two hosts.
- Refusals of the ledger that depend on earlier refusals of the same id rather than on its books.
- A priority request whose key is longer than 255 characters by trailing blanks only: header values carry none (section 5.5 of RFC 9110), so every longer key is refused.
- NUL characters and other texts that Postgres itself refuses in a value.
- Spellings of a UUID, other than the one the program writes, that the cast `::UUID` in the audit trigger accepts.
- `get_all_priority_configs` and its order by creation time; timestamps altogether, except for the time to live of a cached value. Which of several orders a database gives to rows of equal `created_at`, and rows inserted between two page requests.
- Ids of priority items, links and log entries, which nothing else refers to.
- Overflow panics of a debug build.
- A send that fails because the channel is closed: the loop leaves only when every sender is gone (`src/tigerbeetle/worker.rs:48-107`), and a request holds one.
- The capacity of the channel and the waiting of senders; waiting itself is an enabled step that has not been taken.
- The balance shown in the answer to a credit or debit, beyond what `WorkerAnswers.BatchedLookup` says of its first entry.
- The fields of a transfer that are always zero or a constant, and the copies between the two sets of model types.
- Creation and validation of providers, Kafka, configuration, telemetry, routing, and the texts and status codes of answers.
