# Verified model of the shop's protocols

A Dafny model of the parts of the shop that have to stay correct when requests interleave, processes die and stores
disagree, together with proofs about every run of it.

**Sessions.** `RefreshTokens`, `AuthDenylist`, `AuthMaintenance`, `AuthService` and `AccessAuthenticator` are the
methods of the auth code, statement by statement. `RevocationProtocol` puts them into one state machine: logins,
refreshes and logouts, Redis writes that succeed, fail or lose their reply, connections that close and take data with
them, overlapping syncs, cleanup batches, and restarts of the process. `RevocationSafety` proves what that machine
guarantees. The rotation follows section 4.14.2 of RFC 9700.

**Orders.** `Checkout` is the checkout transaction and `Ledger` says exactly when it succeeds, why it fails and that it
conserves stock and money. `CheckoutLocks` runs any number of checkouts on their row locks, `CheckoutSerial` runs them
statement by statement on their rows, and `CheckoutProgress` shows that there, too, they get to their ends. `LineTexts` and `PlaceOrder` are idempotent placement, alone and concurrent.
`CanonicalJson` and `Idempotency` are the canonical request text and the records keyed by it.

**Events.** `OrderPlaced` is the event as written and as read, `OrderPlacedPublisher` the publish with its confirms,
`OutboxRelay` the relay's batch and the outbox cleanup, `RelayProcess` the loop of the relay process,
`OrderPlacedConsumer` the inbox consumer. `RelayBooks` is the outbox under several relays, and `OrderPipeline` connects it
with checkout, the broker and several consumers, each of which may die between any two of its steps; `FirstSale` is a first
run of it. `RelayRuns` and `ConsumerRuns` show that the methods are runs of the pipeline, `RelayLogs` which relays keep
plain books, and `PipelineProgress` which orders can still get their receipts.
`OrderEvents` and `OrderStreams` are the status events kept in memory and the streams that replay them, and `OrderStatus`
is the change that publishes them.

**Services.** `RateLimiter` is the sliding window kept in Redis, `JobWorker` and `JobWorkers` are the job queue with one
worker and with any number of them. `Options`, `Sorting`, `Sums`, `Text` and `BatchDelete` are shared.

A state machine is a set of actions with `Enabled` and `Apply` (or `Next`); everything the environment chooses, such as
fresh ids, failing writes or the rows an UPDATE misses, is part of the action. A class method is tied by its `ensures`
to a function of the old state, and the state machines use the same functions.

## Where the code promises less than one may think

- The Redis key of a revoked family is not always there while the denylist is in sync. When all rows of the family
  expire within ten minutes of its revocation, the cleanup may delete them before a sync reads them.
  `KeyIsGuaranteedExactlyForOutlivingFamilies` gives the exact condition and `KeyOfLateReuseIsNotGuaranteed` a family: it
  rotates on its first day, and its reuse is found a hundred seconds before its rows expire. No access token of such a
  family is alive then, so `RevokedAccessIsNeverAccepted` holds without the condition.
- Lines are locked in the order of `Number(productId)`. Two ids between 2^53 and the largest bigint that round to the same
  number can deadlock two checkouts: `NoDeadlockIffKeysTellApart`, `ExactIdsNeverDeadlock`. Larger ids are refused before
  a row is locked.
- The idempotency key `''` is stored and conflicts, but is never looked up, so the second request gets the conflict:
  `ConflictFindsTheWinner`, with the two requests in `EmptyKeyLosesTheWinner`.
- A product id such as `007` is stored as `7`, so an identical retry is refused as a different request:
  `RetryMatchesIffIdsAreCanonical`, with that order and its retry in `PaddedRetryIsRefused`.
- A status change made under `007` is not written to a stream opened under `7`: `ChangeReachesStreamsIffPathIsCanonical`.
- `OrderPlacedPublisher` and `relayBatch` count a sent message as returned when an earlier publish of it, by the same
  publisher, bounced without being confirmed: `MisreportedIffLeftBehind`. The relay process does not come to that, because
  it ends at its first publish error (src/relay.ts:57-60) and forgets what it remembered: `Relay`,
  `StoppingRelaysKeepPlainBooks`. A host that lets a process go on after such an error may: `CopyMayBeMisreported`, and
  `PlainBooksFailIffAProcessWentOn` for the exact condition. No event is lost either way.
- Both cleanup loops end if and only if their batch size is at least 1: `LoopEndsIffBatchesArePositive`.

## Assumptions

- One app process uses the denylist, and all stores share one clock that does not go back, counted in seconds
  (milliseconds for the rate limiter). A refresh, including the signing of its access token, is one step. A revoking
  UPDATE may miss rows that concurrent refreshes insert. Redis loses data only together with a `close` event.
  `isDenied` is one step.
- Random values (tokens, families, token ids, UUIDs) are fresh, and ids that the database generates are new.
- A transaction happens at once or not at all; nobody is unsure whether it committed. For checkouts `CheckoutSerial`
  derives this from their row locks.
- The broker's queue and dead letter queue lose nothing, and only the relay sends messages that `parseMessage` accepts.
- SHA-256 tells the request bodies apart, so a fingerprint is the canonical text itself.

## Model

| member | source | states |
|---|---|---|
| AuthService.AuthService.Login | src/auth/auth.service.ts:57-76 | a matching password opens a new family with one fresh row; anything else changes nothing |
| AuthService.AuthService.Refresh | src/auth/auth.service.ts:78-149 | rotates, detects reuse (all unrevoked rows of the family are revoked and the denylist is written, failures swallowed) or refuses, each exactly when it should and with its exact effect on the rows and keys of both stores |
| AuthService.AuthService.Logout | src/auth/auth.service.ts:151-161 | revokes the family in Postgres first, then writes both Redis keys; fails exactly when that write fails |
| AuthDenylist.AccessDenylist.MarkOutOfSync | src/auth/access-denylist.ts:85-88 | clears `synced` and counts a generation |
| AuthDenylist.AccessDenylist.Logout | src/auth/access-denylist.ts:44-53 | writes the session key for 600 s and the token key for the token's remaining life, none if that is over; a failure, even one after the write took effect, marks out of sync |
| AuthDenylist.AccessDenylist.RevokeSession | src/auth/access-denylist.ts:55-59 | writes the session key, marks out of sync on failure |
| AuthDenylist.AccessDenylist.RestoreRevokedSessions | src/auth/access-denylist.ts:61-75 | copies the sessions without touching live keys, executes some of them if the pipeline fails, and becomes synced only if no generation passed |
| AuthDenylist.AccessDenylist.IsDenied | src/auth/access-denylist.ts:77-83 | throws when out of sync or unreachable, otherwise answers whether either key is alive |
| AuthMaintenance.FindRecentlyRevokedSessions | src/auth/auth-maintenance.ts:16-27 | lists each family with a row revoked in the last 600 s once, with a positive lifetime |
| AuthMaintenance.RecentlyRevokedTtl | src/auth/auth-maintenance.ts:16-27 | a listed lifetime reaches 600 s past every recent revocation of the family |
| AuthMaintenance.RecentlyRevokedWitness | src/auth/auth-maintenance.ts:16-27 | and not beyond that of one of its rows |
| AuthMaintenance.CleanupExpiredRefreshTokens | src/auth/auth-maintenance.ts:29-61 | the batch loop ends and leaves exactly the table a one-shot delete of all fully expired families leaves; it returns how many rows went |
| BatchDelete.LoopEndsIffBatchesArePositive | src/auth/auth-maintenance.ts:35-60 | a loop of batch deletes is bounded if and only if the batch size is at least 1 |
| RefreshTokens.RemovableAfterDelete | src/auth/auth-maintenance.ts:40-50 | deleting some removable rows makes no other row removable and keeps the rest removable |
| AuthMaintenance.AuthMaintenance.Launch | src/auth/auth-maintenance.ts:116-134 | starts a task and hands out its promise; a running task is joined instead, and after shutdown nothing starts |
| AuthMaintenance.AuthMaintenance.Settle | src/auth/auth-maintenance.ts:123-129 | a run that ends, well or badly, makes room for the next; its failure is reported unless the service has stopped |
| AuthMaintenance.AuthMaintenance.Stop | src/auth/auth-maintenance.ts:87-95 | shutdown waits for exactly the runs under way |
| AuthMaintenance.AuthMaintenance.SyncRevokedSessions | src/auth/auth-maintenance.ts:97-102 | an undisturbed sync fails exactly if there is something to copy and the pipeline fails, and then marks out of sync; otherwise it ends in sync with every recent revocation copied |
| AccessAuthenticator.StreamAgreesWithRequest | src/auth/access-authenticator.ts:26-56 | an open stream goes on exactly as long as a new request with the same token would be accepted |
| AccessAuthenticator.LiveTokenIsRejectedOnlyIfDenied | src/auth/access-authenticator.ts:26-77 | rejection, acceptance and "try again later" are told apart by the denylist's answer for every live token; expired and badly signed ones are rejected |
| RevocationProtocol.StepKeepsInv | src/auth/access-denylist.ts:33-98 | every action, from a login to a lost connection or a restart, keeps the invariant that connects rows, keys, writes in flight, syncs and generations |
| RevocationSafety.RevokedAccessIsNeverAccepted | src/auth/access-authenticator.ts:26-40 | once the Redis write of a logout or reuse has finished, with success or failure, no access token of the family is accepted again in any later state |
| RevocationSafety.UnsettledRevocationIsInFlight | src/auth/auth.service.ts:132-142 | a revocation whose Redis write has not finished is still in flight |
| RevocationSafety.UnrevokedAccessIsAccepted | src/auth/access-authenticator.ts:26-40 | while in sync and reachable, a live access token of an unrevoked family is accepted |
| RevocationSafety.LiveAccessIsRejectedOnlyIfRevoked | src/auth/access-authenticator.ts:26-77 | a live access token is rejected only if its family was revoked; its holder is told to try again if and only if the denylist is out of sync or Redis does not answer |
| RevocationSafety.KeyIsGuaranteedExactlyForOutlivingFamilies | src/auth/access-denylist.ts:61-98 | for 600 s after a revocation every synced state has the family's key or its write in flight, if and only if the family keeps an unexpired row that long |
| RevocationSafety.KeyOfLateReuseIsNotGuaranteed | src/auth/auth-maintenance.ts:35-53 | there is such a family: a reachable revocation whose key is missing in a later synced state within its 600 s |
| RevocationSafety.RevokedFamilyNeverRotates | src/auth/auth.service.ts:82-94 | once one row of a family is revoked no refresh of the family rotates, although the revoking UPDATE may miss rows and the cleanup may delete revoked ones |
| RevocationSafety.LiveFamilyIsComplete | src/auth/auth-maintenance.ts:35-53 | no row of a family with an unexpired row was ever deleted |
| RevocationSafety.SpentTokenIsRecognised | src/auth/auth.service.ts:115-129 | a spent token of a live, unrevoked family always takes the `reused` branch |
| RevocationSafety.ReusedIffExchangedAndUnrevoked | src/auth/auth.service.ts:115-129 | in every reachable state a refresh answers `reused` if and only if the token is in the table, has been exchanged, and is not revoked itself |
| RevocationSafety.ExchangedIffUnspentAndUnrevoked | src/auth/auth.service.ts:81-94 | an unspent token is exchanged if and only if it is in the table, unexpired, and no row of its family is revoked |
| RevocationSafety.UnspentTokenRevokesNothing | src/auth/auth.service.ts:115-119 | an unspent token that is not exchanged, such as an expired one, leaves the table and the denylist as they were and requests no write |
| RevocationSafety.OneUnspentTokenPerFamily | src/auth/auth.service.ts:81-113 | a family has at most one row with `used_at` unset |
| RevocationSafety.TokenIsExchangedAtMostOnce | src/auth/auth.service.ts:81-113 | over any run each refresh token is exchanged at most once |
| RevocationSafety.RowsAreOnePlusRotations | src/auth/auth.service.ts:68-113 | the rows ever inserted in a family are one plus its rotations |
| RevocationSafety.LoneRefreshIsARun | src/auth/auth.service.ts:78-149 | what `AuthService.Refresh` promises is what the state machine does when nobody interferes |
| RevocationSafety.LoneLogoutIsARun | src/auth/auth.service.ts:151-161 | the same for `AuthService.Logout`, after which the family is revoked and settled |
| Checkout.Store.ValidateLines | src/services/checkout.service.ts:48-60 | refuses an empty list and any quantity that is not a positive integer, otherwise sorts a copy by `Number(productId)` |
| Checkout.Store.TakeStock | src/services/checkout.service.ts:73-97 | the loop over the lines computes the sequential stock updates and stops at the first line that cannot be served |
| Checkout.Store.SumUp | src/services/checkout.service.ts:99 | the total is the sum of quantity times unit price |
| Checkout.Store.Charge | src/services/checkout.service.ts:101-157 | charges and writes order, items, job and outbox row together, or changes nothing and says why, a clash on either unique index included |
| Checkout.Store.Checkout | src/services/checkout.service.ts:62-162 | the whole transaction on lines as they arrive: its result, and the database it leaves |
| Checkout.Store.ChangeStatus | src/services/order-status.service.ts:37-43 | the UPDATE changes exactly the order with the id, and only along an allowed transition |
| Checkout.Store.FindStatus | src/services/order-status.service.ts:53-56 | finds the status of the order with the id, or that there is none |
| OrderStatus.OrderStatusService.Change | src/services/order-status.service.ts:36-66 | changes and publishes together, or does neither and says whether the order is missing, in the wrong status, or its id out of range |
| OrderStatus.ChangeReachesStreamsOfItsSpelling | src/controllers/orders.controller.ts:180-224 | a change is written to exactly the open streams that were opened under the same spelling of the id |
| OrderStatus.ChangeReachesStreamsIffPathIsCanonical | src/services/order-status.service.ts:46 | streams opened under the order's own id hear of a change if and only if its path id is canonical |
| Ledger.TakeIsExact | src/services/checkout.service.ts:73-97 | the line-by-line updates go through exactly when the stock covers the total demand per product, and take exactly that demand |
| Ledger.CheckoutIsExact | src/services/checkout.service.ts:62-162 | a checkout is placed exactly when lines, stock, balance and the unique indexes over key and creation time allow it, whatever the order of its lines; it records demand and cost, and otherwise nothing changes |
| Ledger.RefusalIsTruthful | src/services/checkout.service.ts:84-116 | the reason given for a refusal is the case |
| Ledger.NothingIsLost | src/services/checkout.service.ts:70-162 | over any run of checkouts and status changes, stock plus quantities ordered and balance plus order totals stay what they were, and nothing goes negative |
| Ledger.StatusChangeIsExact | src/services/order-status.service.ts:22-43 | a status change gives the order with the id the status asked for, if the transition is allowed, and touches nothing else |
| Ledger.OrdersStay | src/services/order-status.service.ts:22-43 | over any run an order keeps everything but its status, and one that is cancelled stays cancelled |
| CheckoutSerial.StepKeepsInv | src/services/checkout.service.ts:70-162 | every statement, commit and rollback keeps each transaction in step with the committed rows |
| CheckoutSerial.InterleavingsAreSerial | src/services/checkout.service.ts:70-162 | every interleaving of the guarded UPDATEs under row locks, with any rollbacks, leaves the database that the committed checkouts leave one after the other |
| CheckoutSerial.CommittedAsOnItsOwn | src/services/checkout.service.ts:99-161 | a checkout that commits has the result and effect it would have on its own at that moment |
| CheckoutSerial.RefusedAsOnItsOwn | src/services/checkout.service.ts:84-116 | a checkout that is refused would be refused for the same reason on its own at that moment |
| CheckoutProgress.NeverStuckIffKeysTellApart | src/services/checkout.service.ts:59-142 | with stock, balances, refusals and rollbacks in the picture, too, some checkout under way can always run its next statement, commit or be refused, if and only if the sort key tells apart the ids that fit the column |
| CheckoutProgress.AllCheckoutsCanEnd | src/services/checkout.service.ts:70-162 | then from every reachable state all checkouts under way have a run, without a forced rollback, in which each commits or is refused |
| CheckoutProgress.ConfusedProductsGetStuck | src/services/checkout.service.ts:59 | two such ids in two checkouts lead to a reachable state in which neither can go on |
| CheckoutLocks.StepKeepsInv | src/services/checkout.service.ts:73-107 | each lock is held by one checkout, and its lines are sorted |
| CheckoutLocks.NoWaitingCycle | src/services/checkout.service.ts:73-107 | the waits-for graph has no cycle when the sort key tells the products apart |
| CheckoutLocks.NoDeadlockIffKeysTellApart | src/services/checkout.service.ts:59 | some unfinished checkout can always go on, if and only if the sort key tells apart the ids that fit the column |
| CheckoutLocks.ExactIdsNeverDeadlock | src/services/checkout.service.ts:59 | ids up to 2^53 are safe, duplicate lines included; with the next id they are not |
| CheckoutLocks.ConfusedProductsDeadlock | src/services/checkout.service.ts:59 | two ids that fit the column and have the same sort key lead to a reachable deadlock |
| LineTexts.NormalizedTextDecidesSameLines | src/services/place-order.service.ts:32-41 | normalized texts are equal if and only if the lists are equal as multisets of lines |
| LineTexts.RetryMatchesIffIdsAreCanonical | src/services/place-order.service.ts:39-41 | a retry with the same lines in any order matches the stored order if and only if its ids are canonical |
| LineTexts.PaddedRequestDoesNotMatch | src/services/place-order.service.ts:39-41 | the order for `007` of a concrete shop is placed, and the same request does not match it |
| PlaceOrder.PaddedRetryIsRefused | src/services/place-order.service.ts:81-97 | under any key but the empty one that order is placed, and its identical retry is answered as a reuse of the key by another request |
| PlaceOrder.RetryIsReplayedIffSameLines | src/services/place-order.service.ts:81-97 | however many orders and status changes follow, a request under the key of a placed checkout gets that checkout's order if it has its lines, in any order but with canonical ids, and is refused otherwise |
| PlaceOrder.IndexesAdmitIffNeitherIsTaken | src/entities/order.entity.ts:18-22 | the unique indexes admit one more order if and only if no order of the same user has its key or its creation time |
| PlaceOrder.PlaceOrderService.Place | src/services/place-order.service.ts:50-97 | a known key replays or is refused and changes nothing; an unknown key checks out, and the order stays even if reading it back fails |
| PlaceOrder.LonePlaceIsARun | src/services/place-order.service.ts:50-97 | what `PlaceOrderService.Place` promises is what the requests' state machine does when nobody interferes |
| PlaceOrder.StepKeepsInv | src/services/place-order.service.ts:50-97 | every step of concurrent requests keeps the index, the books and what each request knows |
| PlaceOrder.OneOrderPerKey | src/entities/order.entity.ts:22 | for a user and key at most one order exists in every reachable state |
| PlaceOrder.ChargedForTheOrdersThereAre | src/services/checkout.service.ts:118-125 | stock and balances have been charged for exactly the orders that exist |
| PlaceOrder.SuccessesReturnOneOrder | src/services/place-order.service.ts:50-97 | all requests that succeed under a key return the same order |
| PlaceOrder.AtMostOneIsNotAReplay | src/services/place-order.service.ts:65 | at most one request under a key gets `replay: false` |
| PlaceOrder.ConflictFindsTheWinner | src/services/place-order.service.ts:66-79 | the second lookup after a conflict finds the winner if and only if the key is not empty |
| PlaceOrder.EmptyKeyLosesTheWinner | src/services/place-order.service.ts:66-84 | a reachable request under the empty key meets the conflict and finds no winner |
| CanonicalJson.StringReadsBack | src/services/idempotency.service.ts:22-26 | a string can be read back from its JSON spelling, whatever quotes, backslashes and delimiters it holds |
| CanonicalJson.CanonicalTextDecidesSameness | src/services/idempotency.service.ts:12-27 | two JSON values have the same canonical text if and only if they are equal with objects read as maps, at any depth |
| Idempotency.IdempotencyRecords.Save | src/services/idempotency.service.ts:43-54 | stores fingerprint, response and status under the key |
| Idempotency.IdempotencyRecords.Handle | src/services/idempotency.service.ts:62-99 | replays, refuses or creates; asks for creation only under an unknown key, and records nothing if creation throws |
| Idempotency.LaterRequestsReplay | src/services/idempotency.service.ts:62-99 | after a creation every later request with the key gets the same response if its body is the same JSON value, else a refusal |
| Idempotency.FirstSuccessCreates | src/services/idempotency.service.ts:62-99 | a request creates, and is answered 201 with what was created, if and only if its creation succeeds and none under its key has succeeded before |
| OrderPlaced.AnnouncementsParse | src/messaging/order-placed.consumer.ts:50-79 | what checkout writes passes `parseMessage` and yields the same order id and total, in whatever order its keys come back from the jsonb column |
| OrderPlaced.EventStatesTheOrder | src/messaging/order-placed.event.ts:26-40 | order, user, total, time and every item's product, quantity and unit price can be read back from the event under their names, whatever the order of its keys |
| OrderPlaced.MessageIsReadIffItStatesAnEvent | src/messaging/order-placed.consumer.ts:50-79 | a message is poison unless its id is a uuid and its body is an `order.placed` event with a string event id, an order id of digits and a total that is no negative number; otherwise it is read as these |
| OrderPlaced.ReorderedObjectIsSame | src/entities/outbox.entity.ts:19-20 | another order of an object's keys is the same value |
| OrderPlaced.AnnouncedEventIsValid | src/messaging/order-placed.event.ts:26-40 | the event has each key once at every level, and is itself one of the values that may be sent |
| OrderPlaced.EventIdTellsOrdersApart | src/messaging/order-placed.event.ts:24 | different orders have different event ids |
| OrderPlacedPublisher.Publisher.Open | src/messaging/order-placed.publisher.ts:26-36 | opens the channel and keeps what is remembered |
| OrderPlacedPublisher.Publisher.Publish | src/messaging/order-placed.publisher.ts:38-62 | success, unroutable or another error, and what the publisher remembers afterwards; nothing is sent without a channel |
| OrderPlacedPublisher.LeftBehindIffUnconfirmedBounce | src/messaging/order-placed.publisher.ts:31-33 | an id is remembered if and only if a publish of it bounced unconfirmed and none was confirmed since |
| OrderPlacedPublisher.MisreportedIffLeftBehind | src/messaging/order-placed.publisher.ts:57-61 | a sent message is reported as unroutable if and only if its id had been left behind |
| OutboxRelay.Outbox.RelayBatch | src/messaging/outbox-relay.ts:25-86 | publishing through the given publisher, each try takes the first eligible row that no other transaction holds at that moment and this batch has not tried; the batch ends at its limit, when nothing is left, or with an exception that leaves earlier rows written; the result is the number of rows that became published |
| OutboxRelay.Outbox.TryNext | src/messaging/outbox-relay.ts:35-74 | one transaction: selection, publish before mark, and what each outcome writes |
| OutboxRelay.EachRowOnce | src/messaging/outbox-relay.ts:34-74 | every tried row meets its fate once, no other row changes |
| OutboxRelay.EachTryIsTheOldest | src/messaging/outbox-relay.ts:36-46 | at each try no open row that is free and untried was created earlier, or at the same time with a smaller id |
| OutboxRelay.LoneBatchTriesTheOldest | src/messaging/outbox-relay.ts:34-46 | a lone batch goes through the rows by creation time and id, and what its limit leaves out is no older than anything it tried |
| OutboxRelay.TriedIsOpen | src/messaging/outbox-relay.ts:39-41 | only unpublished rows with fewer than ten attempts are tried, none that others hold, and none twice |
| OutboxRelay.CountIsExact | src/messaging/outbox-relay.ts:80-85 | the count returned is the number of newly published rows |
| OutboxRelay.LoneBatchSize | src/messaging/outbox-relay.ts:34-83 | a lone batch tries all eligible rows up to its limit |
| OutboxRelay.LoneBatchTriesEveryRow | src/messaging/outbox-relay.ts:34-86 | a lone batch whose limit covers all eligible rows gives each exactly one attempt and publishes all but the returned ones |
| OutboxRelay.Outbox.CleanupOutbox | src/messaging/outbox-cleanup.ts:8-33 | the batch loop ends and removes exactly the rows published longer ago than the retention |
| OutboxRelay.CleanupSparesIffRecent | src/messaging/outbox-cleanup.ts:4-24 | the cleanup spares a row if and only if it is unpublished or was published within the last seven days |
| RelayProcess.Relay | src/relay.ts:12-60 | opens one publisher and relays round after round; it goes on exactly as long as every publish is confirmed, and every message the broker accepted is marked or was cleaned up after it, every confirmed publish an attempt of its row |
| RelayRuns.LoneBatchIsARun | src/messaging/outbox-relay.ts:25-86 | what `Outbox.RelayBatch` promises of rows, copies and the publisher's memory is what the pipeline does when the other relays do nothing, whatever they hold |
| ConsumerRuns.LoneDeliveryIsARun | src/messaging/order-placed.consumer.ts:125-163 | what `Consumer.Handle` promises of an announced event is what the pipeline does when nobody interferes, up to the broker's queue |
| ConsumerRuns.LoneEventEndsInReceiptOrQueue | src/messaging/order-placed.consumer.ts:139-163 | an announced event whose transaction goes through leaves the queue with its receipt written; if the database fails it is queued again, or dead-lettered once its deliveries are used up |
| ConsumerRuns.LoneForeignIsARun | src/messaging/order-placed.consumer.ts:128-137 | a message that `parseMessage` refuses leaves the queue and is one more dead letter, and nothing else has changed |
| OrderPlacedConsumer.Consumer.ApplyOrderPlaced | src/messaging/order-placed.consumer.ts:81-107 | mark and receipt are written together or not at all; the result says which |
| OrderPlacedConsumer.Consumer.Handle | src/messaging/order-placed.consumer.ts:125-163 | rejects poison for good, leaving the inbox alone, requeues failures and throwing callbacks, acknowledges the rest, and counts each; which of these, and what is written, is stated on the tables |
| OrderPlacedConsumer.CountersAddUp | src/messaging/order-placed.consumer.ts:109-163 | over any deliveries: delivered = acked + rejected + requeued, and effects are the receipts that were added |
| OrderPlacedConsumer.RefusedIffTableCannotHoldIt | src/entities/receipt.entity.ts:13-37 | the INSERT of a receipt for a new order is refused if and only if the table, with its columns, its foreign key and its unique event ids, could not hold it |
| OrderPlacedConsumer.HandlingKeepsConstraints | src/messaging/order-placed.consumer.ts:81-107 | so these constraints hold after every delivery |
| OrderPlacedConsumer.StoredIdsAgreeIffSameButForCase | src/messaging/order-placed.consumer.ts:85-91 | two message ids are one to the inbox if and only if they differ in the case of letters only |
| RelayBooks.PublishKeepsRelays | src/messaging/outbox-relay.ts:52-64 | a publish, confirmed, returned or broken, keeps the books of copies, attempts and locks of every row |
| RelayBooks.EndKeepsRelays | src/messaging/outbox-relay.ts:59-73 | so does marking the row, counting a return and rolling back |
| OrderPipeline.StepKeepsInv | src/messaging/outbox-relay.ts:34-74 | every step of checkout, relay, broker, consumer and cleanup keeps the invariant |
| OrderPipeline.NoEventIsLost | src/messaging/outbox-relay.ts:34-74 | every committed order has an unpublished outbox row, a queued, unacknowledged or dead-lettered message, or a receipt |
| OrderPipeline.EffectHappensOnce | src/messaging/order-placed.consumer.ts:81-107 | `applied` is returned at most once per order, and exactly for the orders with a receipt |
| OrderPipeline.HandledEventsHaveReceipts | src/messaging/order-placed.consumer.ts:81-107 | handling an event fails only with the database; `duplicate` and `already-applied` imply that the receipt exists |
| OrderPipeline.ReceiptStatesTheTotal | src/messaging/order-placed.consumer.ts:97-103 | a receipt's total is the order's total and the sum of quantity times unit price over its items |
| OrderPipeline.SettledPipelineHasAllReceipts | src/messaging/order-placed.consumer.ts:81-163 | when nothing is pending, under way or dead-lettered, the receipts are exactly the orders |
| OrderPipeline.RelayAccounting | src/messaging/outbox-relay.ts:34-74 | copies sent = 1 if published + lost with their transaction + misreported as unroutable + 1 if about to be one of these; attempts = 1 if published + returns, never above 10; copies are misreported only after an unconfirmed bounce; only published rows are ever removed. The third term vanishes for the relay process, see `StoppingRelaysKeepPlainBooks` |
| OrderPipeline.CopyMayBeMisreported | src/messaging/order-placed.publisher.ts:57-61 | in a host that lets a process go on after an exception of `relayBatch`: wherever it may try a row, a run leads to more copies than were marked or lost |
| RelayLogs.EveryRunHasALog | src/messaging/outbox-relay.ts:34-74 | every run can be observed: the publishes of each process since its start, and the rows of which it counted a return after it had gone on |
| RelayLogs.PlainBooksFailIffAProcessWentOn | src/messaging/outbox-relay.ts:50-64 | copies sent = 1 if published + lost with their transaction + 1 if about to be, if and only if no process published the row again after an unconfirmed bounce, without a restart, and counted a return although the message went through |
| RelayLogs.StoppingRelaysKeepPlainBooks | src/relay.ts:41-60 | relay processes that end at their first publish error keep that equation for every row, in every run |
| PipelineProgress.ReceiptIsReachableIffHopeful | src/messaging/outbox-relay.ts:34-74 | from every reachable state an order can get its receipt by a run in which nobody dies, gives up or fails, if and only if it has it, a row of it has tries left, or a message about it is queued or unanswered |
| PipelineProgress.OneRunGivesAllReceipts | src/messaging/order-placed.consumer.ts:81-163 | one such run gives all these orders their receipts |
| PipelineProgress.AllOrdersCanGetReceipts | src/messaging/outbox-relay.ts:34-74 | so all orders can get theirs in one run, if no event has been dead-lettered and every unpublished row has tries left |
| FirstSale.RowsComeToBeTried | src/services/checkout.service.ts:144-157 | a concrete shop reaches a state in which a relay may try a row |
| OrderPipeline.RelaysWorkOnDifferentRows | src/messaging/outbox-relay.ts:42-44 | two relays never hold the same row |
| OrderPipeline.AnnouncedEventsParse | src/services/checkout.service.ts:144-157 | every event that can be in the outbox passes `parseMessage`, reordered or not |
| OrderPipeline.SentEventStatesTheCheckout | src/services/checkout.service.ts:144-157 | whatever a relay ever sends of a checkout states its user and its cost, and items that hold what its lines asked for, product by product, at the prices of that moment |
| OrderEvents.OrderEvents.Publish | src/services/order-events.service.ts:24-53 | keeps the buffers equal to their definition over the whole history, and returns and emits the event with the next id |
| OrderEvents.OrderEvents.Reinsert | src/services/order-events.service.ts:39-48 | the order's buffer moves to the end of the map, and the first one goes if there are more than 1000 |
| OrderEvents.OrderEvents.MissedSince | src/services/order-events.service.ts:63-67 | returns the buffered events with a higher id |
| OrderEvents.KeptIffRecentlyPublished | src/services/order-events.service.ts:39-48 | an order has a buffer if and only if it published and fewer than 1000 other orders have published since |
| OrderEvents.KeysAreInOrderOfPublication | src/services/order-events.service.ts:39-40 | the keys stand in the order of their latest publication |
| OrderEvents.CurrentIsSinceCreation | src/services/order-events.service.ts:25-40 | numbering counts the order's publications since its buffer was created |
| OrderEvents.BufferEndsWithLatest | src/services/order-events.service.ts:33-37 | a buffer is the last min(100, n) events with consecutive ids ending at n |
| OrderEvents.NewerAreTheLast | src/services/order-events.service.ts:63-67 | what a client has missed is the end of the buffer: exactly its events with a higher id, in their order |
| OrderStreams.EventStream.constructor | src/controllers/orders.controller.ts:213-219 | a new stream starts with what the client missed |
| OrderStreams.EventStream.Receive | src/controllers/orders.controller.ts:221-230 | an event of the order is written if the session is still valid, otherwise the stream ends |
| OrderStreams.StreamSendsEachEventOnce | src/controllers/orders.controller.ts:213-236 | while the order is not evicted, a stream sends its events from the first not skipped, without gap or duplicate, up to the first failing check |
| OrderStreams.StreamEndsAtFirstFailingCheck | src/controllers/orders.controller.ts:221-230 | after the first failing check before an event of the order the stream is closed for good, and has sent exactly the events before that one, from the first not skipped |
| OrderStreams.PassingChecksKeepStreamOpen | src/controllers/orders.controller.ts:221-230 | as long as these checks pass the stream is open and has sent all that is not skipped |
| OrderStreams.CanonicalHeaderIsRead | src/controllers/orders.controller.ts:90-92 | the spelling of a number up to 2^53 in the header is read as that number |
| OrderStreams.ReplayFollowsHeader | src/controllers/orders.controller.ts:213-219 | and the replay begins with the event after it, if the buffer reaches back to it |
| OrderStreams.OtherHeadersReplayNothing | src/controllers/orders.controller.ts:90-92 | without a header, or with one that is not all digits, nothing is replayed |
| OrderStreams.StreamContinuesClient | src/controllers/orders.controller.ts:90-92 | ids sent are consecutive, and continue the client's last id if and only if it is at most n and at least n - 100 |
| RateLimiter.RateLimiter.SlidingWindow | src/services/rate-limiter.service.ts:17-36 | admits below ten hits of the last window and otherwise answers when the oldest leaves it; the stored set stays the admitted hits of the last window at every later time, expiry included |
| RateLimiter.RateLimiter.Hit | src/services/rate-limiter.service.ts:42-61 | answers the script's decision in whole seconds, and refuses with 1 when Redis does not answer |
| RateLimiter.AtMostTenInAnyWindow | src/services/rate-limiter.service.ts:17-36 | any half-open interval of 10 000 ms has at most ten admitted hits of a client |
| RateLimiter.AdmittedIffFewerThanTen | src/services/rate-limiter.service.ts:25-31 | a hit is admitted if and only if fewer than ten of the client's hits were admitted in the 10 000 ms up to it |
| RateLimiter.AtMostTenStored | src/services/rate-limiter.service.ts:25-31 | the stored set never exceeds ten members |
| RateLimiter.RefusedUntilRetry | src/services/rate-limiter.service.ts:33-35 | after a refusal every hit of the client before the announced instant is refused |
| RateLimiter.NextHitIsAdmittedAfterRetry | src/services/rate-limiter.service.ts:33-35 | the client's next hit is admitted if and only if it comes at or after that instant |
| RateLimiter.RetryAfterSecondsAreEnough | src/services/rate-limiter.service.ts:53-56 | the seconds lie in 1..10, never fall short of the wait and exceed it by less than one second |
| JobWorker.JobQueue.ProcessNextJob | src/services/job-worker.service.ts:31-94 | tries the first pending job of the queue and writes its outcome, error, worker and time; no pending job, no change |
| JobWorker.JobQueue.CountPendingJobs | src/services/job-worker.service.ts:96-106 | counts the pending jobs of the queue |
| JobWorker.JobQueue.RunWorker | src/services/job-worker.service.ts:108-141 | a lone worker returns, with every job of its queue where trying it to the end takes it, other queues untouched, and exact statistics |
| JobWorker.SettledJobIsDoneOrFailed | src/services/job-worker.service.ts:56-92 | such a job is done at the first attempt that does not throw, or failed at the limit, with its last error, its worker and the time of its success |
| JobWorkers.StepKeepsInv | src/services/job-worker.service.ts:117-140 | every step of any number of workers keeps the invariant, and exactly the outcomes lower the chances left |
| JobWorkers.JobsAreDoneAtMostOnce | src/services/job-worker.service.ts:56-92 | each job is done at most once, and a pending job has attempts left |
| JobWorkers.ClaimTakesTheFirst | src/services/job-worker.service.ts:36-48 | a worker takes the pending job of its queue with the lowest id that nobody else is trying |
| JobWorkers.WorkersTryDifferentJobs | src/services/job-worker.service.ts:40-48 | no two workers try the same job at once |
| JobWorkers.OutcomesAreBounded | src/services/job-worker.service.ts:61-70 | a run has no more outcomes than the sum of the attempts left at its start |
| JobWorkers.ReturnedWorkerLeavesNothing | src/services/job-worker.service.ts:135-137 | once a worker has returned, every job of its queue is done or failed, then and ever after |
| JobWorkers.StatisticsAreExact | src/services/job-worker.service.ts:117-133 | the workers' statistics sum to the jobs done and failed, and with the retries to the attempts made |
| JobWorkers.LoneWorkerIsARun | src/services/job-worker.service.ts:108-141 | what `JobQueue.RunWorker` promises, of jobs and statistics, is what the workers' state machine does while nobody else tries a job |
| JobWorkers.EveryLiveWorkerCanReturn | src/services/job-worker.service.ts:117-140 | from every reachable state, whatever the handlers answer, the workers that are there have a run, in which none dies, to the return of any given live one |

## Left out

- CanonicalJson.CanonicalTextDecidesSameness: numbers are integers and values are what JSON can express, so fractions, -0 and `undefined` are not covered; neither are integers from 10^21 on, which JavaScript spells with an exponent.
- Idempotency.LaterRequestsReplay: requests come one after the other, because `handleIdempotency` takes no lock and promises nothing for concurrent first calls.
- LineTexts.NormalizedTextDecidesSameLines: product ids are numerals and quantities integers, as the request validation leaves them; other texts are not covered.
- OrderEvents.OrderEvents.Publish: the buffers are sequences reassigned in the map rather than arrays changed in place; nothing else holds a reference to them.
- OrderStreams.StreamSendsEachEventOnce: numbering that restarts after an eviction is excluded by its premise, and the client's or the token expiry's closing of the stream, which only cuts it short, is not an action.
- OrderPipeline.NoEventIsLost: a delivery may be dead-lettered at any time instead of after exactly three attempts, and only the arrival at the dead letter queue is claimed, not its processing.
- OrderPipeline.StepKeepsInv: a relay process may select any eligible unlocked row, not only the oldest, and any number of them; `OutboxRelay` has the order and the limit of a batch.
- CheckoutSerial.StepKeepsInv: a statement happens at once, and prices do not change while checkouts run.
- JobWorkers.ReturnedWorkerLeavesNothing: no jobs are added while the workers run, and all workers share one limit on attempts.
- JobWorkers.StatisticsAreExact: an outcome and its count are one step, so a worker that dies between the two keeps the count in the books.
- JobWorker.JobQueue.RunWorker: what a handler does is one answer per job and attempt, an error or none, and the time of the transaction.
- OrderStreams.EventStream.constructor: that the order exists and belongs to the client is checked before; numerals beyond the largest double are read as large numbers rather than as Infinity, which replays nothing either way.
- RateLimiter.RateLimiter.Hit: a Redis clock that goes back is not modelled.
- OutboxRelay.Outbox.CleanupOutbox: all batches of one run see the same instant; the batch size is at least 1, because the loop does not end otherwise (`LoopEndsIffBatchesArePositive`).
- RelayProcess.Relay: rows that checkouts add and other relays change between its rounds, and failures of the database or of a cleanup, which also end the process; `OrderPipeline` has both.
- PipelineProgress.ReceiptIsReachableIffHopeful: that a run exists, not that the scheduler takes it; a bounced publish or a failing database only delays it.
- OutboxRelay.Outbox.RelayBatch: other transactions hold rows while the batch runs, but what they write to those rows is not part of its result; `OrderPipeline` has several relays writing.
- AuthMaintenance.CleanupExpiredRefreshTokens: all batches of one run see the same instant; the batch size is at least 1, because the loop does not end otherwise (`LoopEndsIffBatchesArePositive`).
- Checkout.Store.Checkout: ids of more than 308 digits, which JavaScript sorts as Infinity, are sorted by value before the database refuses them.
- Password hashing, token encoding and signatures: who the password belongs to and what a signature says are parameters.
- Ambiguous commits, several app processes sharing one denylist, and lookups that span a reconnect.
- The publisher's channel, prefetch and acknowledgement delays, timers and intervals: only the steps they trigger are actions.
- Product cards and their refresh, the Redis lock and the queue of refresh jobs: they may be stale by design.
- Session cookies, retries of transactions, guards, filters, request validation, migrations, configuration and demos: easy or plumbing.
