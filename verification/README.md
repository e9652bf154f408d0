# Verified model of GoOdin's event protocol and runtime

This project models, in Dafny 4.11, the parts of GoOdin where correctness depends on more than one
function, and proves properties of every input, every run and every interleaving of them.

**Loyalty events.** An `orders.order.completed` event is delivered at least once. Its handler turns
the order into points and dispatches a credit command; the command checks an idempotency key, loads
or creates the customer's aggregate, credits it, saves it, publishes to the SQL outbox and marks
the key. A failed command is answered with a compensation event. The fulfilment saga joins credits
and stock reservations per correlation id and announces orders that are ready.

- `ValueObjects`, `LoyaltyAggregates`, `LoyaltyStores`, `EventBuses`, `CreditHandlers`,
  `OrderHandlers` and `Sagas` hold the code itself: classes whose methods are proved against
  specification functions (`Apply`, `Upsert`, `Handled`, `Delivered`, ...).
- `LoyaltyHistories` takes aggregate and table through whole histories against a book of exact
  balances. `Transactions` runs the handlers as database transactions that interleave step by step;
  `OrderFlow` adds deliveries, redeliveries, compensations and crashes; `SagaFlow` interleaves saga
  deliveries, `SagaRaces` is about those of one correlation that overlap; `Protocol` composes all of
  them over one log. `SerialReplay` is about serial runs, `BalanceQuery` about the cached read side.

**Master and workers.** `WorkerChannel` is the handshake and the newline framing byte by byte,
`Workers` the worker's loop, `Registries` the clients, the broadcast and the health round, and
`WorkerLifecycle` whole runs of the master.

**Smaller cores.** `LogData`, `LogHandlers`, `LogBatching` and `Stacks` (structured logging),
`Pagination`, and `Hooks`. `Results`, `GoInt`, `Decimal` and `Events` are shared vocabulary.

`dafny verify dfyconfig.toml` checks everything.

## Assumptions

- Atomic commit or abort around the credit command is the contract documented at
  `use_cases/loyalty/command/credit_loyalty_handler.go:31-39`; no caller in the repository opens that
  transaction. `Transactions`, `OrderFlow`, `Protocol` and `SerialReplay` assume it.
  `TransactionNeededIff` says exactly when it is needed and `WithoutTransactionCreditsTwice` what
  happens without it.
- A transaction reads committed data at each of its steps (read committed); nothing is serialised
  unless a lemma says so, as a condition on the schedule (`SerialisedFor`, `Serial`).
- The SQL publisher is installed before the handlers run (a precondition of the handlers; nothing in
  the repository calls `SetSQLBackend`). Generated ids (ULIDs) are new and not empty. Faults, ids,
  times and the file descriptor are parameters, so every lemma holds for all choices of them.
- Totals are real numbers, so rounding inside `total * 0.10` is not modelled. Converting a total that
  does not fit Go's `int` yields an arbitrary `int`, passed as `converted`.
- `RoundsToNearest` is what the pagination proof uses of IEEE 754-2019 (section 4.3.1): integers up
  to 2^53 are exact, other results between 2^-53 and 2^53 are off by at most half a unit in the
  last place.

## Where the code falls short of the obvious property

Where the property holds under a condition, the lemma is an equivalence with that condition, and a
run from the initial state shows that the other case occurs.

- `Save` writes an absolute balance: a commit keeps the ledger of balances if and only if the row it
  loaded is still current (`CommitKeepsLedgerIff`, `PointsAreLost`).
- A replayed event is documented as an idempotent skip, but the order handler treats
  `ErrDuplicateEvent` like any error and publishes a compensation (`ReplayCompensates`).
- A delivery that crashes after its commit and before its acknowledgement leaves a credited event
  that is then acknowledged as compensated (`CreditedYetCompensatedIff`, `CreditedThenCompensated`).
- A serial run credits all its events if and only if each customer's events fit the 32-bit
  `balance` column (`AllCreditedIff`). Which events are credited does not depend on their order if
  and only if those that fit on their own fit together (`OrderIrrelevantIff`).
- Table and aggregate keep exact books if and only if no balance in memory passes the largest `int`
  (`HistoryAgreesIff`); beyond that the balance wraps around.
- Cached balances are at most five minutes old if and only if no time passes between reading the row
  and storing it, since the lifetime starts at the store (`NeverStaleIffStoredAtOnce`); without a
  cache answers are current under the same condition (`AlwaysCurrentIffAnsweredAtOnce`).
- The worker's lines are the frames sent if and only if its handshake read took all of `PROCEED`,
  which has no delimiter, and no frame was sent after a torn one (`LinesMatchIffProceedConsumed`,
  `ShortReadSpoilsLine`, `TornFrameSpoilsNext`).
- A disconnected worker can still be sent a broadcast that looked at its status before
  (`LateBroadcastIff`, `BroadcastArrivesLate`).
- The padding entry that `withGroupAttrs` adds is harmless unless the record has no attributes and
  the chain ends in two groups (`PaddingHarmlessIff`).
- When deliveries of one correlation overlap, the saga may miss a join (`JoinHappensIff`,
  `JoinCompletesIff`), announce it more than once (`CompletesAgainIff`, `JoinIsAnnouncedTwice`) or
  undo its completion (`RevertsIff`, `CompletionIsUndone`): a delivery reads the state once and saves
  it whole. Handled one at a time, a correlation is announced at most once, and not at all if
  publishing fails after the completing save (`ReadyEventsAreConserved` counts the lost ones).
- A key repeated within one `WithAttrs` call keeps its first value (`OneCallIff`, `FirstRepeatWins`).
- The master's registration loop ends for good at the first worker whose start fails
  (`RegisterWorkers`, `FailedStartEndsRegistration`).

## Model

| member | source | states |
|---|---|---|
| `Transactions.EveryEventCreditedAtMostOnce` | use_cases/loyalty/command/credit_loyalty_handler.go:77-137 | In every interleaving, for every non-empty event id: key marked means exactly one committed credit and exactly one credited envelope, unmarked means none, even if several transactions passed the key check first |
| `Transactions.StepKeepsExactlyOnce` | repositories/loyalty_idempotency_repository.go:24-41 | Every single step of any transaction keeps that equivalence; the unique key makes the losers abort |
| `Transactions.TablesStayWellKept` | migrations/000005_create_event_support_tables.up.sql:27-34 | In every run, serialised or not, one row per customer, balances in 0..2^31-1 despite 64-bit additions, tier equal to the tier of the balance |
| `Transactions.CommitSaves` | use_cases/loyalty/command/credit_loyalty_handler.go:99-111 | A commit stores the loaded balance plus the points with its tier, and touches no other customer |
| `Transactions.CommitKeepsLedgerIff` | repositories/loyalty_write_repository.go:27-44 | A commit keeps the outbox a ledger of the balances if and only if the row it loaded is still current |
| `Transactions.OutboxIsLedger` | use_cases/loyalty/command/credit_loyalty_handler.go:99-130 | In every run whose schedule lets a customer's transaction load only while no other one of that customer works on the row, the customer's envelopes chain from zero, the row equals the last one, and the balance is the sum of points earned, whatever other customers' transactions do |
| `Transactions.TierIsEarned` | use_cases/loyalty/domain/value_object/tier.go:20-29 | Under such a schedule the stored tier is Gold exactly from 2000 points earned, Silver from 500, Bronze below |
| `Transactions.TierNeverFalls` | use_cases/loyalty/domain/value_object/tier.go:20-29 | Under such a schedule no run lowers a customer's tier |
| `Transactions.StepKeepsExclusive` | repositories/loyalty_write_repository.go:46-71 | Under such a schedule every step keeps: at most one transaction works on the customer's row, and what it loaded is still the row |
| `Transactions.StaleCommitLosesPoints` | repositories/loyalty_write_repository.go:27-44 | Two transactions that loaded the same row can both commit, and the first one's points are lost while both envelopes are published |
| `Transactions.PointsAreLost` | repositories/loyalty_write_repository.go:27-44 | It happens: a run from the empty database in which three credits of a customer commit and the points of the second are lost |
| `Transactions.AloneIsInTransaction` | use_cases/loyalty/command/credit_loyalty_handler.go:63-144 | Run alone, the four machine steps succeed exactly when the handler does and leave the same database |
| `Transactions.InitialState` | migrations/000005_create_event_support_tables.up.sql:4-34 | The empty database satisfies the invariants the run theorems start from |
| `Transactions.StepKeepsCreditsCommitted` | use_cases/loyalty/command/credit_loyalty_handler.go:113-130 | Every credited envelope belongs to a committed command with the same correlation and causation |
| `SerialReplay.OrderIrrelevantIff` | use_cases/loyalty/command/credit_loyalty_handler.go:63-144 | All serial runs over a set of events end with the same keys, balances and tiers, in any order and with any redeliveries, if and only if each customer's events that fit the balance column on their own also fit it together |
| `SerialReplay.SameEventsSameState` | use_cases/loyalty/command/credit_loyalty_handler.go:63-144 | Under that condition exactly the individually fitting events are credited, and each balance is what they are worth |
| `SerialReplay.AllCreditedIff` | use_cases/loyalty/command/credit_loyalty_handler.go:63-144 | A serial run credits every event if and only if each customer's events together fit the balance column |
| `SerialReplay.ReplaySettles` | use_cases/loyalty/event/on_order_completed_handler.go:61-123 | After any serial run each balance is exactly what the events with marked keys are worth |
| `SerialReplay.OrderMattersBeyondColumn` | migrations/000005_create_event_support_tables.up.sql:27-34 | Of two events that fit alone but not together, the first delivered wins in either order |
| `Protocol.ReadyMeansCreditedAndReserved` | use_cases/loyalty/saga/order_fulfillment_saga.go:59-101 | In every run of the whole flow with any faults, a ready event implies a committed, published credit and a published, delivered reservation of the same correlation |
| `Protocol.AtMostOneReadyInLog` | use_cases/loyalty/saga/order_fulfillment_saga.go:59-101 | End to end with any faults, when the saga handles a correlation's deliveries one at a time, the log holds at most one ready event for it, and holds one exactly when the join is completed and its announcement neither lost nor still to come |
| `Protocol.EveryEnvelopeHasRoot` | use_cases/loyalty/command/credit_loyalty_handler.go:114-125 | In every run, causation ids lead strictly backwards through the log to one root event with the same correlation id, and each link is unique |
| `Protocol.StepKeepsLinked` | use_cases/loyalty/event/on_order_completed_handler.go:103-113 | Every step keeps ids distinct and derived envelopes behind their cause with its correlation |
| `OrderFlow.AtMostOneDeliveryCredits` | use_cases/loyalty/event/on_order_completed_handler.go:61-123 | Among all deliveries of one event, however they interleave or crash, a delivery that ends in a credit did commit it, no other one ever commits, and every other one that ends does so with a compensation, published or lost |
| `OrderFlow.CreditedYetCompensatedIff` | use_cases/loyalty/event/on_order_completed_handler.go:88-122 | A credited event that is fully acknowledged is acknowledged only as compensated if and only if the delivery that committed it crashed between its commit and its acknowledgement |
| `OrderFlow.CrashAfterCommitCompensates` | use_cases/loyalty/event/on_order_completed_handler.go:97-122 | From every reachable state in which a credited delivery is not yet acknowledged, a crash and a redelivery end with the event acknowledged as compensated and the points kept |
| `OrderFlow.CreditedThenCompensated` | use_cases/loyalty/event/on_order_completed_handler.go:61-123 | It happens: a run from the start in which an order is credited and then acknowledged only as compensated |
| `OrderFlow.StepKeepsCommitsAccounted` | use_cases/loyalty/event/on_order_completed_handler.go:88-122 | Every step keeps: a delivery that ended in a credit committed, and a delivery that committed ended in a credit or crashed before its acknowledgement |
| `OrderFlow.RunsKeepCompensationsLogged` | use_cases/loyalty/event/on_order_completed_handler.go:97-120 | In every run a delivery that ended with a published compensation has that event in the log, for its order and correlation |
| `OrderFlow.StepExtendsLog` | use_cases/loyalty/event/on_order_completed_handler.go:97-120 | A step appends at most one envelope, new, and an announcement or one caused by a logged order |
| `SagaFlow.ReadyEventsAreConserved` | use_cases/loyalty/saga/order_fulfillment_saga.go:60-98 | With one delivery at a time per correlation and any failed saves, failed publishes, crashes and duplicates: published plus lost plus imminent ready events is 1 if completed and 0 otherwise; completed means both flags; nothing reverts |
| `SagaFlow.SameDeliveriesSameJoins` | use_cases/loyalty/saga/order_fulfillment_saga.go:65-98 | Fault-free runs over the same (correlation, topic) pairs end in the same state with the same ready events, whatever the order, duplication or interleaving of correlations |
| `SagaFlow.HandlerTakesItsSteps` | use_cases/loyalty/saga/order_fulfillment_saga.go:59-101 | One call of the handler, under any faults, has the effect of its path through the machine |
| `SagaFlow.HandlerReports` | use_cases/loyalty/saga/order_fulfillment_saga.go:59-101 | The handler reports success exactly when the lookup and every later call of its path succeeded, and announces exactly on the path that publishes, with the given id, correlation and cause |
| `SagaFlow.StepKeepsFlagsBacked` | use_cases/loyalty/saga/order_fulfillment_saga.go:70-98 | Even overlapping deliveries set flags only from deliveries and publish only with both |
| `SagaRaces.JoinHappensIff` | use_cases/loyalty/saga/order_fulfillment_saga.go:59-101 | Over all fault-free runs, with any number of overlapping deliveries and redeliveries of a correlation, the join was completed if and only if some delivery started when the flags saved then and its own made both, and it was announced as often as it was completed |
| `SagaRaces.CompletesAgainIff` | use_cases/loyalty/saga/order_fulfillment_saga.go:60-98 | At every reachable point at which a join is completed, redeliveries can complete and announce it again if and only if a delivery of the correlation is in progress that has not saved its completion |
| `SagaRaces.RevertsIff` | use_cases/loyalty/saga/order_fulfillment_saga.go:60-98 | At every such point the completion can be undone if and only if a delivery of the correlation is in progress that has not saved its flags |
| `SagaRaces.CompletionsAreAnnounced` | use_cases/loyalty/saga/order_fulfillment_saga.go:82-98 | In every run, with any overlaps and faults, ready events published, lost and about to be published count exactly the completions saved |
| `SagaRaces.JoinIsAnnouncedTwice` | use_cases/loyalty/saga/order_fulfillment_saga.go:60-98 | It happens: a fault-free run from the start that publishes two ready events for one correlation |
| `SagaRaces.CompletionIsUndone` | use_cases/loyalty/saga/order_fulfillment_saga.go:60-98 | It happens: a fault-free run from the start in which a completed state goes back to a single flag |
| `SagaFlow.JoinCompletesIff` | use_cases/loyalty/saga/order_fulfillment_saga.go:59-101 | Over all fault-free interleavings of exactly one credit and one reservation delivery of a correlation, with deliveries of other correlations in between, the join completes and is announced once if and only if one delivery starts after the other saved its flag |
| `SagaFlow.OverlapLosesAFlag` | use_cases/loyalty/saga/order_fulfillment_saga.go:60-80 | A run from the start in which both deliveries load the fresh state and one flag is lost; a redelivery of that event completes the join after all |
| `Sagas.OrderFulfillmentSaga.Handle` | use_cases/loyalty/saga/order_fulfillment_saga.go:59-101 | The handler saves, completes, publishes and fails as `Handled` specifies for every combination of faults |
| `Sagas.SagaRepository.FindOrCreate` | use_cases/loyalty/saga/order_fulfillment_saga.go:28-31 | Finds the state of a correlation or stores a fresh one, and changes no other |
| `CreditHandlers.CreditLoyaltyHandler.Handle` | use_cases/loyalty/command/credit_loyalty_handler.go:63-144 | For every database, command and fault the new rows, keys, outbox and answer are those of `Handled`, which `CreditSucceedsIff` and `WhyRejected` pin down |
| `CreditHandlers.CreditLoyaltyHandler.HandleInTransaction` | use_cases/loyalty/command/credit_loyalty_handler.go:31-39 | Under the documented transaction an error leaves rows, keys and outbox as they were |
| `CreditHandlers.CreditLoyaltyHandler.PublishEvents` | use_cases/loyalty/command/credit_loyalty_handler.go:113-130 | The flushed event is published in an envelope with the command's correlation and causation, or nothing is |
| `CreditHandlers.CreditSucceedsIff` | use_cases/loyalty/command/credit_loyalty_handler.go:63-144 | A command succeeds if and only if it is acceptable beforehand; then the balance grows by the points, the answer is the row just stored, one envelope carries that row, the order, the points, the correlation and the cause, the key is marked and no other customer changes; otherwise nothing changes |
| `CreditHandlers.WhyRejected` | use_cases/loyalty/command/credit_loyalty_handler.go:77-137 | Each error is returned exactly for the failing calls and values that lead to it: duplicate, negative points, no points, storage, publishing |
| `CreditHandlers.PreparedAccountIsSaved` | use_cases/loyalty/command/credit_loyalty_handler.go:90-111 | The credited account can be saved exactly when its exact balance fits the column, and is then found again |
| `CreditHandlers.ReplayChangesNothing` | use_cases/loyalty/command/credit_loyalty_handler.go:77-88 | A command whose key is marked fails and changes nothing, even without a transaction |
| `CreditHandlers.TransactionNeededIff` | use_cases/loyalty/command/credit_loyalty_handler.go:31-39 | The bare handler is all-or-nothing exactly when neither publishing nor marking fails after the save |
| `CreditHandlers.WithoutTransactionCreditsTwice` | use_cases/loyalty/command/credit_loyalty_handler.go:108-137 | Without the transaction a failed mark followed by a redelivery credits every such event twice |
| `OrderHandlers.OnOrderCompletedHandler.Handle` | use_cases/loyalty/event/on_order_completed_handler.go:61-123 | Every delivery is acknowledged, with database and outcome as `Delivered` specifies |
| `OrderHandlers.DeliveryAccounting` | use_cases/loyalty/event/on_order_completed_handler.go:74-122 | A well-typed delivery ends in exactly one of credit committed, compensation published, compensation lost, decided by acceptability; the credited and the compensating envelope carry the event's correlation, its id as cause, its customer and its order; only a commit changes accounts, keys or credits; domain rejections never occur |
| `OrderHandlers.OthersAreIgnored` | use_cases/loyalty/event/on_order_completed_handler.go:75-80 | A payload of another type, and no other, is acknowledged without any change |
| `OrderHandlers.ReplayCompensates` | use_cases/loyalty/event/on_order_completed_handler.go:97-119 | Redelivery of a credited event always takes a compensation branch and leaves accounts and keys alone |
| `OrderHandlers.PointsRule` | use_cases/loyalty/event/on_order_completed_handler.go:82-86 | A tenth of the total rounded down, one point below ten, never less than one, and the platform's conversion for totals that do not fit |
| `LoyaltyHistories.HistoryAgreesIff` | repositories/loyalty_write_repository.go:27-71 | Over every history of finding or creating, crediting, debiting, flushing and saving, with rejected and failed calls, table and aggregate agree at every point with a book of exact balances (one row per customer, its balance and tier, the open balance, the pending events) if and only if no balance in memory passes the largest `int` |
| `LoyaltyHistories.OpenedAgrees` | repositories/loyalty_write_repository.go:46-71 | Histories can start from any well-kept table with an account just found or created |
| `LoyaltyHistories.SaveThenOpen` | repositories/loyalty_write_repository.go:27-71 | Saving and finding again recovers the account if and only if its balance fits the column; otherwise the balance last saved comes back |
| `LoyaltyHistories.SaveSucceedsIff` | repositories/loyalty_write_repository.go:27-44 | In such a history a save succeeds exactly when the exact balance fits the column |
| `LoyaltyHistories.NonNegativeIffNoOverflow` | use_cases/loyalty/domain/aggregate/loyalty_aggregate.go:48-81 | Over every such history the balance stays non-negative if and only if no credit overflows `int` |
| `LoyaltyAggregates.LoyaltyAggregate.CreditPoints` | use_cases/loyalty/domain/aggregate/loyalty_aggregate.go:48-67 | Zero points are rejected without change; otherwise balance, tier and the pending event are those of `Apply` |
| `LoyaltyAggregates.LoyaltyAggregate.DebitPoints` | use_cases/loyalty/domain/aggregate/loyalty_aggregate.go:70-81 | Rejected without change exactly when the balance is too small |
| `LoyaltyAggregates.LoyaltyAggregate.FlushEvents` | use_cases/loyalty/domain/aggregate/loyalty_aggregate.go:94-98 | Returns all pending events and leaves none, the account unchanged |
| `LoyaltyAggregates.LoyaltyAggregate.ForCustomer` | use_cases/loyalty/domain/aggregate/loyalty_aggregate.go:29-40 | A new account has no points, the lowest tier and no events |
| `LoyaltyAggregates.LoyaltyAggregate.Reconstitute` | use_cases/loyalty/domain/aggregate/loyalty_aggregate.go:43-45 | A loaded account is kept as stored, with no events |
| `ValueObjects.AddStaysConstructible` | use_cases/loyalty/domain/value_object/points.go:14-41 | Adding amounts stays constructible exactly when the sum fits `int`, and subtraction then undoes it |
| `ValueObjects.TierRule` | use_cases/loyalty/domain/value_object/tier.go:20-29 | Bronze below 500 points, Silver from 500, Gold from 2000; more points never mean a lower tier |
| `LoyaltyStores.SaveThenFind` | repositories/loyalty_write_repository.go:27-71 | Find after Save recovers the account, other customers' rows are unchanged, still one row per customer |
| `LoyaltyStores.UpsertNeverStoresWrappedBalance` | migrations/000005_create_event_support_tables.up.sql:27-34 | A credit that wraps around 64 bits is rejected by the column, so a stored balance is exact and non-negative |
| `LoyaltyStores.UpsertKeepsOthers` | repositories/loyalty_write_repository.go:27-44 | A save sets balance and tier of its row and changes no id, no customer and no other row |
| `LoyaltyStores.UpsertFailsIff` | migrations/000005_create_event_support_tables.up.sql:27-34 | A save fails exactly when the balance does not fit 32 bits or a new id comes for a customer that has a row |
| `LoyaltyStores.LoyaltyWriteRepository.Save` | repositories/loyalty_write_repository.go:27-44 | Upserts by id, updating balance and tier only; fails without change on range, uniqueness or outage |
| `LoyaltyStores.LoyaltyWriteRepository.FindByCustomerID` | repositories/loyalty_write_repository.go:46-71 | The customer's row as an aggregate without events, null if there is none, an error on outage or a negative balance |
| `LoyaltyStores.IdempotencyRepository.Mark` | repositories/loyalty_idempotency_repository.go:33-41 | Inserts the key, and fails without change if it is there already |
| `EventBuses.RunsStayAligned` | drivers/watermill/event_bus.go:71-149 | With the backend installed first or never, every wired subscriber listens where its topic is published, after every run |
| `EventBuses.SubscribeKeepsAlignedIff` | drivers/watermill/event_bus.go:109-149 | A subscription keeps that if and only if both backend parts agree on its topic or wiring fails |
| `EventBuses.InstallKeepsAlignedIff` | drivers/watermill/event_bus.go:71-74 | Changing the backend of an aligned bus keeps it aligned if and only if the publisher stays as it was or no critical topic is wired |
| `EventBuses.HandlerNamesNeverCollide` | drivers/watermill/event_bus.go:109-149 | In every run no two wired handlers share a name |
| `EventBuses.HandlerNameInjective` | drivers/watermill/event_bus.go:109-149 | A handler name decodes to one topic and one number, whatever the topic contains |
| `EventBuses.SubscriptionsAreCounted` | drivers/watermill/event_bus.go:109-149 | A topic's count is its number of subscriptions, failed ones included, and the next handler is named after it |
| `EventBuses.EventBus.Publish` | drivers/watermill/event_bus.go:79-105 | Each transport receives, in order, exactly the envelopes routed to it before the first failure |
| `EventBuses.TransportOfTopics` | drivers/watermill/event_bus.go:26-32 | With the backend the order, loyalty and fulfilment events go to SQL and nothing else does; without it everything goes to the channel |
| `EventBuses.RoutedOnce` | drivers/watermill/event_bus.go:79-105 | Every envelope goes to exactly one transport, the one of its topic |
| `EventBuses.EventBus.AddSubscription` | drivers/watermill/event_bus.go:109-149 | Counts the subscription, wires it to one transport under its own name, or reports the failure still counted |
| `EventBuses.EventBus.InstallSqlBackend` | drivers/watermill/event_bus.go:71-74 | Sets both backend parts and nothing else |
| `BalanceQuery.AnswersAreRecent` | use_cases/loyalty/query/get_loyalty_balance_handler.go:38-62 | In every run each answered balance was stored within the last 300 seconds plus the read-to-answer delay |
| `BalanceQuery.NeverStaleIffStoredAtOnce` | use_cases/loyalty/query/get_loyalty_balance_handler.go:47-58 | The bound is five minutes if and only if that delay is zero |
| `BalanceQuery.AnswersNeverExceedBalance` | use_cases/loyalty/query/get_loyalty_balance_handler.go:38-62 | In credit-only runs no answer, cache entry or pending query exceeds the current balance |
| `BalanceQuery.WithoutCacheAnswersAreFresh` | repositories/loyalty_cache_repository.go:21-31 | With the no-op cache each answer was stored within the read-to-answer delay |
| `BalanceQuery.AlwaysCurrentIffAnsweredAtOnce` | use_cases/loyalty/query/get_loyalty_balance_handler.go:47-61 | Without a cache every answer of every run is current if and only if that delay is zero |
| `BalanceQuery.GetLoyaltyBalanceHandler.Handle` | use_cases/loyalty/query/get_loyalty_balance_handler.go:38-62 | A hit answers from the cache unchanged; a miss answers the row and caches it, with every failing call |
| `WorkerChannel.WorkerReceivesFramesInOrder` | use_cases/bus/ipc_server.go:93-119 | In every interleaving no frame byte precedes the handshake, the registered pid is the worker's, and after a full handshake read the lines received are a prefix of the lines the Sends wrote, all of them once everything arrived, and those are the frames sent unless a whole frame follows a torn one |
| `WorkerChannel.LinesMatchIffProceedConsumed` | use_cases/workercore/worker.go:85-128 | The lines equal the frames sent if and only if the handshake read took all of PROCEED and no whole frame followed a torn one |
| `WorkerChannel.ShortReadSpoilsLine` | use_cases/workercore/worker.go:85-128 | It happens: after a handshake read of any part of PROCEED the first message arrives joined to the rest of it |
| `WorkerChannel.TornFrameSpoilsNext` | use_cases/workerclient/worker.go:80-103 | It happens: after a write that failed part way the next message arrives joined to the torn one |
| `WorkerChannel.WorkerScansFramesSent` | use_cases/workercore/worker.go:130-165 | At end of stream the scanner has yielded exactly the lines the Sends wrote, then the tail a failed write left |
| `WorkerChannel.StepKeepsOrdered` | use_cases/workerclient/worker.go:80-103 | Every step keeps the byte stream PROCEED, then what the finished Sends wrote, then one unfinished frame under the mutex, also when a write fails and a later Send goes on |
| `WorkerChannel.LinesOfStream` | use_cases/workerclient/worker.go:80-103 | Framing: the complete lines of any stream of whole and torn frames are those of `LinesOf`, which joins a torn start to the next frame |
| `WorkerChannel.LinesAreBodiesIff` | use_cases/workerclient/worker.go:80-103 | Those lines are exactly the frames sent if and only if nothing precedes the stream and every torn frame comes after the last whole one |
| `WorkerChannel.ScanLinesOfStream` | use_cases/workercore/worker.go:130-165 | The scanner yields those lines, and an unterminated rest as one more |
| `WorkerChannel.CarriageReturnIsDropped` | use_cases/workercore/worker.go:130-165 | A line ends at its newline, without one carriage return before it |
| `WorkerChannel.PidRoundTrip` | use_cases/bus/ipc_server.go:93-119 | The master parses from the worker's report exactly the pid the worker wrote |
| `WorkerChannel.TrimSpaceStrips` | use_cases/bus/ipc_server.go:93-119 | White space around the reported pid is trimmed |
| `Decimal.DigitsAreDecimal` | use_cases/workercore/worker.go:62-83 | The pid is written in decimal notation |
| `Workers.Worker.ReceiveMessage` | use_cases/workercore/worker.go:130-165 | Carries out exactly `CarriedLines` of the scanned stream and cancels unless the context ended the loop |
| `Workers.CarriedIsPrefix` | use_cases/workercore/worker.go:130-165 | Those lines are the prefix up to the first shutdown, malformed line, end of stream or done context |
| `Workers.WorkerCarriesFramesSent` | use_cases/workercore/worker.go:130-165 | What the worker carries out of any run's stream is a prefix of the frames sent and the torn tail, ending at the first shutdown, malformed line, done context or end of stream |
| `Workers.Worker.AcceptHandshake` | use_cases/workercore/worker.go:62-83 | Without a descriptor nothing is reported; otherwise it is kept and the pid is reported on a line |
| `Registries.ConnectionRegistry.HealthRound` | use_cases/mastercore/registry.go:92-130 | After ping then eliminate the registry holds exactly the reachable workers that were not disconnected, each pinged once, no one else |
| `Registries.ConnectionRegistry.GetAll` | use_cases/mastercore/registry.go:65-74 | Lists every registered worker exactly once |
| `Registries.ConnectionRegistry.EliminateWorkers` | use_cases/mastercore/registry.go:105-115 | Removes exactly the disconnected workers while walking the map in any order |
| `Registries.ConnectionRegistry.Add` | use_cases/mastercore/registry.go:144-152 | Stores the worker under its pid |
| `Registries.ConnectionRegistry.Remove` | use_cases/mastercore/registry.go:43-50 | Removes that pid and no other |
| `Registries.Broadcast` | use_cases/bus/event.go:23-39 | Sends once to every worker not disconnected; exactly the unreachable ones end disconnected with a shutdown queued |
| `Registries.WorkerClient.Send` | use_cases/workerclient/worker.go:80-103 | Appends one frame, or fails and appends none |
| `Registries.WorkerClient.ShutDown` | use_cases/workerclient/worker.go:106-131 | Disconnects, and queues a shutdown message if there is a connection |
| `Registries.WorkerClient.Start` | use_cases/workerclient/worker.go:133-148 | Connects and pings; the status is connected even when the ping fails |
| `Registries.RegisterWorkers` | use_cases/mastercore/master.go:92-102 | Exactly the workers before the first failing start are started and pinged; the registry then maps each of their pids to the latest of them and every other pid as before |
| `WorkerLifecycle.WorkersStayDown` | use_cases/mastercore/registry.go:92-115 | At every point of every run entries are keyed by the pid of a worker whose start succeeded, and only disconnected workers are sent a shutdown message; a disconnected worker never comes back, and besides those messages only broadcasts that had already looked at it still write to it |
| `WorkerLifecycle.LateBroadcastIff` | use_cases/bus/event.go:23-39 | A disconnected worker can still be sent a broadcast if and only if that broadcast looked at its status before it was disconnected |
| `WorkerLifecycle.BroadcastArrivesLate` | use_cases/bus/event.go:23-39 | It happens: a run in which a worker is shut down between a broadcast's look and its write |
| `WorkerLifecycle.FailedStartEndsRegistration` | use_cases/mastercore/master.go:92-102 | After a start that fails, no run registers another worker |
| `WorkerLifecycle.RegistryAfter` | use_cases/mastercore/registry.go:105-115 | A successful start enters the worker under its pid, an elimination removes that pid, and no other step touches the registry |
| `WorkerLifecycle.StopNotifies` | use_cases/workerclient/worker.go:106-131 | A stopped worker is disconnected and its shutdown message can be written next |
| `LogData.BackwardScanPlacesForward` | tools/logs/log_handler.go:122-150 | For any chain with distinct names whose calls do not add differently under one key, the right-to-left stack scan puts each attribute under its nearest preceding group or at the top |
| `LogData.AppendReversedIff` | tools/logs/log_handler.go:127-149 | Popping a call's attributes in reverse gives the same fields if and only if under every key the first and the last attribute add the same |
| `LogData.OneCallIff` | tools/logs/log_handler.go:122-150 | One call alone is placed as meant if and only if that holds of its attributes |
| `LogData.DistinctIsOrderFree` | tools/logs/log_handler.go:127-149 | It holds whenever no key is repeated |
| `LogData.FirstRepeatWins` | tools/logs/log_handler.go:122-150 | A key repeated within one call keeps its first value, where left-to-right placement keeps the last |
| `LogData.RenderedShows` | tools/logs/log_handler.go:238-291 | An attribute shows its value; a group shows an object with, under each key, what the last of its attributes adds there, and nothing if none adds anything; an empty attribute shows nothing |
| `LogData.RecordShowsPlacedChain` | tools/logs/log_handler.go:112-163 | A log shows the record's attributes over the placed chain, without its last group when the record has none |
| `LogData.PaddingHarmlessIff` | tools/logs/log_handler.go:101-119 | Padding changes a record if and only if it has no attributes and the chain ends in two groups |
| `LogData.PaddedScansLikeCalls` | tools/logs/log_handler.go:101-109 | In the scan itself padding has no effect, whatever follows |
| `LogHandlers.LogHandler.Collect` | tools/logs/log_handler.go:121-150 | The loop over the stack computes the backward scan of the chain |
| `LogHandlers.LogHandler.Handle` | tools/logs/log_handler.go:112-197 | A rejected record changes nothing; an accepted one is appended with its data, and a full buffer is written as one batch |
| `LogHandlers.LogHandler.WithGroupAttrs` | tools/logs/log_handler.go:101-109 | The derived handler has its own chain, so parent and siblings are unaffected |
| `LogHandlers.LogHandler.WriteAll` | tools/logs/log_handler.go:199-218 | Hands over all pending logs as one batch, or nothing if there are none |
| `LogHandlers.LogHandler.WithAttrs` | tools/logs/log_handler.go:221-227 | No attributes give the same handler, others extend a copy of the chain |
| `LogHandlers.LogHandler.WithGroup` | tools/logs/log_handler.go:230-236 | No name gives the same handler, a name extends a copy of the chain |
| `LogBatching.BatchesPartitionLogs` | tools/logs/log_handler.go:184-218 | Under any interleaving the drained batches followed by the pending logs are the accepted logs in order, no batch is written twice, and at rest all are written and less than a batch is pending |
| `LogBatching.CallAlone` | tools/logs/log_handler.go:184-218 | A call nothing interleaves with does what the handler's contract says |
| `LogBatching.FlushAlone` | tools/logs/log_handler.go:199-218 | An undisturbed flush writes everything pending as one batch, or nothing |
| `Stacks.Stack.PopByLength` | tools/stack/stack.go:31-39 | The last items in reverse, leaving the rest |
| `Stacks.Stack.Pop` | tools/stack/stack.go:22-29 | Removes the most recently pushed item |
| `Stacks.Stack.Push` | tools/stack/stack.go:16-20 | Adds the item on top |
| `Pagination.FloatCeilIsIntegerCeil` | gorm/models/paginate.go:18-21 | Below 2^53 rounding cannot carry the quotient over an integer: the float ceiling is the exact one |
| `Pagination.EveryRowOnOnePage` | gorm/models/paginate.go:23-40 | Each row is shown by exactly one page, and that page is within the page count |
| `Pagination.EveryPageShowsARow` | gorm/models/paginate.go:23-40 | Each page within the count starts at a row, with an offset that does not wrap |
| `Pagination.Paginate.SetPagination` | gorm/models/paginate.go:23-63 | Clamped size, effective page and offset, and the exact page count for totals below 2^53 |
| `Pagination.SizeFromText` | gorm/models/paginate.go:29-35 | Sizes 1 to 100 are taken as written, larger ones become 100, anything else 10 |
| `Pagination.PageFromText` | gorm/models/paginate.go:24-27 | The page is taken as written, and 1 for zero or text that is no number |
| `Pagination.OffsetFromText` | gorm/models/paginate.go:37-39 | Page n of the query text starts after the n - 1 pages before it |
| `Pagination.NotANumber` | gorm/models/paginate.go:24-29 | Text with anything but digits after an optional sign is no number |
| `Pagination.Paginate.SetPageCount` | gorm/models/paginate.go:18-21 | Stores the total, and the exact page count for totals below 2^53 and sizes from 1 to 2^53 |
| `Hooks.Hook.ExecuteWithExclude` | pkg/hooks/hooks.go:81-116 | Runs the sorted keys outside the exclusion list, each once, up to and including the first failure; fails exactly when some key that is not excluded fails, with the least such key |
| `Hooks.LeastFailureDecides` | pkg/hooks/hooks.go:104-113 | The outcome is the failure of the least failing key that is not excluded, or success if there is none |
| `Hooks.BelowIff` | pkg/hooks/hooks.go:70-79 | The order is lexicographic: a proper prefix first, otherwise the first different character decides |
| `Hooks.RunsUpTo` | pkg/hooks/hooks.go:104-113 | What runs is the whole prefix ending at the first failing key |
| `Hooks.KeepOrdered` | pkg/hooks/hooks.go:81-116 | Filtering the sorted keys is sorting the filtered keys |
| `Hooks.SortedUnique` | pkg/hooks/hooks.go:70-79 | A set of keys has only one sorted listing, so map order cannot matter |
| `Hooks.Hook.OrderedLoop` | pkg/hooks/hooks.go:70-79 | Visiting the map in any order yields its sorted listing |
| `Hooks.RegistrationOrderIrrelevant` | pkg/hooks/hooks.go:41-53 | The same registrations in any order give the same hook |
| `Hooks.Hook.Add` | pkg/hooks/hooks.go:41-53 | Registers a new key and refuses one that exists |
| `Hooks.FirstRegistrationStays` | pkg/hooks/hooks.go:41-53 | A registration adds its key and leaves every existing handler as it is |
| `Hooks.Hook.ExecuteOnly` | pkg/hooks/hooks.go:118-128 | Runs the handler of the key, or reports that there is none |

## Left out

- JSON encoding and decoding of envelopes, commands and log payloads: envelopes are values, a message body is text without a raw newline, and what a line decodes to is a parameter of the worker's loop.
- gorm, the SQL drivers, Watermill's router, NATS, the circuit breaker, tracing, HTTP, dependency injection and the command line: libraries or thin wrappers over them.
- Wall-clock timestamps and generated ids as values; the compensation's reason text; log levels.
- The widths of text columns (36 characters for ids): every string fits here; the 32-bit balance column is modelled.
- The saga state repository: the repository has only its interface, modelled as a map with find-or-create and save.
- A cache implementation with expiry: the repository has only the no-op cache; an entry is taken to expire at its store time plus its lifetime.
- Rounding in `float64(total) * 0.10`: totals are reals, so a product that is not exact in float64 may truncate to a neighbouring number of points.
- Deliveries whose payload has the wrong type inside `OrderFlow`: they change nothing and are acknowledged, as `OnOrderCompletedHandler.Handle` states.
- The order in which concurrent `Subscribe` calls update the counter, which the bus does not lock.
- The health round running concurrently with `Add`: `HealthRound` is one sequential round; `WorkerLifecycle` covers interleavings of its steps on values, without update in place.
- Details of passing the descriptor, and the scanner's 64 KB limit.
- The error that `Remove` always returns, `Total`, `Get`, `CloseAllConnections`, `Drain`, the control socket, and the older handshake kept in `master.go`.
- `Execute`, the unordered hook loop, and handlers that register hooks while running.
- The log handler's byte buffer, source locations, resolving of log values, and the backing array that derived handlers share for pending logs.
- Driver and data managers, adapters, request binding, API errors, mocks, generated code, documentation and quickstart: easy or bound to libraries.
