# RideX core, verified

Dafny models of the parts of RideX in which correctness depends on more than one function, with proofs of what
the whole system keeps. `dafny verify dfyconfig.toml` checks everything. No original code is run or linked.

**Trips, drivers and events.** `Trips` states every PostgreSQL transaction of the API, the matcher and the
ingestor as one atomic step on tables. `TripLifecycle` shows that each trip row is the replay of its event log and
that event logs take only a few shapes; `TripExclusivity` shows exactly when no driver is double-booked.
`DriverIndex` adds the Redis set, written in steps of its own after a commit, and `TripServices` writes the
services out statement by statement and ties them to those steps. `Deployment` puts processes, crashes, repeated
and reordered deliveries, an arbitrary Redis set and the outbox publishers together and carries the results over
to every interleaving; `IndexAgreement` shows exactly when the Redis set agrees with PostgreSQL there.
`TripAuthority` says, of the rows alone, who may do what, and traces every trip of a run to the requests that made it.

**Outbox.** `TripMessages` is the message format of the two publishers, `Outbox` the transactions with
`FOR UPDATE SKIP LOCKED`, lost acknowledgements and rollbacks, `OutboxSafety` what every interleaving keeps,
`OutboxProgress` what whole flushes achieve, `OutboxStarvation` which rows are ever sent, `OutboxArrivals` how long
a row waits while others arrive, and `OutboxPublishers` the two publishers as imperative code. `TripReader` is a
consumer that knows the literal names only, and reads the broker's log back as the events.

**Consistent hashing.** `Word32`, `Chain` and `Hash` are the two hash functions in 32-bit arithmetic, `WordBytes` and
`HashVectors` work documented test vectors out. `Positions` and `Ring` are the sorted ring for an arbitrary hash,
`RingPlacement` says where its positions are and whom a key belongs to, `ReplicaOwnership` is the matcher's ownership
filter during a rollout.

**Rate limiting.** `TokenBucket` is the bucket on whole traces, `BucketMap` and `MemoryStore` the in-process store
with its promise chain and its eviction, `RedisBucket` the Lua script with its expiry.

**Streaming arithmetic.** `SurgeWindow` and `Surge` are the surge worker, the resolved multiplier and the fare, `Tariff`
the same numbers in metres, requests and cents,
`Rating` the rating trigger, `Labels`, `LabelPrints`, `LabelCollisions` and `Metrics` the Prometheus registry.

Where the code falls short of its comments or documentation, the code is modelled, the gap is a lemma with an input,
and another says exactly when the promise is kept:

- A driver who is switched to online in the middle of a trip can be given a second one
  (`SwitchingOnlineMidTripDoubleBooks`); without such a switch, and only without, it never happens (`ExclusiveIffHarmless`).
- The Redis set can list a driver who is on a trip while nobody is about to take the entry out (`LateAddHappens`),
  exactly after one of three kinds of step (`AgreesIffNeverHarmed`).
- Outbox rows that the broker never accepts hold up all rows behind the first fifty of them
  (`StuckBatchStarvesTheRest`), and no others (`SentIffFewerThanABatchRefused`).
- `0004_trip_ratings.sql` says average and count are kept consistent: the average drifts from the exact mean
  (`SevenRatingsDrift`, within `DriftIsBounded`) unless the mean is always a whole number of hundredths
  (`AlwaysExactIffRepresentable`), leaves the rounded mean by an exact rule (`RoundedIffTheErrorFits`), and stops
  moving from the 800th rating on and not before (`FrozenIffEightHundred`).
- A bucket with a burst below one admits nothing although the constructor accepts it (`SmallBurstNeverAdmits`,
  `AdmitsIffATokenFits`), and a clock that steps back breaks the retry promise (`SteppingBackEarnsTimeTwice`), which
  counts forward time, not the span (`RetryPromiseIsExact`, `ForwardIsTheSpan`).
- With a window of one second, arrivals during a tick are lost (`OneSlotLosesArrivals`, `WindowHoldsIffTwoSlots`).
- A maximum multiplier can be exceeded (`FractionalCapIsExceeded`) exactly when rounding it to cents raises it
  (`CapHoldsIffItRoundsDown`).
- A label name containing `="` can make two label sets share a series (`TwoLabelsPrintLikeOne`, `OddNameCollides`):
  beside names without it, exactly when the name reads as labels beside itself (`NameCollidesIffItReadsBesideItself`).
  Whatever the names contain, no series are shared unless one name and `="` begin another (`SeparateSeriesAreDistinct`).

## Model

| member | source | states |
|---|---|---|
| TripLifecycle.EveryRunIsCoherent | apps/api/src/trips/trips.service.ts:61-384 | after any serial run every trip row (rider, driver, vehicle, status, fare) is the replay of its events, its ratings are the stars in them, and status, rating and history fit together |
| TripLifecycle.ExecuteKeepsCoherent | apps/api/src/trips/trips.service.ts:61-384 | every transaction, with any arguments, keeps every trip in agreement with its events |
| TripLifecycle.OthersStayCoherent | services/matcher/src/trip-consumer.ts:120-143 | a transaction about one trip leaves row, history and ratings of every other trip as they were |
| TripLifecycle.AssignKeepsCoherent | services/matcher/src/trip-consumer.ts:94-154 | a match keeps its own trip's row equal to the replay of its events, whether it commits or rolls back |
| TripLifecycle.CancelKeepsCoherent | apps/api/src/trips/trips.service.ts:160-200 | a cancellation does the same |
| TripLifecycle.CompleteKeepsCoherent | apps/api/src/trips/trips.service.ts:235-339 | a completion does the same, with the fare in the row equal to the fare in the event |
| TripLifecycle.RateKeepsCoherent | apps/api/src/trips/trips.service.ts:346-384 | a rating does the same, and its row and its event carry the same stars |
| TripLifecycle.CoherentHistoriesAreLegal | db/migrations/0002_core_tables.sql:126-132 | a coherent trip's event types are a prefix of requested, matched, started, completed, rated, or requested, perhaps matched, cancelled |
| TripLifecycle.StepKeepsDecisions | services/matcher/src/trip-consumer.ts:120-143 | no transaction changes a terminal row, or the driver and vehicle of a matched one |
| TripLifecycle.DecisionsAreFinal | apps/api/src/trips/trips.service.ts:160-339 | the same over any continuation of any run |
| TripLifecycle.NoTripIsMatchedTwice | services/matcher/src/trip-consumer.ts:28-79 | however `trip.requested` is delivered, a trip has at most one match event, and none after a cancellation |
| TripLifecycle.ReachableScoresAreSound | apps/api/src/trips/trips.service.ts:346-367 | in every reachable database `rating_count` is the number of accepted ratings of the driver, and the average is in range and within the drift bound |
| TripExclusivity.ExclusiveIffHarmless | apps/api/src/drivers/drivers.module.ts:69-82 | over every run, no driver ever has two active trips or is online with one, if and only if no accepted switch to online meets a driver with an active trip |
| TripExclusivity.HarmlessKeepsExclusive | services/matcher/src/trip-consumer.ts:94-154 | every other transaction, with any arguments, keeps drivers exclusive |
| TripExclusivity.HarmBreaksExclusive | apps/api/src/drivers/drivers.module.ts:74-82 | the switch breaks exclusivity at once |
| TripExclusivity.OnlyAssignAddsWork | services/matcher/src/trip-consumer.ts:120-137 | only a match of an eligible driver gives a driver an active trip |
| TripExclusivity.EndedTripFreesItsDriver | apps/api/src/trips/trips.service.ts:179-187 | cancelling or completing a trip puts its driver online with no active trip and touches no other driver |
| TripExclusivity.MatchReservesItsDriver | services/matcher/src/trip-consumer.ts:99-143 | a match makes its driver on_trip and ineligible and touches no other driver |
| TripExclusivity.SwitchingOnlineMidTripDoubleBooks | apps/api/src/drivers/drivers.module.ts:69-82 | a five-transaction run after which one driver has two active trips |
| TripAuthority.DoneIff | apps/api/src/trips/trips.service.ts:160-384 | exactly when each of the ten transactions is carried out, in terms of the rows: only the trip's own rider and driver, each in the right state, one to five stars, once |
| TripAuthority.Refusals | apps/api/src/trips/trips.service.ts:160-384 | a request that is not carried out changes nothing, and what it is answered |
| TripAuthority.EveryMoveHasItsActor | apps/api/src/trips/trips.service.ts:164-309 | over every transaction: a trip changes only by a match, or by a request of its own rider or driver, from the one state to the other; and it appears only by being requested |
| TripAuthority.WhoCancels | apps/api/src/trips/trips.service.ts:164-176 | a trip becomes cancelled by its rider exactly when its rider cancels it, by its driver exactly when its driver does, and only while requested or matched |
| TripAuthority.DriversMoveOnlySo | apps/api/src/drivers/drivers.module.ts:69-109 | what each transaction makes of each driver's status, vehicle and position, and whose rating it may change |
| TripAuthority.DriversAppearOnlySo | db/migrations/0002_core_tables.sql:37-45 | a driver row appears only by registration, offline, with no vehicle, at 5.00 from no ratings |
| TripAuthority.EventsTell | apps/api/src/trips/trips.service.ts:406-420 | each transaction inserts exactly the event that says what was done, by whom and with what |
| TripAuthority.EveryTripIsExplained | apps/api/src/trips/trips.service.ts:61-384 | in every run, a trip that is matched, in progress, completed or cancelled was requested by its rider, then matched, started and completed by its driver, or cancelled by the one its status names, in that order, at the fare it holds |
| TripAuthority.EveryDeployedTripIsExplained | apps/api/src/trips/trips.service.ts:61-384 | the same in every reachable state of the deployment |
| TripAuthority.EveryRatingIsExplained | apps/api/src/trips/trips.service.ts:346-367 | in every run, each rating is of a completed trip, by its rider, of its driver, with one to five stars, and no trip has two |
| DriverIndex.HandlerPicksTheFirstEligible | services/matcher/src/trip-consumer.ts:60-77 | an uninterrupted handler of a requested trip matches the first candidate that is online with an active vehicle, and removes exactly it and the candidates before it from the index |
| DriverIndex.FirstEligibleIsFirst | services/matcher/src/trip-consumer.ts:99-118 | what "first eligible" means: eligible itself, and nobody before it |
| DriverIndex.LateHandlerOnlyTidies | services/matcher/src/trip-consumer.ts:113-136 | a handler of a trip that is not requested changes no row and removes exactly the ineligible candidates |
| DriverIndex.IneligibleAre | services/matcher/src/trip-consumer.ts:113-118 | which candidates those are: exactly the ineligible ones |
| DriverIndex.UninterruptedIndexIsOnline | services/ingestor/src/location.routes.ts:111-157 | when no call is interrupted, the index holds only drivers that PostgreSQL has online; the interleaved case is `IndexAgreement` |
| DriverIndex.RequestKeepsIndexed | apps/api/src/trips/trips.service.ts:196-197 | the same for each request with its follow-up |
| DriverIndex.DeliveryKeepsIndexed | services/matcher/src/trip-consumer.ts:113-147 | the same for each delivery to a matcher |
| DriverIndex.CallIsItsTransactions | services/matcher/src/trip-consumer.ts:60-77 | the database after an uninterrupted call is that of its transactions alone |
| DriverIndex.PingRepairsTheIndex | services/ingestor/src/location.routes.ts:85-157 | from any index, an accepted ping makes membership equal to online, if and only if the driver was not online in the middle of a trip; no other membership changes |
| DriverIndex.PingRepairsExclusiveIndex | services/ingestor/src/location.routes.ts:111-157 | so it always does in runs that keep drivers exclusive |
| TripAuthority.RequestsKeepTheIndex | apps/api/src/trips/trips.service.ts:498-506 | who is in the index after an uninterrupted accepted request: completing, cancelling and going online put a located driver back, a match and any other status take the driver out, a ping decides, nobody else changes |
| DriverIndex.LateRestoreLeavesAStaleEntry | apps/api/src/trips/trips.service.ts:196 | a restore that runs after the next match of its driver leaves the driver in the index, and any later handler only removes the entry |
| IndexAgreement.AgreesIffNeverHarmed | services/matcher/src/trip-consumer.ts:113-147 | over every interleaving, whoever is in the index is online or about to be taken out, throughout, if and only if no step adds a driver late, loses the last removal of an offline driver by a crash, or overwrites the index with a stray entry |
| IndexAgreement.StepKeepsAgreementIff | services/ingestor/src/location.routes.ts:151-157 | each step keeps that agreement if and only if it is none of the three |
| IndexAgreement.SettledIndexIsOnline | apps/api/src/trips/trips.service.ts:498-506 | so once no removal is outstanding the index holds only drivers that PostgreSQL has online |
| IndexAgreement.LateAddHappens | apps/api/src/trips/trips.service.ts:196-197 | an eleven-step run of a freshly started deployment whose last step is a late add: a driver on a trip stays in the index and nobody is about to take the entry out |
| TripServices.TripsService.Create | apps/api/src/trips/trips.service.ts:61-101 | does the create transaction and nothing to the index |
| TripServices.TripsService.Cancel | apps/api/src/trips/trips.service.ts:160-200 | does the cancel transaction and its follow-up, with the same reply in every error case |
| TripServices.TripsService.Start | apps/api/src/trips/trips.service.ts:202-233 | does the start transaction, with the same reply in every error case |
| TripServices.TripsService.Complete | apps/api/src/trips/trips.service.ts:235-339 | does the complete transaction, with the fare of this distance, time and resolved multiplier (in numbers: `CompletionChargesTheFare`), and its follow-up |
| TripServices.TripsService.Rate | apps/api/src/trips/trips.service.ts:346-384 | does the rate transaction, with the same reply in every error case |
| TripServices.TripsService.InsertRating | db/migrations/0004_trip_ratings.sql:7-41 | inserts unless the check or the primary key refuses, and then updates that driver's score and no other |
| TripServices.Store.HasActive | services/ingestor/src/location.routes.ts:94-98 | answers whether the driver has an active trip |
| TripServices.Store.RestoreDriverGeoIndex | apps/api/src/trips/trips.service.ts:498-506 | adds the driver to the set exactly when a position is stored |
| TripServices.DriversService.SetStatus | apps/api/src/drivers/drivers.module.ts:69-109 | does the status transaction and its follow-up |
| TripServices.LocationRoutes.PostLocation | services/ingestor/src/location.routes.ts:60-65 | does the ping transaction and then, if it was accepted, adds the driver to the set or removes it as that transaction answered, and touches nobody else |
| TripServices.LocationRoutes.PersistLocation | services/ingestor/src/location.routes.ts:85-149 | does the ping transaction and answers whether the driver is to be indexed |
| TripServices.Matcher.HandleTripEvent | services/matcher/src/trip-consumer.ts:60-78 | the candidate loop does what the uninterrupted handler does, and returns the first eligible candidate or none |
| TripServices.Matcher.AssignDriver | services/matcher/src/trip-consumer.ts:94-154 | does the match transaction for one candidate, with the removal from the set after it |
| Deployment.EveryInterleavingIsSerial | services/matcher/src/trip-consumer.ts:28-154 | whatever processes, crashes, deliveries and index contents, the database is that of the transactions run one after the other in commit order |
| Deployment.EveryStateIsCoherent | apps/api/src/trips/trips.service.ts:61-384 | in every reachable state of the deployment each trip is the replay of its events, legal, and matched at most once |
| Deployment.ExclusiveIffHarmless | services/matcher/src/trip-consumer.ts:94-154 | driver exclusivity over every interleaving, with an arbitrary Redis set, if and only if no harmful switch to online is accepted |
| Deployment.EveryRunMirrors | apps/api/src/trips/trips.service.ts:406-416 | the outbox rows are the event log, row by row, at every moment |
| Deployment.BrokerLogIsTrue | apps/api/src/trips/trips.service.ts:425-480 | every message sent is that of an event of the database; published rows have a copy in the broker; copies are bounded by attempts, rollbacks and the send in flight |
| TripMessages.PublishersAgree | services/matcher/src/trip-consumer.ts:64-69 | the API and the matcher build the same message for a matched event |
| TripMessages.EnvelopeSurvives | apps/api/src/trips/trips.service.ts:482-496 | spreading the payload never overwrites `type` and `trip_id` and hides nothing of the payload |
| TripMessages.MessagesDetermineEvents | apps/api/src/trips/trips.service.ts:482-496 | two events have the same message if and only if they are the same event of the same trip |
| TripMessages.OnlyRequestsAreHandled | services/matcher/src/trip-consumer.ts:32-33 | the matcher's filter on `type` lets through exactly the requested events |
| TripReader.ReadUndoesOutboxPayload | apps/api/src/trips/trips.service.ts:482-496 | a consumer that knows only the literal type, field, role and status names reads a message as an event if and only if it is the message the publisher writes for that event |
| TripReader.PayloadsReadBack | apps/api/src/trips/trips.service.ts:185-186 | the same for the payload of each of the six kinds |
| TripReader.BrokerLogReadsBack | apps/api/src/trips/trips.service.ts:482-496 | in every reachable state of the deployment, every message in the broker's log reads back as the event of the row it was sent for |
| OutboxSafety.EveryRunKeepsInv | apps/api/src/trips/trips.service.ts:425-480 | over every interleaving of appends, flushes, single publications, failed sends, lost acknowledgements, commits and rollbacks the outbox invariant holds |
| OutboxSafety.PublishersHoldDisjointRows | apps/api/src/trips/trips.service.ts:437-442 | no two publishers hold the same row, and none holds a published one |
| OutboxSafety.EveryCopyIsAccountedFor | apps/api/src/trips/trips.service.ts:445-469 | a published row has a copy in the broker; each send is counted in the row's attempts, or was rolled back, or is in flight; copies never exceed that; and every copy is the row's own message |
| OutboxSafety.CopiesIdentifyTheirEvent | services/matcher/src/trip-consumer.ts:176-181 | two messages sent are equal if and only if their events are |
| OutboxSafety.PublishedRowsAreNotSent | services/matcher/src/trip-consumer.ts:164-175 | publication is never taken back and a published row is never sent again |
| OutboxSafety.EventsStay | apps/api/src/trips/trips.service.ts:449-468 | publishing never changes what a row says |
| Outbox.PickIsAvailable | apps/api/src/trips/trips.service.ts:437-442 | a batch is at most the limit, in id order, unpublished and unlocked |
| Outbox.PickIsEarliest | apps/api/src/trips/trips.service.ts:437-442 | an available row outside the batch comes after all of it, and then the batch is full |
| Outbox.SettleAt | apps/api/src/trips/trips.service.ts:445-469 | a commit marks each sent row once, by the outcome of its own send, and no other row |
| OutboxProgress.FlushRemovesTheAcknowledged | apps/api/src/trips/trips.service.ts:425-480 | a flush takes exactly the acknowledged rows of its batch off the waiting list and keeps the order of the rest, whatever other publishers hold |
| OutboxProgress.PickIsTheHead | apps/api/src/trips/trips.service.ts:437-442 | a batch is the head of the waiting list |
| OutboxProgress.FlushesDrainInIdOrder | apps/api/src/trips/trips.service.ts:425-480 | without failures the waiting rows are sent once each in id order, and the list is empty exactly from flush number ceil(n / 50) on |
| OutboxProgress.ProgressIffAcknowledged | apps/api/src/trips/trips.service.ts:445-469 | a flush shortens the waiting list if and only if a row of its batch is acknowledged |
| OutboxProgress.StuckBatchStarvesTheRest | apps/api/src/trips/trips.service.ts:437-469 | a batch that is never acknowledged keeps the waiting list as it is and is all that is ever sent |
| OutboxStarvation.SentIffFewerThanABatchRefused | apps/api/src/trips/trips.service.ts:437-469 | whatever the broker refuses, the waiting row at position p is sent by some flush if and only if fewer than fifty rows before it are never acknowledged |
| OutboxStarvation.FlushesInClosedForm | apps/api/src/trips/trips.service.ts:425-480 | after n flushes the waiting list is the unacknowledged rows of a prefix followed by the untouched rest, and the rows sent are exactly those of the prefix |
| OutboxArrivals.PublishedIffItsTurnHasCome | apps/api/src/trips/trips.service.ts:425-480 | with a broker that acknowledges, whatever arrives between the flushes, the row behind p waiting ones is published if and only if at least floor(p / 50) + 1 flushes have run |
| OutboxPublishers.EventTable.SelectPending | apps/api/src/trips/trips.service.ts:437-442 | the selection loop finds the first fifty available rows |
| OutboxPublishers.TripsOutbox.PublishPendingTripEvents | apps/api/src/trips/trips.service.ts:425-480 | does nothing while a flush of this replica is open, otherwise one whole flush, or one rolled back after the query that failed; the flag is down again afterwards |
| OutboxPublishers.TripsOutbox.SendRows | apps/api/src/trips/trips.service.ts:445-469 | the loop sends the rows in order and marks each by its outcome |
| OutboxPublishers.MatchPublisher.PublishTripEvent | services/matcher/src/trip-consumer.ts:156-211 | publishes the one row unless it is published or locked, marks it by the outcome, and when a query fails before or after the send leaves the row unmarked and the send standing |
| OutboxPublishers.PublishOneIs | services/matcher/src/trip-consumer.ts:156-211 | that closed form is what the transaction steps begin, send and commit or roll back come to, one after the other |
| Chain.OneItemDecides | libs/consistent-hash/src/hash.ts:53-69 | a fold whose step never merges tells two lists apart that differ in one place |
| Hash.Fnv1a32 | libs/consistent-hash/src/hash.ts:16-23 | the loop computes the fold over low bytes, as a 32-bit word |
| Hash.Murmur3x32 | libs/consistent-hash/src/hash.ts:47-97 | blocks, tail and finaliser compute the specified hash, as a 32-bit word |
| Hash.MixBlockIsInjective | libs/consistent-hash/src/hash.ts:60-66 | mixing a block loses neither the running hash nor the block |
| Hash.FinaliseIsInjective | libs/consistent-hash/src/hash.ts:88-96 | the finaliser loses nothing |
| Hash.FnvSeparatesOneByte | libs/consistent-hash/src/hash.ts:16-23 | equal-length inputs that may differ in one low byte collide exactly when they do not |
| Hash.Murmur3SeparatesOneBlock | libs/consistent-hash/src/hash.ts:47-97 | the same for one aligned four-byte block, for every seed |
| Hash.Murmur3SeparatesTails | libs/consistent-hash/src/hash.ts:71-86 | the same for the bytes after the last block |
| Hash.Murmur3CollisionsExtend | libs/consistent-hash/src/hash.ts:52-68 | whatever follows them, two inputs of equally many whole blocks collide under Murmur3 exactly when they collide by themselves |
| Hash.FnvCollisionsExtend | libs/consistent-hash/src/hash.ts:16-23 | whatever follows them, two inputs collide under FNV-1a exactly when they collide by themselves |
| Hash.Murmur3SeesTheLength | libs/consistent-hash/src/hash.ts:88-89 | a zero byte at the end that neither blocks nor tail notice still changes the hash, for every seed |
| Hash.TailIsAPaddedBlock | libs/consistent-hash/src/hash.ts:72-82 | the one to three bytes of the tail are read like a block filled up with zeros |
| HashVectors.VectorEmpty | libs/consistent-hash/src/hash.ts:36-41 | Murmur3 of the empty string is 0 |
| HashVectors.VectorA | libs/consistent-hash/src/hash.ts:36-41 | Murmur3 of `a` with seed 0x9747b28c is 0x7fa09ea6 |
| HashVectors.VectorHello | libs/consistent-hash/src/hash.ts:36-41 | Murmur3 of `hello` is 0x248bfa47 |
| HashVectors.VectorAbc | libs/consistent-hash/src/hash.ts:36-41 | Murmur3 of `abc` is 0xb3dd93fa |
| HashVectors.FnvVectorEmpty | libs/consistent-hash/test/ring.test.ts:8-10 | FNV-1a of the empty string is 0x811c9dc5 |
| HashVectors.FnvVectorA | libs/consistent-hash/src/hash.ts:16-23 | FNV-1a of `a` is 0xe40c292c |
| Word32.XorShiftIsInjective | libs/consistent-hash/src/hash.ts:90-94 | `h ^= h >>> n` loses nothing |
| Word32.ImulIsInvertible | libs/consistent-hash/src/hash.ts:60-62 | `Math.imul` by an odd constant is undone by its inverse modulo 2^32 |
| WordBytes.XorByBytes | libs/consistent-hash/src/hash.ts:63 | the exclusive or of two words is that of their bytes |
| Ring.EveryHistoryIsConsistent | libs/consistent-hash/src/ring.ts:79-95 | after any adds and removes the array is sorted and holds exactly the members' virtual nodes |
| Ring.MembersHoldVnodesPositions | libs/consistent-hash/src/ring.ts:82-85 | each member holds `vnodes` positions and nobody else holds any |
| RingPlacement.PositionsAreNumbered | libs/consistent-hash/src/ring.ts:79-95 | after any history the array is sorted and holds, for each node whose last change is a join and each i below `vnodes`, one position at the hash of the node's name, `#` and the decimal numeral of i, counted with multiplicity, and no others |
| RingPlacement.NumeralsAreUnique | libs/consistent-hash/src/ring.ts:83 | a text denotes i to a reader of decimal numerals, without leading zeros, if and only if it is what the ring writes for i |
| RingPlacement.MembersAreTheJoined | libs/consistent-hash/src/ring.ts:79-95 | a node is a member exactly when the last change about it is a join |
| RingPlacement.NewcomerTakesItsPlaces | libs/consistent-hash/src/ring.ts:144-147 | a key that hashes to a place of a node that has just joined belongs to it, whoever was there before |
| RingPlacement.OwnerIsTheNextClockwise | libs/consistent-hash/src/ring.ts:101-109 | a key belongs to the first position at or after its hash, or to the first of all, and to nobody only in an empty ring |
| RingPlacement.NodesAreListedAsMet | libs/consistent-hash/src/ring.ts:113-127 | the list of `getNodes`, entry by entry: each is the owner of the first position, clockwise from the key, that no earlier entry owns |
| Ring.AddThenRemoveRestores | libs/consistent-hash/src/ring.ts:79-95 | adding an absent node and removing it gives the same array back |
| Ring.HistoriesDoNotMatter | libs/consistent-hash/src/ring.ts:79-95 | any two histories with the same collision-free membership end in the same array |
| Ring.SameMembersSameRing | libs/consistent-hash/src/ring.ts:59-62 | a sorted ring is determined by its collision-free membership |
| Ring.JoinOrderIsInvisibleIffNoCollision | libs/consistent-hash/src/ring.ts:144-147 | in any sorted ring, two nodes give the same ring in either join order if and only if they share no hash |
| Ring.HistoriesAgreeIffNoCollisions | libs/consistent-hash/src/ring.ts:54-95 | all join and leave histories that end in a membership end in the same array if and only if no two of its members share a hash |
| Ring.FallbacksAreDistinctMembers | libs/consistent-hash/src/ring.ts:113-127 | `getNodes` gives min(k, number of nodes) distinct members, led by `getNode` |
| Ring.WalkOrderAfterLeave | libs/consistent-hash/src/ring.ts:90-127 | after a node leaves, every key's list is the old one with that node dropped |
| Ring.FailoverGoesToTheSecondChoice | libs/consistent-hash/src/ring.ts:90-109 | a key of the node that left moves to its old second choice; no other key moves |
| Ring.OwnerLeadsTheWalk | libs/consistent-hash/src/ring.ts:101-109 | the owner is the head of the walk |
| Ring.SlotIndexIsTheModulus | libs/consistent-hash/src/ring.ts:120 | the wrap-around index is the modulus |
| Ring.ConsistentHashRing.AddNode | libs/consistent-hash/src/ring.ts:79-87 | adds an absent node's virtual nodes, changes nothing for a present one |
| Ring.ConsistentHashRing.RemoveNode | libs/consistent-hash/src/ring.ts:90-95 | removes exactly the node's positions |
| Ring.ConsistentHashRing.GetNode | libs/consistent-hash/src/ring.ts:101-109 | finds the first owner clockwise, or none in an empty ring |
| Ring.ConsistentHashRing.GetNodes | libs/consistent-hash/src/ring.ts:113-127 | finds the first k distinct owners clockwise |
| Ring.ConsistentHashRing.WalkFrom | libs/consistent-hash/src/ring.ts:118-126 | the loop with its wrap-around index and its set of nodes seen collects the first k distinct owners of any walk around the slots |
| Ring.ConsistentHashRing.LowerBoundOf | libs/consistent-hash/src/ring.ts:133-142 | the binary search finds the smallest index at or after the hash |
| Ring.ConsistentHashRing.InsertSorted | libs/consistent-hash/src/ring.ts:144-147 | the splice keeps the array sorted |
| Positions.SortedIsCanonical | libs/consistent-hash/src/ring.ts:59-60 | two sorted arrays with the same collision-free contents are equal |
| Positions.ClockwiseWithout | libs/consistent-hash/src/ring.ts:93 | filtering a node out of the array drops it from every clockwise walk |
| ReplicaOwnership.BuildReplicaRing | services/matcher/src/location-consumer.ts:6-11 | the loop builds the ring of the listed replicas |
| ReplicaOwnership.HandleLocation | services/matcher/src/location-consumer.ts:13-18 | a message is processed if and only if it has a value and a key whose owner is this replica |
| ReplicaOwnership.BuildWithoutIsRemove | services/matcher/src/location-consumer.ts:6-11 | building without a replica is building with it and removing it |
| ReplicaOwnership.StableKeysHaveOneProcessor | services/matcher/src/location-consumer.ts:13-18 | in any mix of old and new views, a key not owned by the replica rolled out is processed by its owner alone |
| ReplicaOwnership.MovingKeysProcessors | services/matcher/src/location-consumer.ts:13-18 | exactly who processes a key that it owned |
| ReplicaOwnership.NoDoubleProcessing | services/matcher/src/location-consumer.ts:13-18 | no two other replicas ever process the same key |
| ReplicaOwnership.SameOrderListsAreMixed | services/matcher/src/location-consumer.ts:6-11 | replicas started from one list, some with a name struck out, form such a mix, collisions or not |
| ReplicaOwnership.AnyOrderListsAreMixed | services/matcher/src/location-consumer.ts:6-11 | without collisions the lists may be in any order |
| TokenBucket.TokensStayWithin | libs/ratelimiter/src/bucket.ts:67-92 | tokens stay in [0, burst] over any trace, whatever the clock does |
| TokenBucket.TokensAreConserved | libs/ratelimiter/src/bucket.ts:73-79 | admissions plus what is left never exceed what was there plus the refill |
| TokenBucket.TakesAtOneInstant | libs/ratelimiter/src/bucket.ts:74-89 | of any number of takes at one instant exactly as many are admitted as there are whole tokens on hand, and the rest stays |
| TokenBucket.RateBound | libs/ratelimiter/src/bucket.ts:67-92 | over any stretch of any trace at most the burst plus the refill of the time that passed forwards is admitted |
| TokenBucket.LossyRateBound | libs/ratelimiter/src/bucket.ts:67-92 | a key whose state is lost k times within a stretch is admitted at most 1 + k bursts plus the refill in it |
| TokenBucket.ForwardIsTheSpan | libs/ratelimiter/src/bucket.ts:73 | that time is at least last minus first, and equal to it if and only if the clock never steps back |
| TokenBucket.PromiseDecidesOneTake | libs/ratelimiter/src/bucket.ts:83-91 | after a denial promising r, a take at any clock reading is allowed if and only if it reads at least r later |
| TokenBucket.RetryPromiseIsExact | libs/ratelimiter/src/bucket.ts:83-91 | for any clock: after a denial promising r, all probes are denied if and only if the forward time up to the last of them is less than r, and then a further take is allowed if and only if the forward time up to it is at least r |
| TokenBucket.RetryPromiseInTimeOrder | libs/ratelimiter/src/bucket.ts:83-91 | for a clock that never steps back: the probes are denied if and only if all come before the promised time, and a further take is then allowed if and only if it does not |
| TokenBucket.NeverIsExact | libs/ratelimiter/src/bucket.ts:83-91 | without a refill the promise is infinite and exact: after a denial no take is allowed on any clock |
| TokenBucket.ProbesNeverChangeLaterDecisions | libs/ratelimiter/src/bucket.ts:83-91 | with a clock that never steps back over them, denied probes never change any later decision |
| TokenBucket.ProbesAreInvisibleIff | libs/ratelimiter/src/bucket.ts:67-92 | for any clock: denied probes leave the next decision and the stored state the same if and only if no more time passed forwards with them than without, or the bucket would be full |
| TokenBucket.SmallBurstNeverAdmits | libs/ratelimiter/src/bucket.ts:56-58 | a burst below one admits nothing, ever |
| TokenBucket.AdmitsIffATokenFits | libs/ratelimiter/src/bucket.ts:56-58 | some trace admits something if and only if the burst is at least one |
| TokenBucket.SteppingBackEarnsTimeTwice | libs/ratelimiter/src/bucket.ts:73 | a concrete clock step whose forward time exceeds its span, so that a take is allowed before the promised time |
| TokenBucket.ForgettingIsInvisibleIffFull | libs/ratelimiter/src/bucket.ts:70-74 | losing a key's state leaves the next decision and the stored state the same if and only if the bucket would be full |
| TokenBucket.IdleBoundIsExact | libs/ratelimiter/src/bucket.ts:70-74 | after an idle time, dropping any bucket leaves the next decision and the stored state the same if and only if that time refills a burst |
| TokenBucket.IdleLossIsInvisible | libs/ratelimiter/src/bucket.ts:67-92 | over whole traces, losing state only after such idle times changes no decision |
| RedisBucket.RedisTokenBucketStore.Script | libs/ratelimiter/src/redis.ts:30-68 | at cost one the script decides and stores what `compute` does, with -1 for an infinite wait, and renews the expiry |
| RedisBucket.RedisTokenBucketStore.GetAndUpdate | libs/ratelimiter/src/redis.ts:89-115 | for any burst and rate, the decoded answer and the next state are those of `compute`, with the caller's clock for the refill and the server's for the expiry; other keys are untouched |
| RedisBucket.WaitsAreNeverNegative | libs/ratelimiter/src/redis.ts:112 | a finite wait is never negative, and zero exactly when allowed, so -1 is unambiguous |
| RedisBucket.ExpiryIsLoss | libs/ratelimiter/src/redis.ts:63-65 | with server and caller clocks that need not agree, the expiring store is the bucket with state lost at the expired takes |
| RedisBucket.ExpiryIsInvisible | libs/ratelimiter/src/redis.ts:63-65 | if the server's clock never gains more than `skew` on the callers' and a day less `skew` refills a burst, the expiring store decides every trace like one that never forgets |
| BucketMap.UpdateNeverExceedsMaxKeys | libs/ratelimiter/src/memory.ts:31-35 | an update keeps keys unique and at most `maxKeys` of them |
| BucketMap.JustUpdatedSurvives | libs/ratelimiter/src/memory.ts:51-63 | the key just updated survives if and only if it was present, the map had room, or some entry is not newer |
| BucketMap.InOrderUpdatesSurvive | libs/ratelimiter/src/memory.ts:51-63 | so updates in time order never evict the key they update |
| BucketMap.EachKeyHasItsOwnBucket | libs/ratelimiter/src/memory.ts:32-35 | while the keys fit, each key's state is that of a private bucket |
| BucketMap.EachKeyHasALossyBucket | libs/ratelimiter/src/memory.ts:32-63 | however many keys there are, each key's state is that of a private bucket that is lost where the key was evicted |
| BucketMap.IdleEvictionIsInvisible | libs/ratelimiter/src/memory.ts:51-63 | evicting keys only after an idle time that refills a burst is unobservable |
| MemoryStore.EveryInterleavingIsLinearised | libs/ratelimiter/src/memory.ts:25-49 | every interleaving of calls, callbacks and clean-ups is a sequential execution in which each key's updates run in call order, and every caller gets its sequential result |
| MemoryStore.OutstandingCallsFormOneChain | libs/ratelimiter/src/memory.ts:30-42 | the outstanding calls on a key form one chain in call order that ends at the chain head |
| MemoryStore.OldestOutstandingIsReady | libs/ratelimiter/src/memory.ts:30-31 | the oldest outstanding call on a key can always run |
| MemoryStore.CleanUpKeepsChain | libs/ratelimiter/src/memory.ts:45-48 | dropping a chain head never lets a later call overtake |
| MemoryStore.MapStaysBounded | libs/ratelimiter/src/memory.ts:51-63 | the map never exceeds `maxKeys` |
| MemoryStore.CallersGetLossyDecisions | libs/ratelimiter/src/memory.ts:25-63 | over every interleaving, the callers of a key get, in call order, the decisions of a private bucket lost at the key's evictions |
| MemoryStore.CallersGetPrivateDecisions | libs/ratelimiter/src/memory.ts:31-41 | over every interleaving in which the keys fit, they get the decisions of a bucket that is never lost |
| MemoryStore.ConcurrentCallersObeyTheRateBound | libs/ratelimiter/src/memory.ts:25-49 | over every interleaving and every stretch of a key's calls, at most one burst more than the key was evicted within the stretch, plus the refill, is admitted |
| MemoryStore.InMemoryTokenBucketStore.Begin | libs/ratelimiter/src/memory.ts:30-42 | the synchronous part issues the call behind the key's chain head |
| MemoryStore.InMemoryTokenBucketStore.Callback | libs/ratelimiter/src/memory.ts:31-41 | the callback runs the update and keeps the bound |
| MemoryStore.InMemoryTokenBucketStore.Finally | libs/ratelimiter/src/memory.ts:45-48 | the clean-up removes the head only if it is still this call's |
| MemoryStore.InMemoryTokenBucketStore.MaybeEvict | libs/ratelimiter/src/memory.ts:51-63 | the scan evicts the first entry with the oldest refill, if the map is too large |
| SurgeWindow.EveryRunMirrors | services/surge-worker/src/surge-engine.ts:53-84 | the ring read backwards is the unbounded log read backwards, for as many intervals as fit, wherever arrivals fall |
| SurgeWindow.TickReadsTheWindow | services/surge-worker/src/surge-engine.ts:70-73 | a tick reads exactly the last W intervals, the one it opens included |
| SurgeWindow.LogCountsArrivals | services/surge-worker/src/surge-engine.ts:66-67 | the log that the buffer is compared with adds up to the number of arrivals of the run |
| SurgeWindow.WindowPromise | services/surge-worker/src/surge-engine.ts:70-84 | with atomic ticks the sum read is the arrivals of the last max(1, W - 1) completed intervals |
| SurgeWindow.WindowHoldsIffTwoSlots | services/surge-worker/src/surge-engine.ts:70-84 | every tick of every run reads exactly the arrivals of the last max(1, W - 1) completed intervals and the one it opens, if and only if there are at least two slots |
| SurgeWindow.NextIsTheModulus | services/surge-worker/src/surge-engine.ts:71 | the next index is the modulus |
| SurgeWindow.OneSlotLosesArrivals | services/surge-worker/src/surge-engine.ts:82 | with one slot an arrival during a tick is lost |
| Surge.MultiplierStaysWholeCents | services/surge-worker/src/surge-engine.ts:101-109 | with a whole-cent cap the rule maps whole cents to whole cents, by the integer rule |
| Surge.RunsStayWholeCents | services/surge-worker/src/surge-engine.ts:70-84 | the same over any run of ticks |
| Surge.MultiplierStaysBounded | services/surge-worker/src/surge-engine.ts:101-109 | over any run, for any starting multiplier and cap of which the larger rounds down to cents, the multiplier stays in [1.00, max(initial, M)] |
| Surge.CapHoldsIffItRoundsDown | services/surge-worker/src/surge-engine.ts:101-109 | for every cap M of at least 1: every run from any multiplier in [1.00, M] stays in it, if and only if rounding M to cents does not raise it |
| Surge.WholeCentsRoundDown | services/surge-worker/src/surge-engine.ts:108 | in particular a cap of whole cents is never exceeded |
| Surge.CentsStayBounded | services/surge-worker/src/surge-engine.ts:101-109 | the same in integer cents: every run stays between 100 and the larger of start and cap |
| Surge.HighDemandReachesTheCap | services/surge-worker/src/surge-engine.ts:103-104 | from c cents it reaches M within ceil((100 M - c) / 10) high ticks |
| Surge.HighDemandBound | services/surge-worker/src/surge-engine.ts:103-104 | hence within max(1, ceil((100 M - 100) / 10)) from anywhere |
| Surge.LowDemandReachesOne | services/surge-worker/src/surge-engine.ts:105-106 | it reaches 1.00 within ceil((c - 100) / 3) low ticks |
| Surge.FractionalCapIsExceeded | services/surge-worker/src/surge-engine.ts:104-108 | the caps 1.055, which one tick exceeds, and 1.054, which rounds down, are on the two sides of that condition |
| Surge.WrittenMultipliersAreAccepted | apps/api/src/trips/trips.service.ts:391-404 | every value the worker writes is charged as written, from the cache or, whenever the cache has no number of at least 1.00, from the table; without either it is 1.00, and never less |
| Surge.FareIsMonotone | apps/api/src/trips/trips.service.ts:282-283 | the fare is monotone in distance, time and surge |
| Surge.FaresLieBetweenBaseAndCap | apps/api/src/trips/trips.service.ts:279-283 | after any demand the fare lies between the rounded base and the rounded base at the highest multiplier |
| Tariff.FareInWholeNumbers | apps/api/src/trips/trips.service.ts:282-283 | for all metres, hundredths of a minute and surge cents the fare is ((250000 + 80 m + 180 u) c + 50000) / 100000 cents |
| Tariff.CompletionChargesTheFare | apps/api/src/trips/trips.service.ts:276-321 | the completed row and its event hold that number |
| Tariff.RatioInWholeNumbers | services/surge-worker/src/surge-engine.ts:74-76 | the demand ratio is above or below a threshold exactly when the requests are above or below it times the drivers, at least one |
| Tariff.OneTick | services/surge-worker/src/surge-engine.ts:99-108 | what one tick makes of a multiplier, in whole cents: a tenth more up to the cap, three hundredths less down to 1.00, or nothing |
| Surge.SurgeEngine.LoadZones | services/surge-worker/src/surge-engine.ts:39-51 | one fresh buffer per row with the stored multiplier |
| Surge.SurgeEngine.OnTripEvent | services/surge-worker/src/surge-engine.ts:61-67 | records the arrival in its zone's current slot and changes no other zone |
| Surge.SurgeEngine.Tick | services/surge-worker/src/surge-engine.ts:70-84 | advances every zone's buffer by one tick, updates and writes every multiplier |
| Surge.SurgeEngine.AdvanceIndex | services/surge-worker/src/surge-engine.ts:71 | starts the tick of every zone's buffer |
| Surge.SurgeEngine.CountRequests | services/surge-worker/src/surge-engine.ts:73 | the loop over the slots is the sum of the ticking buffer, whatever arrived since the tick began |
| Surge.SurgeEngine.UpdateMultiplier | services/surge-worker/src/surge-engine.ts:74-81 | sets one zone's multiplier by the rule and leaves counts and other zones alone |
| Surge.SurgeEngine.ClearNextSlot | services/surge-worker/src/surge-engine.ts:82 | ends the tick of one zone's buffer and leaves the others alone |
| Surge.SurgeEngine.FlushToDb | services/surge-worker/src/surge-engine.ts:86-99 | writes every zone's multiplier, in order |
| Rating.CountIsExact | db/migrations/0004_trip_ratings.sql:24-29 | the count is the number of ratings |
| Rating.AverageStaysInRange | db/migrations/0004_trip_ratings.sql:24-29 | from the first rating on the average is in [1.00, 5.00] |
| Rating.DriftIsBounded | db/migrations/0004_trip_ratings.sql:24-29 | after n ratings the stored average is within 0.0025 (n + 1) of the exact mean, and a little less |
| Rating.SmallMovesAreLost | db/migrations/0004_trip_ratings.sql:25 | a rating leaves the stored average where it is if and only if the exact move is at least minus half and less than half a hundredth |
| Rating.AverageFreezes | db/migrations/0004_trip_ratings.sql:24-34 | from the 800th valid rating on the stored average never changes |
| Rating.FrozenIffEightHundred | db/migrations/0004_trip_ratings.sql:24-34 | after any n valid ratings no further one can move the average, if and only if n is at least 800 |
| Rating.AlwaysExactIffRepresentable | db/migrations/0004_trip_ratings.sql:24-29 | the stored average is the exact mean after every rating if and only if after every rating that mean is a whole number of hundredths |
| Rating.SevenRatingsDrift | db/migrations/0004_trip_ratings.sql:24-29 | seven ratings whose stored average is 1.15 while their mean rounds to 1.14 |
| Rating.RoundedIffTheErrorFits | db/migrations/0004_trip_ratings.sql:24-29 | after one more rating the stored average is the rounded exact mean if and only if the error carried so far does not push the new mean over a value at which its rounding changes |
| Labels.ThreePassesAreOne | apps/api/src/metrics/metrics.service.ts:164-166 | the three replacements equal one pass over the characters |
| Labels.SerialiseIsInvertible | apps/api/src/metrics/metrics.service.ts:150-155 | for names without the text `="`, a parser gives the label map back |
| Labels.SeriesKeysAreDistinct | apps/api/src/metrics/metrics.service.ts:150-155 | two such label sets share a series if and only if they are equal |
| Labels.ParseIsExact | apps/api/src/metrics/metrics.service.ts:150-155 | the parser is exactly the inverse: a text parses to a list if and only if it is the list's print and its names are free of `="` |
| Labels.NamesAreInOrder | apps/api/src/metrics/metrics.service.ts:151 | the names are printed in the order of their characters, each once |
| LabelCollisions.NameImitatesIffItReadsAsLabels | apps/api/src/metrics/metrics.service.ts:150-155 | beside names free of `="`, a name can make a label set print like one in which it does not occur, if and only if it reads as the beginning of a printed label list: a name, `="`, and an escaped value that stays open, or closes before a comma and a greater name that is clean or reads so in turn |
| LabelCollisions.NameCollidesIffItReadsBesideItself | apps/api/src/metrics/metrics.service.ts:150-155 | beside names free of `="`, and with the name allowed in both sets: it can make two different label sets print alike if and only if it reads as such a list in which, after a comma, the name itself may begin anew, the rest of it reading on from there |
| LabelCollisions.OddNameCollides | apps/api/src/metrics/metrics.service.ts:150-155 | for every value y, the name `u=",v=",u=",v` occurs in two different sets that print alike, though it does not read as labels without itself |
| LabelPrints.SeparateSeriesAreDistinct | apps/api/src/metrics/metrics.service.ts:150-155 | for any names: if no name of the two sets, followed by `="`, begins another of them, the sets share a series if and only if they are equal |
| LabelPrints.CleanNamesAreSeparate | apps/api/src/metrics/metrics.service.ts:153 | names free of `="` are a special case |
| LabelCollisions.TwoLabelsPrintLikeOne | apps/api/src/metrics/metrics.service.ts:153 | any two labels, whatever their names, print like a single one whose name spells the first of them out |
| Labels.WithLeAddsOneLabel | apps/api/src/metrics/metrics.service.ts:157-162 | `withLe` parses to the same labels followed by the bound |
| Labels.WithLeSetsTheBound | apps/api/src/metrics/metrics.service.ts:157-162 | as a map: the same labels with `le` set |
| Metrics.ObserveDescribes | apps/api/src/metrics/metrics.service.ts:49-62 | if a histogram describes a list of observations, it describes the longer list after one more |
| Metrics.BucketsAreCumulative | apps/api/src/metrics/metrics.service.ts:57-61 | bucket counts never decrease with the bound and never exceed the count |
| Metrics.BucketsByBound | apps/api/src/metrics/metrics.service.ts:20 | the eleven counts by their bounds in seconds |
| Metrics.RenderSeries | apps/api/src/metrics/metrics.service.ts:110-115 | one line per bound, then `+Inf` and the count, with the right labels and values |
| Metrics.BucketLinesAreDistinct | apps/api/src/metrics/metrics.service.ts:111-114 | unless one name and `="` begin another, two bucket lines have the same labels if and only if they are the same line of the same series |
| Metrics.MetricsService.Inc | apps/api/src/metrics/metrics.service.ts:38-42 | adds to this label set's counter; a counter of another metric never changes, nor that of another label set unless one name and `="` begin another |
| Metrics.MetricsService.ObserveHistogram | apps/api/src/metrics/metrics.service.ts:49-62 | every histogram keeps describing exactly the observations made under labels that print like its own, which are its own labels unless one name and `="` begin another |
| Metrics.MetricsService.CountUp | apps/api/src/metrics/metrics.service.ts:57-61 | the loop raises exactly the buckets whose bound is at least the value |

## Left out

- The web app, HTTP routing, DTO decorators, guards, health checks, telemetry, containers: no property of this kind.
- JWT and password hashing: foreign cryptography.
- PostGIS: zone lookup, distances and the candidate list are arbitrary inputs; positions are only "stored" or not.
- Floating point and the printing of numbers: amounts, tokens and averages are exact; `sumS` is not modelled.
- Statistical claims about the ring (share of keys moved, balance): the exact statements are proved instead.
- PostgreSQL isolation and deadlocks: each transaction is one atomic step in commit order, and ids follow that order; row locks appear only where `SKIP LOCKED` matters.
- Kafka retries inside one `send`: a send stores at most one copy. Order in the broker is claimed for one publisher without failures only.
- Rows that `0005_trip_events_outbox.sql` marks published without sending: the outbox starts empty.
- A failing `connect` before the flush's `try`, which would leave the `outboxRunning` flag up: assumed to succeed.
- A matcher that fails between the commit of a match and the removal from the set is a crash in `Deployment`, not in `TripServices`, whose methods run uninterrupted.
- Event payload fields beyond those listed in `Trips.EventKind` (distance, duration, surge of a completed trip), addresses, comments and timestamps; the request body is opaque. `fare_records` repeats values of the trip row.
- The `expired` trip status and the setting of `suspended`: no code path reaches them.
- Vehicle management, driver registration details, cron jobs, migrations and exports: a vehicle change and a registration are single transactions.
- Ticks of the surge worker that overlap, and ticks that fail half-way: ticks follow one another.
- Rejected promises in the in-process store: `compute` does not throw.
- The `remaining` count returned by `take`: the floor of the tokens proved here.
- Gauges, and the HELP and TYPE lines of the exposition; the registry's two levels of maps are one map keyed by metric name and printed labels.
- Ring.ConsistentHashRing.AddNode: array and set are fields of value type that methods reassign, so aliasing of the internal array is not modelled.
- HashVectors.VectorHello: of the five documented Murmur3 vectors the four short ones are worked out; the fifth, a sentence of 43 characters, takes the same block step ten times.
- Lua's string formatting of numbers in the Redis script.
- Outbox.PickIsAvailable: rows are numbered in commit order, so a sequence number taken by a transaction that commits late is not modelled.
- OutboxStarvation.SentIffFewerThanABatchRefused: the broker answers each row the same way every time, and other publishers hold still; under interleaving and changing answers the accounting of `OutboxSafety` is what holds.
- Surge.SurgeEngine.Tick: runs without arrivals between its parts; the parts are methods of their own, and `SurgeWindow` interleaves arrivals with them.
- LabelCollisions.NameCollidesIffItReadsBesideItself: speaks of one name containing `="`, in either or both sets; for several different ones only the sufficient condition of `SeparateSeriesAreDistinct` is proved.
- Labels.SeriesKeysAreDistinct: names are ordered by code point, where the source orders them by UTF-16 code unit; the two differ only beyond U+FFFF.
