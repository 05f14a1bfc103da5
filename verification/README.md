# Verified model of the ROS portal

Dafny models of the parts of the LiveKit ROS portal whose behaviour is hardest to see from one
function: the protocols between threads, the state that several operations must keep consistent, the
graph walks, and the conversions of bytes, images and rotations. `dafny verify dfyconfig.toml` checks
all of them. Every module states what its source does as functions, proves its methods against them,
and proves what the program is for about those functions.

| file | what it models |
|---|---|
| `LatchedStore.dfy`, `LatchedProtocol.dfy`, `LatchedProgress.dfy` | the latched-state store and the push-with-ack protocol: class methods for each region under `state_mutex_`, then all interleavings of store callbacks with one push worker, then when pushing stops |
| `ConnectionManager.dfy`, `SessionBarrier.dfy` | connection states, retry clock and session barrier, with `poll` cut at `try_connect` so that any callback may run in between; then the same transitions at the grain of single writes |
| `SchemaManager.dfy` | define-once schema registration for any number of threads with a condition variable |
| `TopicForwarder.dfy`, `RateCap.dfy`, `GraphManager.dfy`, `GraphEvents.dfy` | outbound subscriptions, their grace period and rate cap; the discovery worker's wait and rounds; the worker beside graph changes and readers of its cache |
| `SchemaRenderer.dfy`, `InterfaceShow.dfy`, `ConfigOrdering.dfy` | the depth-bounded definition walk, the cycle-cutting interface renderer, the dependency ordering of the config generator |
| `StampBuffer.dfy`, `KeyframeTracker.dfy`, `Transforms.dfy`, `RotationAxes.dfy` | the time-horizon buffer, the keyframe bookkeeping, quaternion and rotation matrix conversion over exact reals |
| `Base64.dfy`, `ImageFrame.dfy`, `VideoHeader.dfy` | Base64, image repacking into a reused frame, and the video header from sender to receiver |
| `Spacing.dfy`, `Optional.dfy` | counting events that are a minimum distance apart; the option type |

Calls into the LiveKit SDK, ROS and the file system are inputs of a step: an RPC succeeds or fails
(no answer counts as failed), a connection attempt ends connected or not, `define_schema` succeeds or
not, creating a subscription returns or throws. Clock readings, publisher counts and the interface
files are inputs too. Content hashes and schema hashes are abstract values compared for equality.
Square roots are parameters with the property that defines them.

## What the proofs found

- The failure cap does not bound the pushes to a peer by itself. A store that lands while a cycle runs
  re-arms the peer, and if the cycle then delivers its stale messages the peer can still be pushed to
  up to the cap. Once nothing is stored and the roster is stable, the cap is exceeded, by one, in some
  run exactly when the running cycle still owes the peer a push that is stale and has not failed
  (`CapExceededIff`, with a concrete run in `StaleCycleCostsOneMore`); `BudgetIsExact` gives the exact
  maximum in every reachable state.
- The branch for a participant that left during a push (`latched_topic_forwarder.cpp:331-333`) is
  unreachable while the push worker is the only one to change the roster (`CommitOutcome`).
- `subscribeVideoTopic` catches `std::exception` only. Any other exception leaves an image state
  without a subscription, which the data path avoids (`StepKeepsAgreement` gives the exact condition,
  `NonStandardExceptionLeavesImageState` an input).
- `docs/design/architecture.md:50-54` says that subscriptions are reconciled after each graph event and
  removed once their publishers have been absent for 30 seconds. The worker reconciles only when the
  topics' names and types have changed (`graph_manager.cpp:144-150`), only a reconciliation notes that
  publishers are absent, and the portal's own subscription keeps a topic's name in the graph. So a
  subscription whose publisher leaves stays until some other name or type changes
  (`AbandonedIsRemovedIff`; a run that never removes it in `UnchangedGraphKeepsSubscription`). The end of a
  room session replaces the forwarder by an empty one (`ros_portal.cpp:398`, `ros_portal.cpp:468`) and leaves
  the snapshot applied last; after a reconnection nothing is subscribed until names or types differ from it
  (`FreshForwarderNeedsNewSnapshot`).
- A connection transition changes the state first and the session barrier later. With each transition as
  one step the barrier always agrees with the state (`BarrierTracksState`). At the grain of single writes
  it is bound to end up right exactly when no transition changes what the barrier should say while a write
  is pending (`BarrierIsRightIff`). `connection_manager.hpp:42-45` promises that operations are enabled only
  after a successful transition and that waiters never hang: a `stop()` inside a join or a connection loss
  can leave operations enabled (`EnabledAfterStop`) or both flags false (`AsleepAfterStop`), until it is
  called again.
- `object_dependencies` looks through one level of arrays. An array of arrays of objects hides its
  dependency (`DependenciesAreAllMentions`, `NestedArrayIsMissed`), and then a definition can come before
  one it mentions; `MentionsFirstIff` says exactly when it cannot.
- The Base64 decoder accepts texts whose unused trailing bits are not zero; those are exactly the
  texts that re-encoding does not give back (`CanonicalIff`; "QR==" in `StrayBitsAreAccepted`).
- A stamp with negative seconds is still restored when its nanoseconds reach past the epoch; the
  exact condition is on the sum (`StampRestoredIff`; one stamp in `NegativeSecondsRestored`).

## Model

| member | source | states |
|---|---|---|
| `LatchedStore.LatchedTopicForwarder.IsDuplicate` | src/ros_portal/src/latched_topic_forwarder.cpp:227-233 | true exactly when a retained message has this hash |
| `LatchedStore.LatchedTopicForwarder.CommitMessage` | src/ros_portal/src/latched_topic_forwarder.cpp:252-268 | a new message is appended, the oldest are evicted down to the bound, the version goes up by one and every peer is re-armed; a duplicate changes nothing; the hash index stays exact |
| `LatchedStore.LatchedTopicForwarder.EvictOldest` | src/ros_portal/src/latched_topic_forwarder.cpp:259-262 | leaves the newest `max_stored_messages` messages in order, with their hashes as index |
| `LatchedStore.LatchedTopicForwarder.RearmParticipants` | src/ros_portal/src/latched_topic_forwarder.cpp:265-268 | every failure count becomes zero and nothing else changes |
| `LatchedStore.LatchedTopicForwarder.ReconcileRoster` | src/ros_portal/src/latched_topic_forwarder.cpp:350-364 | the roster becomes exactly the given identities; a peer that stays keeps its bookkeeping, a newcomer starts with version and failures zero |
| `LatchedStore.LatchedTopicForwarder.StartCycle` | src/ros_portal/src/latched_topic_forwarder.cpp:295-311 | the cycle gets a snapshot of store and version, and each peer that is behind and below the failure cap exactly once |
| `LatchedStore.LatchedTopicForwarder.SettlePeer` | src/ros_portal/src/latched_topic_forwarder.cpp:329-346 | the bookkeeping after one peer's push; a peer that is not on the roster is skipped |
| `LatchedStore.CommitKeepsIndex` | src/ros_portal/src/latched_topic_forwarder.cpp:257-262 | a commit keeps the retained hashes distinct and equal to the index |
| `LatchedProtocol.RunPreservesInv` | src/ros_portal/src/latched_topic_forwarder.cpp:217-364 | the protocol invariant (store is the tail of the log, peers and worker sound) holds after every interleaving of stores, cycle starts, RPC results and per-peer commits |
| `LatchedProtocol.StoreIsTheTailOfTheLog` | src/ros_portal/src/latched_topic_forwarder.cpp:227-267 | in every reachable state the retained messages are the last min(version, bound) entries of the store log in order, and every stored payload is at most 15 KiB |
| `LatchedProtocol.IndexIsTheRetainedHashes` | src/ros_portal/src/latched_topic_forwarder.cpp:257-262 | in every reachable state the retained hashes are pairwise distinct and are exactly `message_hashes_` |
| `LatchedProtocol.DeliveredMeansAcknowledged` | src/ros_portal/src/latched_topic_forwarder.cpp:287-348 | a retained message with a store version at most a peer's `delivered_version` was acknowledged by that peer since its roster entry was created; `delivered_version` never exceeds `version_` |
| `LatchedProtocol.UpToDatePeerHoldsEverything` | src/ros_portal/src/latched_topic_forwarder.cpp:304-337 | a peer whose `delivered_version` equals `version_` has acknowledged every retained message |
| `LatchedProtocol.AcksComeFromRpcs` | src/ros_portal/src/latched_topic_forwarder.cpp:315-327 | the acknowledgement log grows only by a successful RPC to that peer carrying that very message |
| `LatchedProtocol.FailuresNeverExceedCap` | src/ros_portal/src/latched_topic_forwarder.cpp:306-346 | `consecutive_failures` never exceeds the cap, even when a store resets it in mid-cycle |
| `LatchedProtocol.CommitOutcome` | src/ros_portal/src/latched_topic_forwarder.cpp:329-346 | a success raises `delivered_version` to the version of the cycle and clears the count, a failure adds one to the count, no other peer changes, the cycle goes on with the next target, and the branch for a peer that left mid-push is never taken with one worker |
| `LatchedProtocol.StoreCheckOutcome` | src/ros_portal/src/latched_topic_forwarder.cpp:217-250 | a message goes on to be stored exactly when the room is there, no retained message has its hash and its payload is at most 15 KiB |
| `LatchedProtocol.StoreCommitOutcome` | src/ros_portal/src/latched_topic_forwarder.cpp:252-268 | new content becomes the newest entry of log and store and every peer keeps what it has and gets another chance; content that is held changes nothing |
| `LatchedProtocol.CycleStartOutcome` | src/ros_portal/src/latched_topic_forwarder.cpp:293-364 | in every reachable state a cycle starts with exactly the identities in the room: who stayed keeps bookkeeping and acknowledgements, a newcomer has none |
| `LatchedProtocol.CycleTargets` | src/ros_portal/src/latched_topic_forwarder.cpp:300-311 | a cycle pushes the whole store to exactly the present peers that are behind and below the cap, so with anything retained to every newcomer |
| `LatchedProtocol.RpcOutcome` | src/ros_portal/src/latched_topic_forwarder.cpp:315-327 | a success is acknowledged and leads to the next message, a failure ends the push to that peer |
| `LatchedProgress.QuietRunAttempts` | src/ros_portal/src/latched_topic_forwarder.cpp:306-346 | with no store and a stable roster, attempts plus the budget left never exceed the budget at the start |
| `LatchedProgress.BudgetIsReached` | src/ros_portal/src/latched_topic_forwarder.cpp:295-347 | from every state that satisfies the invariant some quiet run of the worker spends exactly the budget |
| `LatchedProgress.BudgetIsExact` | src/ros_portal/src/latched_topic_forwarder.cpp:306-346 | in every reachable state the budget is exactly the largest number of further push attempts a peer can get with no store and a stable roster |
| `LatchedProgress.PushingStops` | src/ros_portal/src/latched_topic_forwarder.cpp:306-346 | with no store and a stable roster a peer gets at most `max_participant_failures` further attempts, plus one if the running cycle still owes it a stale push that has not failed |
| `LatchedProgress.CapExceededIff` | src/ros_portal/src/latched_topic_forwarder.cpp:264-347 | some quiet run exceeds `max_participant_failures` attempts exactly when the running cycle still owes the peer a push that a later store has made stale and that has not failed |
| `LatchedProgress.StaleCycleCostsOneMore` | src/ros_portal/src/latched_topic_forwarder.cpp:264-347 | a concrete reachable run in which the cap is exceeded |
| `LatchedProgress.CyclePushesExactlyToBudgets` | src/ros_portal/src/latched_topic_forwarder.cpp:300-311 | a new cycle pushes to a peer exactly when its budget is not spent |
| `LatchedProgress.SpentBudgetMeansSettled` | src/ros_portal/src/latched_topic_forwarder.cpp:301-309 | between cycles a peer has no budget exactly when nothing is retained, it is up to date, or it is given up |
| `ConnectionManager.ConnectionManager.PollBegin` | src/ros_portal/src/connection/connection_manager.cpp:82-107 | the part of `poll` before `try_connect`: whether an attempt starts, and the state, clock and barrier it leaves |
| `ConnectionManager.ConnectionManager.PollEnd` | src/ros_portal/src/connection/connection_manager.cpp:114-128 | the part of `poll` after `try_connect`, whatever callbacks did in between |
| `ConnectionManager.ConnectionManager.OnConnectionStateChanged` | src/ros_portal/src/connection/connection_manager.cpp:142-156 | on Reconnecting only Connected changes, to Reconnecting with operations disabled; on Connected only Reconnecting changes, to Connected with operations enabled; on Disconnected every state with a session becomes WaitingForRoomEos with the session closed and waiters notified; nothing else changes |
| `ConnectionManager.ConnectionManager.TransitionToReconnecting` | src/ros_portal/src/connection/connection_manager.cpp:173-179 | only from Connected; operations are disabled, waiters keep waiting |
| `ConnectionManager.ConnectionManager.TransitionToReconnected` | src/ros_portal/src/connection/connection_manager.cpp:181-187 | only from Reconnecting; operations are enabled and waiters notified |
| `ConnectionManager.ConnectionManager.TransitionToDisconnected` | src/ros_portal/src/connection/connection_manager.cpp:189-210 | Connecting, Connected and Reconnecting become WaitingForRoomEos with the session closed; the other states stay |
| `ConnectionManager.ConnectionManager.OnRoomEos` | src/ros_portal/src/connection/connection_manager.cpp:212-225 | every state but Stopped becomes Disconnected; the session is closed if it was not |
| `ConnectionManager.ConnectionManager.StopConnection` | src/ros_portal/src/connection/connection_manager.cpp:244-247 | Stopped with the session closed |
| `ConnectionManager.RunPreservesInv` | src/ros_portal/src/connection/connection_manager.cpp:82-277 | barrier, retry clock, attempts and waiters stay consistent over every interleaving of one poller, callbacks and waiting threads |
| `ConnectionManager.BarrierTracksState` | src/ros_portal/src/connection/connection_manager.cpp:82-277 | operations are enabled exactly in Connected; the session is closed exactly in Disconnected, WaitingForRoomEos and Stopped |
| `ConnectionManager.NoWaiterHangs` | src/ros_portal/src/connection/connection_manager.cpp:136-140 | a thread sleeps in `waitForOperations` only while Connecting or Reconnecting: no wake-up is lost |
| `ConnectionManager.WaiterLeavesWithTheState` | src/ros_portal/src/connection/connection_manager.cpp:136-140 | a woken thread leaves unless a join is pending, and the value it returns says whether the state is Connected |
| `ConnectionManager.AttemptsPerWindow` | src/ros_portal/src/connection/connection_manager.cpp:85-98 | any two attempts start at least `kRetryInterval` apart, so a window of width T holds at most T / interval + 1 |
| `ConnectionManager.NoAttemptBeforeRoomEos` | src/ros_portal/src/connection/connection_manager.cpp:82-225 | from WaitingForRoomEos no attempt starts until the room's event stream ends |
| `ConnectionManager.StoppedIsFinal` | src/ros_portal/src/connection/connection_manager.cpp:244-247 | Stopped is never left, no attempt starts after it and nobody sleeps at the barrier |
| `ConnectionManager.PollRetriesAfterInterval` | src/ros_portal/src/connection/connection_manager.cpp:85-98 | a poll starts an attempt exactly when Disconnected and the interval since the last attempt has passed |
| `ConnectionManager.ReportedDisconnectEndsSession` | src/ros_portal/src/connection/connection_manager.cpp:142-210 | a reported disconnect closes the session, wakes everybody at the barrier and lets no attempt start in any run until the room's event stream has ended |
| `ConnectionManager.ReportedReconnect` | src/ros_portal/src/connection/connection_manager.cpp:142-187 | a reported loss and recovery stops operations in between and restores the manager, with the waiters of the gap woken |
| `ConnectionManager.AttemptOutcome` | src/ros_portal/src/connection/connection_manager.cpp:114-128 | an attempt ends Connected with operations enabled exactly when it succeeded and no callback changed the state meanwhile |
| `ConnectionManager.RoomEndAllowsRetry` | src/ros_portal/src/connection/connection_manager.cpp:82-225 | after the end of the room's event stream a poll one interval after the last attempt starts the next, in every state but Stopped |
| `SessionBarrier.FinishesRightIff` | src/ros_portal/src/connection/connection_manager.cpp:114-277 | at the grain of single writes: every order of the pending barrier writes leaves the barrier agreeing with the state exactly when each pending write makes it right, or none is pending and it is right |
| `SessionBarrier.BarrierIsRightIff` | src/ros_portal/src/connection/connection_manager.cpp:82-277 | all along a run the barrier is bound to end up right exactly when no transition changes what it should say while a thread still owes an earlier barrier write |
| `SessionBarrier.EnabledAfterStop` | src/ros_portal/src/connection/connection_manager.cpp:121-247 | a reachable Stopped state in which nothing is pending and operations stay enabled |
| `SessionBarrier.AsleepAfterStop` | src/ros_portal/src/connection/connection_manager.cpp:173-277 | a reachable Stopped state in which nothing is pending and both barrier flags stay false, so that a waiting thread sleeps |
| `SessionBarrier.UninterruptedIsApply` | src/ros_portal/src/connection/connection_manager.cpp:82-247 | each step of the coarser model is the uninterrupted sequence of its single writes |
| `SchemaManager.SameKeyIffSameId` | src/ros_portal/src/schema/manager.cpp:40-53 | two calls share a cache key exactly when they would define the same schema ID |
| `SchemaManager.DedupeKeyInjective` | src/ros_portal/src/schema/manager.cpp:51-53 | the key determines type and encoding label, labels having no newline |
| `SchemaManager.PrepareOutcome` | src/ros_portal/src/schema/manager.cpp:96-141 | which requests are refused before the lock, and the schema ID and text of the others |
| `SchemaManager.SchemaManager.LookUp` | src/ros_portal/src/schema/manager.cpp:147-162 | one pass under the lock: reserve a key that is not there, return a schema defined with this hash, wait for one in flight, refuse another hash |
| `SchemaManager.SchemaManager.Publish` | src/ros_portal/src/schema/manager.cpp:178-186 | the reserved entry becomes defined or is erased |
| `SchemaManager.RunPreservesInv` | src/ros_portal/src/schema/manager.cpp:143-196 | reservations, definitions, results and sleepers stay consistent for any number of threads |
| `SchemaManager.UndefinedEntryIffOneDefiner` | src/ros_portal/src/schema/manager.cpp:143-187 | an undefined entry exists for a key exactly while one thread, and no other, is defining it |
| `SchemaManager.PublisherFindsItsEntry` | src/ros_portal/src/schema/manager.cpp:178-186 | the look-up after a definition always finds the thread's own reserved entry |
| `SchemaManager.DefinedAtMostOnce` | src/ros_portal/src/schema/manager.cpp:165-186 | at most one definition per key ever succeeds |
| `SchemaManager.SuccessesShareOneHash` | src/ros_portal/src/schema/manager.cpp:154-159 | all successful returns for a key share the hash of its one definition |
| `SchemaManager.LookUpOutcome` | src/ros_portal/src/schema/manager.cpp:147-162 | in every reachable state a thread at the lock returns the schema if its key was defined with its hash, returns nothing if it was defined or is being defined with another, sleeps if it is being defined with the same, and otherwise becomes the one to define it |
| `SchemaManager.DefineOutcome` | src/ros_portal/src/schema/manager.cpp:165-186 | a definition is logged and published exactly when it succeeded; otherwise the key is free again |
| `SchemaManager.NotifyOutcome` | src/ros_portal/src/schema/manager.cpp:187-196 | the notifier returns the schema exactly when its definition succeeded, and every sleeper looks again |
| `SchemaManager.FirstCallDefines` | src/ros_portal/src/schema/manager.cpp:143-196 | a call for a key nobody has defined or is defining defines it with its own hash and returns the schema exactly when that succeeds |
| `SchemaManager.LaterCallReturns` | src/ros_portal/src/schema/manager.cpp:147-162 | a call for a schema that is defined returns it exactly when the hashes agree |
| `SchemaManager.NoLostWakeUp` | src/ros_portal/src/schema/manager.cpp:158-187 | a sleeping thread always has an active definer of its key or a notification on its way |
| `SchemaManager.SomeCallProgresses` | src/ros_portal/src/schema/manager.cpp:143-196 | while calls are active some thread can take a step, spurious wake-ups aside |
| `SchemaManager.EveryCallReturns` | src/ros_portal/src/schema/manager.cpp:143-196 | with n active calls and no new ones every run has at most 3 n (n + 1) / 2 steps, and four more for each spurious wake-up, and it can go on without one exactly while some call is active: every call returns |
| `RateCap.AdmittedSpaced` | src/ros_portal/src/topic_forwarder.cpp:306-320 | while the clock does not go back, admitted samples are at least one period apart, whatever the state was before |
| `RateCap.AdmittedPerWindow` | src/ros_portal/src/topic_forwarder.cpp:306-320 | after any earlier samples, clock jumps included, while the clock does not go back a window of width W admits at most W / period + 1 samples |
| `RateCap.NeverStalls` | src/ros_portal/src/topic_forwarder.cpp:308-319 | whatever the clock did before, a sample one period after all earlier ones is admitted |
| `RateCap.RecoversOnePeriodAfterJump` | src/ros_portal/src/topic_forwarder.cpp:309-317 | after a jump back, samples within one period are dropped and the first one after it is admitted |
| `TopicForwarder.TopicForwarder.MarkPublishers` | src/ros_portal/src/topic_forwarder.cpp:185-201 | each subscription records since when it has had no publisher |
| `TopicForwarder.TopicForwarder.CreateSubscriber` | src/ros_portal/src/topic_forwarder.cpp:272-280 | raw and compressed images get an image state with or without JPEG decoding, every other type a data state; a topic that is subscribed is left alone |
| `TopicForwarder.TopicForwarder.CreateDataSubscriber` | src/ros_portal/src/topic_forwarder.cpp:351-394 | a data topic gets a state with its configured period and a subscription, or neither whatever was thrown |
| `TopicForwarder.TopicForwarder.SubscribeVideoTopic` | src/ros_portal/src/topic_forwarder.cpp:494-529 | an image topic gets state and subscription, or neither if std::exception was thrown; other exceptions leave the state |
| `TopicForwarder.TopicForwarder.ReapExpiredSubscriptions` | src/ros_portal/src/topic_forwarder.cpp:226-254 | removes exactly the expired subscriptions with their state and reports whether any was removed |
| `TopicForwarder.TopicForwarder.NextExpiryDeadline` | src/ros_portal/src/topic_forwarder.cpp:256-270 | the earliest end of a running grace period, none if none is running |
| `TopicForwarder.TopicForwarder.OfferSample` | src/ros_portal/src/topic_forwarder.cpp:295-320 | the rate-cap part of the data callback |
| `TopicForwarder.StepKeepsAgreement` | src/ros_portal/src/topic_forwarder.cpp:184-254 | a step keeps the keys of `subscriptions_` the disjoint union of data and image state keys exactly when it is not a new image creation that ends in a non-standard exception |
| `TopicForwarder.RunKeepsAgreement` | src/ros_portal/src/topic_forwarder.cpp:184-254 | the maps agree after every prefix of a run exactly when none of its steps is such a creation in the state it meets |
| `TopicForwarder.NonStandardExceptionLeavesImageState` | src/ros_portal/src/topic_forwarder.cpp:504-525 | a concrete creation after which an image state has no subscription |
| `TopicForwarder.ReapRemovesOnlyExpired` | src/ros_portal/src/topic_forwarder.cpp:226-254 | a subscription is removed, with its state, exactly when it has no publisher and its grace has elapsed; others keep their state, and lose their absence when somebody publishes |
| `TopicForwarder.GraceIsExact` | src/ros_portal/src/topic_forwarder.cpp:184-254 | a subscription marked absent survives every run of marks, creations, samples and reaps before its deadline while nobody publishes, and no reap after it |
| `TopicForwarder.DeadlineAfterReapIsFuture` | src/ros_portal/src/topic_forwarder.cpp:226-270 | after a reap `nextExpiryDeadline` is empty or in the future |
| `TopicForwarder.ConfiguredRateHolds` | src/ros_portal/src/topic_forwarder.cpp:295-362 | from its creation on and while it stays subscribed, whatever marks, creations, reaps and other samples happen, a data topic with a configured period forwards samples at least that period apart while the clock does not go back; one without forwards every sample |
| `TopicForwarder.ConfiguredRateNeverStalls` | src/ros_portal/src/topic_forwarder.cpp:295-362 | the first sample of a capped topic passes, and so does any that comes a period after all before it, whatever the clock did |
| `GraphManager.GraphManager.Invalidate` | src/ros_portal/src/graph/graph_manager.cpp:89-93 | the cached snapshots of topics and services are dropped |
| `GraphManager.GraphManager.Topics` | src/ros_portal/src/graph/graph_manager.cpp:95-101 | the cached snapshot, or the present graph, which is then cached |
| `GraphManager.GraphManager.Services` | src/ros_portal/src/graph/graph_manager.cpp:103-109 | the cached snapshot of the services, or the present graph, which is then cached |
| `GraphManager.GraphManager.ReconcileIfChanged` | src/ros_portal/src/graph/graph_manager.cpp:144-160 | the callback is asked exactly when the snapshot differs from the one applied last, and only an accepted snapshot is remembered |
| `GraphManager.GraphManager.OnWake` | src/ros_portal/src/graph/graph_manager.cpp:121-141 | one pass between wait and reap: without an event nothing changes; with one the caches are dropped, the graph is read, and it is remembered exactly when it differs from the snapshot applied last and the callback accepts it; an exception ends the worker |
| `GraphManager.GraphManager.NextWait` | src/ros_portal/src/graph/graph_manager.cpp:162-169 | the wait lies between zero and five seconds, never extends past a deadline still ahead, and is cut short by nothing else |
| `GraphManager.WaitEndsByEveryDeadline` | src/ros_portal/src/graph/graph_manager.cpp:162-169 | the requested wait never extends past any subscription's deadline or five seconds |
| `GraphManager.SleepAfterReap` | src/ros_portal/src/graph/graph_manager.cpp:116-128 | a worker that has reaped never asks for a zero wait, and on waking early finds a grace just run out |
| `GraphManager.MarkedIsRemovedInTime` | src/ros_portal/src/graph/graph_manager.cpp:116-128 | a subscription that a reconciliation has marked absent is removed exactly when some round reaps after its grace period, no earlier than the period ends and no later than the worker's own delay after that |
| `GraphManager.AbandonedIsRemovedIff` | src/ros_portal/src/graph/graph_manager.cpp:116-160 | a subscription that has lost its publishers and is not marked yet is removed in a run exactly when some graph event carries a snapshot other than the one applied last, the callback accepts it, and the run goes on for the grace period; then it goes within the worker's delay after the grace that starts with the first such event |
| `GraphManager.KeptWithoutNewSnapshot` | src/ros_portal/src/graph/graph_manager.cpp:144-156 | while every graph event repeats the snapshot applied last or is refused, an unmarked subscription is never removed |
| `GraphManager.FreshForwarderNeedsNewSnapshot` | src/ros_portal/src/graph/graph_manager.cpp:144-160 | the empty forwarder of a new room session subscribes to nothing until a graph event carries a snapshot other than the one applied last and is accepted |
| `GraphManager.UnchangedGraphKeepsSubscription` | src/ros_portal/src/graph/graph_manager.cpp:144-150 | a concrete run from the worker's start, of any length and with a graph event in every round, that never removes a subscription whose publisher has left |
| `GraphEvents.CacheIsStaleOnlyBeforeItsEvent` | src/ros_portal/src/graph/graph_manager.cpp:89-126 | while the worker lives, a cached topic snapshot differs from the graph only while a change is unannounced, its event is set, or the worker has just seen it |
| `GraphEvents.QuietGraphIsApplied` | src/ros_portal/src/graph/graph_manager.cpp:121-160 | no change is missed: when the worker waits and no event is due, the present graph was applied or refused |
| `GraphEvents.OfferOutcome` | src/ros_portal/src/graph/graph_manager.cpp:144-160 | a snapshot becomes the applied one exactly when the callback accepts it or it is already; an exception of a callback that is asked ends the worker |
| `GraphEvents.WorkerSettles` | src/ros_portal/src/graph/graph_manager.cpp:121-160 | once the graph stays as it is the worker comes to rest in at most fifteen steps, and then the present graph was applied or refused, or the worker has ended |
| `SchemaRenderer.Renderer.AppendDefinition` | src/ros_portal/src/schema/renderer.cpp:120-134 | the recursion with its shared `seen` returns the text and leaves the set of the depth-bounded walk |
| `SchemaRenderer.RenderBundled` | src/ros_portal/src/schema/renderer.cpp:136-158 | .msg first, .idl when that fails, nothing when both fail or the type is empty |
| `SchemaRenderer.WalkVisitsExactlyTheReachable` | src/ros_portal/src/schema/renderer.cpp:120-134 | on success `seen` is the set of reachable types and the sections are those types without the root, each once |
| `SchemaRenderer.DepthLimitNeedsDeepChain` | src/ros_portal/src/schema/renderer.cpp:48-134 | without a reference chain of more than 50 different types rendering succeeds exactly when every reachable type loads, however many there are |
| `SchemaRenderer.DepthLimitNeedsManyTypes` | src/ros_portal/src/schema/renderer.cpp:48-134 | with at most 50 reachable types rendering succeeds exactly when all of them load: the depth limit is never hit |
| `SchemaRenderer.WalkTypeFails` | src/ros_portal/src/schema/renderer.cpp:120-134 | a failing walk means a reachable type that does not load or a chain of more than 50 different types from the root |
| `SchemaRenderer.LineOfFifty` | src/ros_portal/src/schema/renderer.cpp:48-134 | along a line of types that each refer to the next exactly up to fifty render |
| `SchemaRenderer.DelimiterLines` | src/ros_portal/src/schema/renderer.cpp:64-67 | a line of eighty equals signs, then the label and the type on a line of their own |
| `SchemaRenderer.RenderedIsCut` | src/ros_portal/src/schema/renderer.cpp:120-134 | a rendered text is the root's definition followed by one delimited section for each other reachable type, in depth-first order: the next section is always the first dependency without one of the latest type that has such a dependency |
| `InterfaceShow.InterfaceRenderer.RenderRecursive` | src/ros_portal/src/cli/interface_show.cpp:32-68 | terminates on every type graph, restores `active_types` on every exit, fails exactly when the unfolding fails and otherwise appends exactly its text |
| `InterfaceShow.InterfaceRenderer.RenderLine` | src/ros_portal/src/cli/interface_show.cpp:49-64 | one turn of the line loop appends the line and what its nested type shows below it |
| `InterfaceShow.RenderInterfaceDefinition` | src/ros_portal/src/cli/interface_show.cpp:72-90 | which options are refused, and the rendering for the others |
| `InterfaceShow.RenderingIsTheCutUnfolding` | src/ros_portal/src/cli/interface_show.cpp:49-64 | the output lines are exactly the reference chains from the root that meet no type twice, each once and in file order: the unfolding cut at references to an active ancestor |
| `InterfaceShow.RendersIffAllInstalled` | src/ros_portal/src/cli/interface_show.cpp:35-68 | rendering succeeds exactly when every type reachable from the root is installed |
| `InterfaceShow.ShowTypeInOrder` | src/ros_portal/src/cli/interface_show.cpp:49-64 | parents before children and siblings in file order |
| `InterfaceShow.TextOfAddresses` | src/ros_portal/src/cli/interface_show.cpp:49-64 | each printed address contributes its own line, indented by the references that lead to it, with the comment mode of the root or of nested types |
| `ConfigOrdering.CollectObjectDependencies` | src/ros_portal_config/scripts/generate_config_parser.py:289-302 | direct references and arrays of references, the type itself left out |
| `ConfigOrdering.EmitReady` | src/ros_portal_config/scripts/generate_config_parser.py:168-176 | one pass keeps every definition after its dependencies; if it emits nothing, everything left is waiting |
| `ConfigOrdering.OrderObjectSpecs` | src/ros_portal_config/scripts/generate_config_parser.py:166-179 | terminates; on success a permutation with each definition after its dependencies; fails exactly on a cycle or a dependency that is not defined; definitions already in such an order stay in it |
| `ConfigOrdering.StuckHasCycle` | src/ros_portal_config/scripts/generate_config_parser.py:168-179 | definitions that all wait contain a cycle |
| `ConfigOrdering.OrderedHasNoCycle` | src/ros_portal_config/scripts/generate_config_parser.py:168-179 | an order with dependencies first excludes a cycle |
| `ConfigOrdering.DependenciesAreAllMentions` | src/ros_portal_config/scripts/generate_config_parser.py:289-302 | the collected dependencies are all the definitions a spec mentions exactly when every name inside an array of arrays is the spec itself or also the type of a field or of an array field |
| `ConfigOrdering.MentionsFirstIff` | src/ros_portal_config/scripts/generate_config_parser.py:166-179 | every dependencies-first order of orderable definitions has each one after everything it mentions exactly when every mention is reached through dependencies |
| `ConfigOrdering.NothingHiddenMentionsFirst` | src/ros_portal_config/scripts/generate_config_parser.py:166-179 | definitions that hide nothing in arrays of arrays are ordered after everything they mention |
| `ConfigOrdering.NestedArrayIsMissed` | src/ros_portal_config/scripts/generate_config_parser.py:295-300 | a concrete spec whose array of arrays hides a dependency |
| `StampBuffer.StampBuffer.Add` | src/livekit_scarf_slam/livekit_scarf_slam/slam_bag.py:54-61 | insert after equal stamps, then drop what lies before the horizon; the buffer stays sorted |
| `StampBuffer.StampBuffer.Nearest` | src/livekit_scarf_slam/livekit_scarf_slam/slam_bag.py:63-74 | none exactly when nothing is in tolerance, otherwise an entry of globally minimal distance with the earlier stamp on ties |
| `StampBuffer.BufferIsRecentHistory` | src/livekit_scarf_slam/livekit_scarf_slam/slam_bag.py:54-61 | after any adds in any order the buffer is the stable stamp-ordered sequence of exactly the adds not older than the largest stamp ever added minus the horizon |
| `StampBuffer.BestOfIsNearest` | src/livekit_scarf_slam/livekit_scarf_slam/slam_bag.py:65-74 | the two candidates around the insertion point decide the global minimum |
| `KeyframeTracker.KeyframeTracker.UpdateGraph` | src/livekit_scarf_slam/livekit_scarf_slam/slam_bag.py:121-153 | one MapData message: new keyframes, skipped nodes and optimized poses; the dictionaries keep the same keys |
| `KeyframeTracker.KeyframeTracker.VisitNodes` | src/livekit_scarf_slam/livekit_scarf_slam/slam_bag.py:133-149 | the loop over the sorted nodes |
| `KeyframeTracker.KeyframeTracker.ApplyGraphPoses` | src/livekit_scarf_slam/livekit_scarf_slam/slam_bag.py:150-152 | only poses of known keyframes are replaced |
| `KeyframeTracker.KeyframeTracker.Snapshot` | src/livekit_scarf_slam/livekit_scarf_slam/slam_bag.py:155-164 | the entries of the pose dictionary, one for each keyframe with its stamp and latest camera pose, stably sorted by stamp |
| `KeyframeTracker.SortedByStampIsStable` | src/livekit_scarf_slam/livekit_scarf_slam/slam_bag.py:161-164 | the sorted entries are in stamp order and for every stamp the same entries in the same order |
| `KeyframeTracker.EachNodeAtMostOnce` | src/livekit_scarf_slam/livekit_scarf_slam/slam_bag.py:134-149 | over every run of messages a node becomes a keyframe at most once, the records are exactly the keyframes, and seen nodes are keyframes plus skipped ones |
| `KeyframeTracker.UpdateKeepsKeyframes` | src/livekit_scarf_slam/livekit_scarf_slam/slam_bag.py:121-153 | a later message never forgets, restamps or resurrects a node and moves only poses of the new graph |
| `KeyframeTracker.NewKeyframesInNodeOrder` | src/livekit_scarf_slam/livekit_scarf_slam/slam_bag.py:133-153 | the returned keyframes have strictly ascending node ids |
| `KeyframeTracker.NewNodeOutcome` | src/livekit_scarf_slam/livekit_scarf_slam/slam_bag.py:121-153 | a node id that is new is matched by the stamp of its first node; without an image it is skipped, with one it becomes a keyframe with that stamp, image and camera pose, and its map pose is the optimized one or else the odometry pose in the map |
| `KeyframeTracker.OnlyNewNodesBecomeKeyframes` | src/livekit_scarf_slam/livekit_scarf_slam/slam_bag.py:134-149 | every new keyframe is a node of the message whose id was not seen before |
| `KeyframeTracker.EntryOfKeyframe` | src/livekit_scarf_slam/livekit_scarf_slam/slam_bag.py:161-164 | the snapshot sorts one entry for each keyframe: its stamp and its latest map pose, carried to the camera |
| `KeyframeTracker.SortByIdSorts` | src/livekit_scarf_slam/livekit_scarf_slam/slam_bag.py:134 | the sorted nodes are a permutation in ascending order |
| `Transforms.MatrixIsRotation` | src/livekit_scarf_slam/livekit_scarf_slam/transforms.py:28-35 | for every nonzero quaternion the matrix has orthonormal columns and rows and determinant one |
| `Transforms.RadicandAtLeastOne` | src/livekit_scarf_slam/livekit_scarf_slam/transforms.py:41-55 | for every matrix the chosen branch takes the root of at least one, so it divides by at least two |
| `Transforms.RotationRoundTrip` | src/livekit_scarf_slam/livekit_scarf_slam/transforms.py:38-60 | for every rotation the result is a unit quaternion with w >= 0 whose matrix is the given one |
| `Transforms.QuaternionRoundTrip` | src/livekit_scarf_slam/livekit_scarf_slam/transforms.py:28-60 | for every nonzero quaternion the round trip gives its normalisation or the negation of it, with w >= 0 |
| `Transforms.RotationEqualsCofactors` | src/livekit_scarf_slam/livekit_scarf_slam/transforms.py:28-60 | every entry of a rotation equals its cofactor |
| `Transforms.RawFormIsMatrixForm` | src/livekit_scarf_slam/livekit_scarf_slam/transforms.py:41-57 | in all four branches the products of the raw quaternion's components are the ones the matrix determines |
| `Transforms.SameUpToSign` | src/livekit_scarf_slam/livekit_scarf_slam/transforms.py:60 | quaternions with equal component products differ at most by sign |
| `RotationAxes.MatrixTurnsAxes` | src/livekit_scarf_slam/livekit_scarf_slam/transforms.py:28-35 | the columns of the matrix are where the scaled quaternion turns the three axes, by the Hamilton product |
| `Base64.Encode` | src/ros_portal/src/utils/base64.cpp:40-73 | the loop and its tail produce the specified encoding |
| `Base64.Decode` | src/ros_portal/src/utils/base64.cpp:77-130 | the loop with its early returns computes the specified decoding |
| `Base64.DecodeGroup` | src/ros_portal/src/utils/base64.cpp:89-126 | one group of four characters: the padding rules, the table look-ups and the bytes |
| `Base64.MakeDecodeTable` | src/ros_portal/src/utils/base64.cpp:29-36 | the table maps each alphabet character to its value and every other byte to -1 |
| `Base64.StandardAlphabet` | src/ros_portal/src/utils/base64.cpp:25-36 | the alphabet is table 1 of RFC 4648 |
| `Base64.FoobarEncoding` | src/ros_portal/src/utils/base64.cpp:40-73 | a test vector of section 10 of RFC 4648 |
| `Base64.RoundTrip` | src/ros_portal/src/utils/base64.cpp:39-132 | decoding an encoding returns the original bytes, for every input |
| `Base64.EncodedLength` | src/ros_portal/src/utils/base64.cpp:45 | the encoding has 4 * ceil(n / 3) characters |
| `Base64.EncodingIsTheNumeral` | src/ros_portal/src/utils/base64.cpp:47-70 | the symbols are the base-64 digits of the data read as a big-endian number, shifted by the padding bits, with the padding section 4 of RFC 4648 asks for |
| `Base64.AcceptsExactlyWellFormed` | src/ros_portal/src/utils/base64.cpp:77-130 | the decoder accepts exactly whole groups of alphabet characters with at most two padding characters at the end |
| `Base64.CanonicalIff` | src/ros_portal/src/utils/base64.cpp:77-130 | re-encoding a decoded text gives it back exactly when its unused trailing bits are zero (section 3.5 of RFC 4648) |
| `Base64.StrayBitsAreAccepted` | src/ros_portal/src/utils/base64.cpp:77-130 | a concrete text with unused bits set that decodes to a byte whose encoding is another text |
| `ImageFrame.ImageFrameBuilder.Build` | src/ros_portal/src/utils/image_conversion.cpp:88-134 | an accepted image's frame has its size and bytes, whatever was built before, and read through its own layout every channel of every pixel is that of the image; a rejected image changes nothing |
| `ImageFrame.ImageFrameBuilder.Reuse` | src/ros_portal/src/utils/image_conversion.cpp:136-144 | the frame is recreated exactly when size or layout differ or it has no storage |
| `ImageFrame.ImageFrameBuilder.BuildPacked` | src/ros_portal/src/utils/image_conversion.cpp:107-114 | packed native pixels become the frame's storage |
| `ImageFrame.ImageFrameBuilder.BuildRows` | src/ros_portal/src/utils/image_conversion.cpp:115-124 | padded native rows and bgr8 rows are written into the reused frame |
| `ImageFrame.ImageFrameBuilder.BuildGray` | src/ros_portal/src/utils/image_conversion.cpp:126-133 | a mono8 frame is gray whether its storage was reused or not |
| `ImageFrame.WriteRows` | src/ros_portal/src/utils/image_conversion.cpp:65-84 | row by row without padding, swapped for bgr8, all accesses in bounds, nothing behind the rows touched |
| `ImageFrame.CopySwapped` | src/ros_portal/src/utils/image_conversion.cpp:78-82 | the inner loop reverses every three bytes |
| `ImageFrame.FrameHoldsSourcePixels` | src/ros_portal/src/utils/image_conversion.cpp:65-84 | byte i of row y of a frame is the source byte that belongs there: padding skipped, red and blue exchanged for bgr8 |
| `ImageFrame.GrayFrameIsNeutral` | src/ros_portal/src/utils/image_conversion.cpp:126-133 | every byte of a mono8 frame after the luma plane is 128, and the frame has the I420 size |
| `ImageFrame.FrameShowsImage` | src/ros_portal/src/utils/image_conversion.cpp:50-133 | red, green, blue and alpha of every pixel, read where the frame's layout has them, are the values that the image has where its encoding has them; a gray image is shown in the luma plane with chroma 128 |
| `ImageFrame.ImageHasChannels` | src/ros_portal/src/utils/image_conversion.cpp:50-133 | which channels an accepted image has, all of them inside its data |
| `ImageFrame.AcceptableIff` | src/ros_portal/src/utils/image_conversion.cpp:88-102 | accepted are exactly the five encodings with dimensions from 1 to the largest int, a step that holds a row and data that holds all rows |
| `ImageFrame.SizesFit` | src/ros_portal/src/utils/image_conversion.cpp:92-100 | the size products of `build` fit 64 bits for every image that reaches them |
| `VideoHeader.FrameSink.CaptureFrame` | src/ros_portal/src/ros_portal.cpp:871-892 | the metadata handed over is always a fresh encoding of this frame's stamp and frame_id, cached or not; with operations disabled nothing changes |
| `VideoHeader.CacheIsNeverStale` | src/ros_portal/src/ros_portal.cpp:877-891 | over every sequence of calls what the closure hands over from its cache is, for each enabled call, that frame with a fresh encoding of its own stamp and frame_id |
| `VideoHeader.CacheStep` | src/ros_portal/src/ros_portal.cpp:877-890 | a call keeps the cached user data the encoding of the cached frame_id, and an enabled one leaves the metadata of its own stamp |
| `VideoHeader.InboundVideoTrack.FillHeader` | src/ros_portal/src/inbound_video_track.cpp:149-180 | the reused header is wholly overwritten; the fallback counter and the one-time warning count exactly the frames without a valid stamp |
| `VideoHeader.DecodeInvertsEncode` | src/ros_portal/src/utils/video_frame_metadata.cpp:21-39 | user data decodes to a frame_id exactly when that frame_id encodes to it |
| `VideoHeader.FrameIdFormat` | src/ros_portal/src/utils/video_frame_metadata.cpp:21-30 | on the wire a frame_id of at most 255 bytes follows a version byte 1; a longer one is not sent |
| `VideoHeader.FallbacksExactly` | src/ros_portal/src/inbound_video_track.cpp:149-180 | the receiver uses its own clock and frame_id exactly for a missing or unusable time and a missing or malformed frame_id |
| `VideoHeader.RosTimeIsMicroseconds` | src/ros_portal/src/utils/ros_utils.cpp:36-45 | toRosTime fails exactly past the last 32-bit second and otherwise keeps every microsecond |
| `VideoHeader.StampIsMicroseconds` | src/ros_portal/src/topic_forwarder.cpp:473-487 | the sent timestamp is the header's time rounded down to whole microseconds, the frame_id goes along up to 255 bytes |
| `VideoHeader.StampRestoredIff` | src/ros_portal/src/inbound_video_track.cpp:152-168 | the stamp is restored exactly when the time is not before the epoch nor past the last second that fits, losing less than a microsecond |
| `VideoHeader.NegativeSecondsRestored` | src/ros_portal/src/inbound_video_track.cpp:152-168 | a concrete stamp with negative seconds that is restored |
| `VideoHeader.HeaderEndToEnd` | src/ros_portal/src/inbound_video_track.cpp:149-180 | for a well-formed stamp the receiver restores frame_id up to 255 bytes and the stamp in whole microseconds for seconds >= 0, and takes its fallbacks otherwise |

## Left out

- The LiveKit SDK, rclcpp, rosbag2, TurboJPEG, OpenCV and the JSON and YAML libraries: only the results of their calls appear.
- Step granularity in `ConnectionManager`: each connection callback, `stop`, and each part of `poll` around `try_connect` is one step. Other threads can act between the compare-and-swap to Connecting and `beginSessionAttempt`, between a successful connect and `enableOperations`, and between the change of state and of the barrier in `transitionTo*`, `onRoomEos` and `stop`; `SessionBarrier` models these windows for the state and the barrier flags, without the retry clock and the waiting threads. Elsewhere each region under a lock is one step.
- Overlapping polls are not modelled. A compare-and-swap loop with its retries is one change of the state.
- Wake-ups of `waitForOperations` without a notification are not steps; the loop re-checks its predicate either way.
- The latched worker is single and alone changes the roster; a peer that leaves and rejoins between two roster reads is one stay for the model, as it is for the program.
- Hash collisions of latched messages: two messages with equal hashes count as the same content, as in the program.
- `version_` and the counters are unbounded; the program's 64-bit counters would wrap.
- `handleLatchedStateRpc` (the receiving side), diagnostics, logging, start-up and shutdown of the threads.
- `validateInboundSchema` and the hexadecimal form of hashes: pure checks on one message.
- The end of a room session is not a step of the worker's rounds: a run of rounds belongs to one forwarder. Stopping the worker is not modelled.
- Topic discovery by pattern in `reconcileTopics`: which topics match is an input, as the creation of a subscriber is.
- The rate-cap period is a whole number of nanoseconds per topic; its computation from a floating-point rate is not modelled.
- `SchemaRenderer.Renderer.AppendDefinition`: regular expressions and files are a table from type to text and dependencies; the rosbag2 backend is not modelled.
- `InterfaceShow.InterfaceRenderer.RenderRecursive`: formatting of a line and recognition of a nested type are abstract functions of the line.
- Floating-point rounding in the rotation conversions and in poses; the zero quaternion, for which the program divides by zero.
- `ImageFrame.ImageFrameBuilder.Build`: the frame sizes of LiveKit's layouts are assumed (four bytes, three bytes, or one byte per pixel plus two quarter planes rounded up), since `livekit::VideoFrame` is not part of this model; the moved-from image and the lifetime of the returned pointer are not modelled.
- `JpegDecoder` and `JpegEncoder`: wrappers over TurboJPEG. The gray-chroma statement is about mono8 images only.
- A null data pointer with a non-zero size in `base64Encode` (it returns an empty string).
- An allocation failure between the two assignments of the cached frame_id and user data.
- Configuration mapping, launch files, token loading, calibration output and CLI listing: each is straightforward within one function.
