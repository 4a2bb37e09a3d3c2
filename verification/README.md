# Verified model of the relay's caches, schedulers and liquidation arithmetic

This project models the stateful core of a blockchain relay node (`bxcommon`) and of the liquidation bot built on it
(`configs`, `compound.py`), and proves what their operations keep over whole runs.

Each component has a specification on values, functions that say what every operation makes of the state, and the
theorems about it. Where the program changes objects in place there is also a class whose methods run the program's
statements and loops and are proved equal to those functions, so that the theorems hold of the classes.

- **Transaction cache** (`TransactionCache`, `TransactionEvictions`, `TransactionRuns`, `TransactionEffects`,
  `TransactionHistory`, `TransactionServices`, over `ExpirationQueues` and `OrderedDicts`): the two-way index of short
  ids, contents with their byte total, three expiry queues, the blocks seen, and eviction at the memory limit.
- **Transaction sync** (`TxRecords`, `BufferSync`, `SnapshotSync`, `TxSyncServices`, over `ByteBuffers`): the record
  layout, cutting a serialized mempool into messages, and the alarm-driven runs that send them while the clock, the
  ping and the connection do what they like.
- **Alarms** (`AlarmHeaps`, `AlarmPasses`, `ApproxAlarms`, `RescheduledAlarms`, `AlarmQueues`): the binary heap, one
  firing pass, approximate alarms that stand in two heaps at once, and what happens when they reschedule themselves.
- **Alignment** (`NeedlemanWunsch`): the matrices, the traceback and its optimality.
- **Routing and liquidation** (`Router`, `Liquidation`): constant-product quotes, the exhaustive route search, and the
  rounding of seized and repaid amounts.
- **Positions** (`UserStates`, `EventSync`, `StatesCache`): replay of event logs, its conservation law, and windowed
  sync.
- **Connections** (`ConnectionPools`, `NodeIdLookups`, `ConnectionPooling`): five indexes that must agree, and lookups
  in them.
- **Price signals** (`Transmissions`, `PriceSignals`): the call data of a Chainlink `transmit`, and the epochs accepted.

`Basics` holds what several of them share: options, floor division and the order on strings.

Some promises do not hold of the code as it stands. For each there is a theorem that says exactly when the promise is
kept and, unless that theorem names the failing inputs itself, a run or an input that shows it broken:

- Renewing an entry of an expiry queue keeps its position, so it can hold back older ones
  (`RenewedFrontHidesOldEntry`, `RenewedTransactionHidesOldOne`; `ExpiryCompleteIff`, `AddKeepsByTimeIff`).
- A short id given to a second transaction breaks the index (`AssignTakenBreaksIndex`; `AssignKeepsIff`).
- A serialized message counts the items it skips (`SkippedItemsBecomePhantoms`; `MessageRoundTripIff`,
  `ReceiverReadsSnapshotIff`).
- An approximate alarm that reschedules itself to behind another of its function makes the assertion fail when that one
  fires, unless that one reschedules itself, too (`ReschedulingBreaksHeads`; `PassOkIff`, `RescheduleMirrorsIff`,
  `MirrorsThroughoutIff`, `MirrorsAlwaysIff`).
- A clock that moves during an approximate registration narrows the spacing (`DriftBreaksSpacing`; `RegisterSpacedIff`,
  `StandingClockSpacesIff`).
- `trim` announces that it deletes empty users but never does, since a user object is always true
  (`TrimKeepsBareUsers`; `TrimLeavesNoBareUserIff`, `BareAfterRunIff`).
- A log that raises inside a window is followed by a double application, and no retry gets past it
  (`RetryAfterRaiseAppliesTwice`; `RaisedAttemptIff`, `ReachesTargetIff`, `SomeRetryReachesIff`).
- Closing one of two connections with the same peer id hides the other from lookups by id (`SharedIdIsLost`;
  `StepListedIff`, `AlwaysListedIff`).
- A negative middle observation is read as a large positive price (`RoundTrip`, `ParseInvertsEncoding`).
- The alignment comes back from its strings only without gap symbols in the inputs (`InputsComeBackIff`).

## Model

| member | source | states |
|---|---|---|
| `TransactionRuns.Run` | bxcommon/services/transaction_service.py:490-742 | every cache reached from the empty one by assignments, contents, removals, expiries, block tracking and clears, in any order, satisfies the whole invariant: the two indexes are inverse with no empty set, the assignment queue holds exactly the mapped short ids, the byte total is the sum of the contents and within the limit, nothing waits outside its expiry queue, each non-empty queue has exactly one pending alarm, and fewer blocks than confirmations are tracked |
| `TransactionRuns.StepKeeps` | bxcommon/services/transaction_service.py:490-980 | each single operation keeps that invariant, given only that an assigned short id is not in use for another transaction |
| `TransactionRuns.AssignKeepsIff` | bxcommon/services/transaction_service.py:490-529 | an assignment keeps the invariant if and only if the short id is null, new, or already this transaction's |
| `TransactionRuns.AssignTakenBreaksIndex` | bxcommon/services/transaction_service.py:521-523 | an assignment of a short id in use elsewhere leaves the two indexes disagreeing |
| `TransactionRuns.RemoveBySidKeeps` | bxcommon/services/transaction_service.py:675-742 | removal by short id, in every mode, keeps the invariant and never raises the byte total |
| `TransactionRuns.RemoveByKeyKeeps` | bxcommon/services/transaction_service.py:616-672 | removal by transaction keeps the invariant even when the no-short-id queue has already dropped its entry, as inside the expiry loop |
| `TransactionRuns.RemoveSidsOfKeyKeeps` | bxcommon/services/transaction_service.py:438-447 | removal of the short ids of a transaction without content keeps the invariant even when the no-content queue has already dropped its entry |
| `TransactionRuns.FireKeeps` | bxcommon/services/transaction_service.py:867-932 | a fired expiry task keeps the invariant, so its alarm is pending exactly as long as its flag is set, and leaves the tracked blocks alone |
| `TransactionRuns.TrackKeeps` | bxcommon/services/transaction_service.py:934-953 | tracking a block keeps the invariant, the bound on tracked blocks included |
| `TransactionRuns.TrackRetiresOldestBlock` | bxcommon/services/transaction_service.py:946-953 | once enough blocks are tracked the result is exactly the cache without the transactions that the oldest block named |
| `TransactionRuns.RemovedCompletely` | bxcommon/services/transaction_service.py:951-953 | of a retired transaction no short id, sibling short id, assignment entry or content is left; every other transaction keeps all of them |
| `TransactionRuns.RenewedTransactionHidesOldOne` | bxcommon/services/transaction_service.py:913-932 | a reachable cache, for any two transactions, in which the expiry task, fired at 900 and again after the 800 it asked for, leaves a short id without content that is 1700 old, because the transaction in front of it was assigned again at 800 |
| `TransactionHistory.ContentIsLastStored` | bxcommon/services/transaction_service.py:535-605 | in every run from the empty cache the content of a transaction is the one that the latest storing operation of the run gave it |
| `TransactionHistory.SidIsLastAssigned` | bxcommon/services/transaction_service.py:490-529 | in every run a short id stands for the transaction of the latest assignment of it, and its entry in the assignment queue bears the time of that |
| `TransactionHistory.WaitsSinceLast` | bxcommon/services/transaction_service.py:490-605 | in every run a content without short ids waits since it was stored last, short ids without content wait since the latest assignment, and nothing waits for what it has |
| `TransactionEffects.AssignDoes` | bxcommon/services/transaction_service.py:490-529 | a null short id changes nothing; any other is mapped to the transaction both ways, assigned now and taken off the no-short-id queue, and waits from now if there is no content; each task needed is flagged and pending once; every other field is unchanged |
| `TransactionEffects.SetContentsDoes` | bxcommon/services/transaction_service.py:568-605 | the content stands under its key and is counted instead of the previous one, the transaction leaves the no-content queue and waits from now if it has no short id; if that fits the limit it is all that happens, and otherwise the oldest short ids go, as few as suffice, or everything but the alarms |
| `TransactionEffects.RemoveByKeyDoes` | bxcommon/services/transaction_service.py:616-672 | a transaction with short ids is spared if none were assumed, or if one is paid and removal not forced; otherwise it goes with its content, short ids, assignment entries and paid marks, and nothing else does |
| `TransactionEffects.RemoveBySidDoes` | bxcommon/services/transaction_service.py:675-742 | a paid transaction is spared unless forced; the last short id, or any with its related ones, takes the whole transaction along, another one only itself |
| `TransactionEffects.PaidIsSpared` | bxcommon/services/transaction_service.py:644-691 | once a short id is marked as paid, no unforced removal, by it or by its transaction, changes anything |
| `TransactionEffects.RemoveSidsOfKeyDoes` | bxcommon/services/transaction_service.py:438-447 | the short ids of a transaction go, all of them, if and only if it has no content |
| `TransactionEffects.FireAssignmentsDoes` | bxcommon/services/transaction_service.py:867-888 | a pass removes the leading short ids older than the time to live, at most 500, and contents only with their last short id; the task asks for the time the oldest entry left has, at least 15 s, and stays flagged and pending if and only if any is left |
| `TransactionEffects.FireContentDoes` | bxcommon/services/transaction_service.py:890-911 | likewise for the queue of contents without short ids after 900 s, where those that have got a short id keep their content |
| `TransactionEffects.FireSidsDoes` | bxcommon/services/transaction_service.py:913-932 | likewise for the queue of short ids without content after 900 s, where those that have got a content keep their short ids |
| `TransactionEffects.TrackDoes` | bxcommon/services/transaction_service.py:944-953 | a block is tracked with its short ids, in its old place or last; below the confirmation count nothing else changes, and at it the oldest tracked block goes with exactly the transactions it named |
| `TransactionEffects.BlockCleanedDoes` | bxcommon/services/transaction_service.py:798-804 | the block is no longer tracked, the others stay in their order, and nothing else changes |
| `TransactionEffects.ClearDoes` | bxcommon/services/transaction_service.py:1403-1412 | nothing is left but the alarm flags and the pending alarms |
| `TransactionEvictions.CleanUpEvictsFewestOldest` | bxcommon/services/transaction_service.py:1279-1303 | the memory clean-up drops the oldest short ids, as few as bring the contents within the limit, and clears the cache exactly when even dropping all does not |
| `TransactionEvictions.EvictOneIsDropOldest` | bxcommon/services/transaction_service.py:1290-1295 | one turn of the eviction loop equals the closed form that removes the oldest short id, and its transaction only with its last one |
| `TransactionEvictions.ContentGoesWithLastSid` | bxcommon/services/transaction_service.py:714-740 | a content is evicted if and only if it has short ids and all of them are among those evicted |
| `TransactionEvictions.ExpiryDropsOldPrefix` | bxcommon/services/transaction_service.py:867-878 | assignment expiry removes exactly the leading run of old entries, up to the limit |
| `TransactionEvictions.ContentExpiryRemovesExactly` | bxcommon/services/transaction_service.py:890-901 | content expiry removes exactly the contents of the leading old entries that still lack a short id |
| `TransactionEvictions.SidExpiryRemovesExactly` | bxcommon/services/transaction_service.py:913-922 | short-id expiry removes exactly the short ids of the leading old entries that still lack a content |
| `TransactionEvictions.RemoveRelatedIsWithout` | bxcommon/services/transaction_service.py:675-742 | forced removal by one short id with its related ones equals the cache without that transaction |
| `TransactionEvictions.RetireAllIsWithout` | bxcommon/services/transaction_service.py:951-953 | removing the short ids of a block one after the other equals removing the set of transactions they name, repetitions and siblings included |
| `TransactionCache.CleanUpMemory` | bxcommon/services/transaction_service.py:1279-1303 | the clean-up always ends within the limit |
| `TransactionCache.NextDelay` | bxcommon/services/transaction_service.py:881-888 | an expiry task asks to be repeated if and only if its queue is not empty |
| `TransactionServices.TransactionService.constructor` | bxcommon/services/transaction_service.py:159-223 | a new service is the empty cache and satisfies the invariant |
| `TransactionServices.TransactionService.AssignShortId` | bxcommon/services/transaction_service.py:490-529 | changes the fields to the specified assignment |
| `TransactionServices.TransactionService.SetTransactionContents` | bxcommon/services/transaction_service.py:544-605 | changes the fields to the specified state and keeps the invariant; a content that fits the limit is stored, counted, taken off the no-content queue and, without short ids, queued from now, and nothing else changes |
| `TransactionServices.TransactionService.StoreContents` | bxcommon/services/transaction_service.py:594-599 | adjusts the byte total by the difference to the previous content |
| `TransactionServices.TransactionService.MemoryLimitCleanUp` | bxcommon/services/transaction_service.py:1279-1303 | the eviction loop reaches the specified state |
| `TransactionServices.TransactionService.EvictOldest` | bxcommon/utils/expiration_queue.py:108-120 | the oldest entry leaves the queue before the removal callback runs |
| `TransactionServices.TransactionService.RemoveTransactionByKey` | bxcommon/services/transaction_service.py:616-672 | every lookup and deletion finds its key, the flags reduced are never none, and the short ids returned are those removed |
| `TransactionServices.TransactionService.RemoveTransactionByShortId` | bxcommon/services/transaction_service.py:675-742 | every lookup and deletion finds its key |
| `TransactionServices.TransactionService.RemoveSidByKey` | bxcommon/services/transaction_service.py:438-447 | every deletion finds its key |
| `TransactionServices.TransactionService.RemoveExpiredAssignments` | bxcommon/utils/expiration_queue.py:47-84 | the expiry loop with removal by short id reaches the specified state |
| `TransactionServices.TransactionService.ExpireOldAssignments` | bxcommon/services/transaction_service.py:867-888 | state and delay are the specified ones |
| `TransactionServices.TransactionService.ExpireContentWithoutSid` | bxcommon/services/transaction_service.py:890-911 | state and delay are the specified ones |
| `TransactionServices.TransactionService.ExpireSidWithoutContent` | bxcommon/services/transaction_service.py:913-932 | state and delay are the specified ones |
| `TransactionServices.TransactionService.TrackSeenShortIds` | bxcommon/services/transaction_service.py:934-953 | state is the specified one and the invariant is kept |
| `TransactionServices.TransactionService.OnBlockCleanedUp` | bxcommon/services/transaction_service.py:798-804 | forgets the block and keeps the invariant |
| `TransactionServices.TransactionService.ClearAll` | bxcommon/services/transaction_service.py:1403-1412 | empties everything except the alarm flags |
| `ExpirationQueues.ExpiryCompleteIff` | bxcommon/utils/expiration_queue.py:66-84 | one pass leaves no old entry behind if and only if no old entry stands behind a younger one and the limit does not cut in |
| `ExpirationQueues.AddKeepsByTimeIff` | bxcommon/utils/expiration_queue.py:37-37 | adding keeps the queue in time order if and only if nothing older-stamped follows the entry renewed, because renewing keeps the position |
| `ExpirationQueues.ByTimeHidesNothing` | bxcommon/utils/expiration_queue.py:66-84 | in a queue in time order no old entry hides behind a younger one |
| `ExpirationQueues.RenewedFrontHidesOldEntry` | bxcommon/utils/expiration_queue.py:37-37 | a queue of any two entries from time 0 in which the passes at 900 and 1700 remove nothing although the second is then 1700 old, because the first was renewed at 800 |
| `ExpirationQueues.ExpiryStop` | bxcommon/utils/expiration_queue.py:66-82 | all entries before the stop are old, and the one at the stop is not unless the limit or the end is reached |
| `TxRecords.RecordsRoundTrip` | bxcommon/messages/bloxroute/txs_serializer.py:46-144 | reading back what was written gives every record with its content, short ids and flags |
| `TxRecords.MessageRoundTripIff` | bxcommon/messages/bloxroute/txs_serializer.py:58-97 | a message is received as it was sent if and only if each of its items has a content and none has the null short id |
| `TxRecords.SkippedItemsBecomePhantoms` | bxcommon/messages/bloxroute/txs_serializer.py:56-105 | for each skipped item the receiver reads an all-zero record behind the real ones, since the buffer is sized for all items |
| `TxRecords.EncodeLayout` | bxcommon/messages/bloxroute/txs_serializer.py:58-97 | field by field, where each of hash, content length, content, four zero bytes, count, short ids and flags stands in a record, and how many bytes it takes |
| `ByteBuffers.UnpackConcat` | bxcommon/messages/bloxroute/txs_serializer.py:64-95 | the least significant byte comes first |
| `TxRecords.EncodeLen` | bxcommon/messages/bloxroute/txs_serializer.py:20-39 | the length computed in advance is the length written |
| `BufferSync.EveryRunDelivers` | bxcommon/services/tx_sync_service.py:329-445 | for every clock, ping and connection behaviour the messages are contiguous cuts at record boundaries with the right counts, too long by at most one record, and one completion message follows on every ending but a vanished connection; no step raises on a well-formed buffer |
| `BufferSync.ReceiverGetsThePrefix` | bxcommon/services/tx_sync_service.py:364-445 | what a receiver reads from the messages is the list of records up to where the run got, and after normal completion the slices are the buffer after its 4-byte count; the totals carried along are exact |
| `BufferSync.FavourableRunFinishes` | bxcommon/services/tx_sync_service.py:407-433 | with a connection, a ping, time left and one loop check per step, n records are sent in at most max(n, 1) steps |
| `BufferSync.NextStepEnds` | bxcommon/services/tx_sync_service.py:329-445 | a run that goes on ends at its next step by disposal, inactivity or time exactly if the peer is gone, inactive, or 900 s have passed since the first non-zero clock reading of the run, with a completion message in the latter two; without a ping it only waits |
| `BufferSync.BuildsCut` | bxcommon/services/tx_sync_service_helpers.py:103-147 | each message starts at the offset reached, ends at a record boundary, carries the number of records in it, and says it is the last one exactly when it is |
| `BufferSync.BuildsWhole` | bxcommon/services/tx_sync_service_helpers.py:113-117 | a small buffer is sent whole with the count it begins with |
| `BufferSync.ScanStops` | bxcommon/services/tx_sync_service_helpers.py:122-141 | the loop stops at a record boundary, and only for lack of time, size or records |
| `BufferSync.CreateTxsServiceMsgFromBuffer` | bxcommon/services/tx_sync_service_helpers.py:103-147 | the loop computes the specified message, end and flag, or raises where a read leaves the buffer |
| `BufferSync.SkipEncoded` | bxcommon/services/tx_sync_service_helpers.py:126-138 | skipping an encoded record without reading its short ids lands exactly behind it |
| `SnapshotSync.EveryRunSendsInReverse` | bxcommon/services/tx_sync_service.py:120-213 | the hashes sent followed by the reversed remainder are always the reversed snapshot, all items but the last of a message start below the size target, each message holds the short ids, flags and, when contents are synced, content that the cache held for its hashes at one of the steps, and else empty contents, and exactly one completion message ends every ended run |
| `SnapshotSync.FinishedRunSendsAll` | bxcommon/services/tx_sync_service.py:176-202 | a finished run has sent every hash of the snapshot, last one first, then the completion message |
| `SnapshotSync.ReceiverReadsSnapshotIff` | bxcommon/services/tx_sync_service.py:152-202 | in every run over a cache whose records fit the layout, the receiver reads from each message its sendable items and a phantom for each skipped one, and over the whole run exactly the records looked up if and only if each of them has a content and no null short id |
| `SnapshotSync.FavourableRunFinishes` | bxcommon/services/tx_sync_service.py:152-202 | with a connection, a ping and time left each step sends at least one hash, so the run finishes in at most as many steps as the snapshot has hashes |
| `SnapshotSync.NextStepEnds` | bxcommon/services/tx_sync_service.py:120-213 | a run that goes on ends at its next step by inactivity exactly if the peer is inactive, and by time exactly if 900 s have passed since the first non-zero clock reading of the run; without a ping it only waits |
| `SnapshotSync.BuildTakesFromEnd` | bxcommon/services/tx_sync_service_helpers.py:17-46 | a message takes hashes from the end of the snapshot, at least one, until the size target, the time or the snapshot ends it, with the short ids and flags that the cache holds for each, and its content if contents are synced and an empty one if not |
| `SnapshotSync.CreateTxsServiceMsg` | bxcommon/services/tx_sync_service_helpers.py:17-46 | the loop computes the specified items and remainder |
| `TxSyncServices.TxSyncService.SendTxServiceSyncTxsFromBuffer` | bxcommon/services/tx_sync_service.py:329-445 | outbox and pending alarms change as the step says, and the alarm is left exactly while the run goes on |
| `TxSyncServices.TxSyncService.SendTxServiceSyncTxs` | bxcommon/services/tx_sync_service.py:120-213 | outbox and pending alarms change as the step says |
| `AlarmPasses.PassFiresExactlyDue` | bxcommon/utils/alarm_queue.py:206-247 | one pass fires exactly the active alarms due at its start, once each, in order of fire time, then count; one whose callback returned a delay above zero is queued again, the same alarm at the clock of the callback plus that delay; all others stay as they were |
| `AlarmPasses.HeapAfterDecreases` | bxcommon/utils/alarm_queue.py:218-244 | each turn of the loop lowers the number of due alarms |
| `ApproxAlarms.PassKeeps` | bxcommon/utils/alarm_queue.py:282-290 | if approximate callbacks do not reschedule themselves, the assertion about the heads never fails and each function's heap still mirrors its pending alarms |
| `ApproxAlarms.Run` | bxcommon/utils/alarm_queue.py:149-247 | in every reachable queue the heaps agree and two pending approximate alarms of a function are more than its slop apart, less what the clock may move during a registration |
| `ApproxAlarms.RegisterApproxKeeps` | bxcommon/utils/alarm_queue.py:177-193 | an approximate registration keeps the heaps in agreement |
| `ApproxAlarms.RegisterApproxAdds` | bxcommon/utils/alarm_queue.py:177-193 | a registration is absorbed, changing nothing, if and only if an alarm of its function is pending in the window around the time wanted; otherwise exactly one alarm, with the next count, is added to both heaps |
| `ApproxAlarms.RegisterKeeps` | bxcommon/utils/alarm_queue.py:132-147 | a plain registration adds exactly one alarm, with the time given and the next count, and keeps the heaps in agreement |
| `ApproxAlarms.RegisterApproxSpaced` | bxcommon/utils/alarm_queue.py:185-193 | a registration that is not absorbed keeps its distance, less what the clock moves during it, from every pending alarm of its function |
| `ApproxAlarms.RegisterSpacedIff` | bxcommon/utils/alarm_queue.py:179-193 | a registration that is not absorbed leaves the alarms of every function more than its slop apart if and only if the window check would pass at the fire time, too |
| `ApproxAlarms.StandingClockSpacesIff` | bxcommon/utils/alarm_queue.py:179-193 | for a slop that is not negative, a registration keeps the spacing of every queue if and only if the clock stands still between window check and registration |
| `ApproxAlarms.CancelledNeverFires` | bxcommon/utils/alarm_queue.py:195-204 | after a cancellation the next pass fires exactly the other due alarms |
| `ApproxAlarms.ReschedulingBreaksHeads` | bxcommon/utils/alarm_queue.py:240-247 | a concrete run in which an approximate alarm reschedules itself to behind another, and the assertion fails when that one fires |
| `ApproxAlarms.DriftBreaksSpacing` | bxcommon/utils/alarm_queue.py:179-193 | a concrete run in which the clock moves between window check and registration and two alarms end up closer than the slop |
| `RescheduledAlarms.PassOkIff` | bxcommon/utils/alarm_queue.py:240-247 | from heaps in agreement, the assertion about the heads holds throughout a pass if and only if no due alarm that does not reschedule itself stands behind one of its function that does |
| `RescheduledAlarms.RescheduleMirrorsIff` | bxcommon/utils/alarm_queue.py:240-247 | the heaps agree after an approximate alarm reschedules itself if and only if its new time comes before every other pending alarm of its function |
| `RescheduledAlarms.MirrorsThroughoutIff` | bxcommon/utils/alarm_queue.py:206-247 | the heaps agree before every alarm of a pass and at its end if and only if each rescheduled alarm comes, at its new time, before all that were behind it |
| `RescheduledAlarms.OrderlyPassKeeps` | bxcommon/utils/alarm_queue.py:282-290 | in such a pass the assertion never fails, and the next pass finds the heaps in agreement |
| `RescheduledAlarms.MirrorsAlwaysIff` | bxcommon/utils/alarm_queue.py:149-247 | in a run of registrations, cancellations and passes the heaps agree all the time if and only if every pass is of that kind |
| `ApproxAlarms.UnregisterKeeps` | bxcommon/utils/alarm_queue.py:195-204 | cancelling a plain alarm leaves the approximate ones and every other active one alone, and an active head |
| `AlarmQueues.AlarmQueue.RegisterAlarm` | bxcommon/utils/alarm_queue.py:132-147 | a negative delay raises and changes nothing; otherwise the queue gains the alarm, unless it fires at once |
| `AlarmQueues.AlarmQueue.RegisterApproxAlarm` | bxcommon/utils/alarm_queue.py:149-193 | the scan of the function's heap decides as specified |
| `AlarmQueues.AlarmQueue.UnregisterAlarm` | bxcommon/utils/alarm_queue.py:195-204 | the alarm is inactive wherever it stands and the head of the queue is active |
| `AlarmQueues.AlarmQueue.FireAlarms` | bxcommon/utils/alarm_queue.py:206-247 | the loop reaches the specified queue, fired alarms and assertion outcome |
| `AlarmHeaps.HeapPush` | bxcommon/utils/alarm_queue.py:145-145 | pushing adds one element and keeps the heap order |
| `AlarmHeaps.HeapPop` | bxcommon/utils/alarm_queue.py:219-219 | popping removes the root only and keeps the heap order |
| `AlarmHeaps.RootIsLeast` | bxcommon/utils/alarm_queue.py:69-73 | no element of a heap is less than its root, by fire time, then count |
| `NeedlemanWunsch.ScoreIsMaximal` | scripts/analysis_competitors.py:407-473 | no pair of aligned strings, of any length, scores more than the score returned |
| `NeedlemanWunsch.ResultIsAlignment` | scripts/analysis_competitors.py:452-473 | when no input holds the gap symbol the strings returned align the inputs and have the score returned |
| `NeedlemanWunsch.InputsComeBackIff` | scripts/analysis_competitors.py:452-473 | the strings returned have one length, and erasing gaps gives an input back if and only if it holds no gap symbol |
| `NeedlemanWunsch.NoAlignmentBeatsBest` | scripts/analysis_competitors.py:429-450 | no sequence of moves over two prefixes scores more than the matrix entry |
| `NeedlemanWunsch.TraceReachesBest` | scripts/analysis_competitors.py:452-471 | the traced moves score the matrix entry |
| `NeedlemanWunsch.TraceIsPreferred` | scripts/analysis_competitors.py:443-448 | among all best alignments the traced one is first, read from the end, preferring diagonal to up to left |
| `NeedlemanWunsch.StringsAreMoves` | scripts/analysis_competitors.py:407-410 | every pair of aligned strings is spelled by moves of the same score |
| `NeedlemanWunsch.ScoreCountsColumns` | scripts/analysis_competitors.py:407-410 | the score of two aligned strings is the number of columns with equal symbols, with different symbols and with a gap, each times its weight |
| `NeedlemanWunsch.FillMatrices` | scripts/analysis_competitors.py:414-450 | the nested loops fill both matrices as specified |
| `NeedlemanWunsch.TraceBack` | scripts/analysis_competitors.py:452-471 | the walk through the traceback matrix spells the traced moves and ends |
| `NeedlemanWunsch.NeedlemanWunsch` | scripts/analysis_competitors.py:407-473 | returns the aligned strings and score of the specification |
| `Router.QuoteIsLeastInput` | configs/router.py:251-263 | an input is at least the quote if and only if paying it, less the fee, makes the product of the reserves grow (section 3.2.1 of the Uniswap v2 Core whitepaper) |
| `Router.QuoteMonotone` | configs/router.py:251-263 | more output never costs less input, and any output costs something |
| `Router.QuoteRefusesIff` | configs/router.py:251-254 | a pool with reserves refuses if and only if its reserve is below twenty times the amount wanted |
| `Router.PoolKeyOrdered` | configs/router.py:370-379 | the key is the smaller token followed by the larger, and the index is where the first argument stands |
| `Basics.StringLessIff` | configs/router.py:371-371 | a string is less than another if it is a proper prefix, or smaller at the first place where they differ |
| `Router.PoolKeySymmetric` | configs/router.py:370-379 | both orders of two tokens give one key and opposite indexes |
| `Router.PoolKeyInjective` | configs/router.py:370-379 | two pairs of tokens of one length share a key only if they are the same pair |
| `Router.FoundIsCheapest` | configs/router.py:146-170 | the route returned is one of those over an ordering of some of the hub tokens, none is cheaper, none as cheap is shorter, and of those as cheap and as short it is the first in the order of the hub tokens |
| `Router.NothingFoundIff` | configs/router.py:146-170 | -1 is returned if and only if no ordering of any subset of the hub tokens gives a feasible route |
| `Router.FoundIsChain` | configs/router.py:153-168 | the hops deliver the target first, and each later hop delivers exactly what the one before needs, over the pool of its two tokens |
| `Router.ChainIsExecutable` | configs/router.py:157-164 | over constant-product pools each amount of the chain suffices for its pool and one less would not |
| `Router.NoChainBeatsFound` | configs/router.py:146-170 | no chain of hops from the target to the token paid, over any ordering of some of the hub tokens, costs less than the route returned, and none as cheap is shorter |
| `Router.ChainIsFollowed` | configs/router.py:154-164 | the inner loop finds every such chain |
| `Router.FollowIsChain` | configs/router.py:154-164 | the inner loop builds such a chain |
| `Router.PermutationsSound` | configs/router.py:151-152 | the enumeration holds arrangements of hub tokens only |
| `Router.PermutationsComplete` | configs/router.py:151-152 | and every arrangement of every subset |
| `Router.PermutationsInOrder` | configs/router.py:151-152 | in lexicographic order of the places of the hub tokens, and without repetition of places |
| `Router.QuoteAlong` | configs/router.py:154-164 | the inner loop computes the specified route or fails where a hop does |
| `Router.FindRouts` | configs/router.py:146-170 | the loops compute the specified search |
| `Liquidation.EveryPairBounded` | compound.py:633-704 | every pair in the result repays between nothing and what the close factor allows of one listed debt, and seizes between nothing and the collateral held; before the treasury's part, seize and repay meet their exact ratio up to one unit each way despite every rounding, and one of the two caps is reached; the profit is the worth of what is seized less that of what is repaid, rounded down |
| `Liquidation.SimulateRaisesIff` | compound.py:633-704 | in a market with positive divisors the simulation raises if and only if some reserve is of an unknown cToken or has a debt without an interest index |
| `Liquidation.AmountsBounded` | compound.py:671-681 | before the treasury's part, seize times denominator is at most numerator times repay plus one, and falls short of numerator times repay by no more than the roundings, and either the whole repay amount or the whole collateral is used |
| `Liquidation.TreasuryBounded` | compound.py:687-687 | the treasury's part is between nothing and all of what is seized |
| `Liquidation.ReverseIffCovered` | compound.py:620-621 | the repay amount computed backwards is the greatest whose product with the ratio, unrounded, does not exceed the amount given |
| `Liquidation.ReverseFallsShort` | compound.py:616-621 | seizing for it falls short of the amount given by the remainder of the division, scaled down and rounded up, so it gives the amount back if and only if there is none, and one unit more always repays for it in full |
| `Liquidation.EntriesAreRanked` | compound.py:653-702 | debts are gone through by falling normalised amount, then address, then repay amount; exactly those of at least eight tenths of the largest get an entry, in that order, and each list has its pairs by falling profit |
| `Liquidation.EntriesAreTheLargeDebts` | compound.py:656-702 | there is one entry for each debt kept, or none when there is no collateral |
| `Liquidation.DebtsAreTheReserves` | compound.py:635-647 | there is one debt for each reserve borrowed from, with its accrued and capped amounts |
| `Liquidation.PairsAreTheCollaterals` | compound.py:665-698 | there is one pair for each collateral held |
| `Liquidation.SortedDescending` | compound.py:701-701 | sorting puts no better element behind a worse one |
| `Liquidation.SortedStable` | compound.py:701-701 | sorting keeps elements that tie in their order |
| `Liquidation.CollectDebts` | compound.py:634-647 | the loop collects the specified debts or raises |
| `Liquidation.LiquidationSimulation` | compound.py:633-704 | the nested loops compute the specified entries or raise |
| `UserStates.EveryRunConserves` | configs/users.py:274-348 | after any logs and trims from an empty cache the balances of each cToken sum to zero, and its supply is the negated balance of its own account and the sum of all other balances |
| `UserStates.RunKeepsLedger` | configs/users.py:331-348 | in every run a balance is what the applied transfers brought the user less what they took, trims or not |
| `UserStates.RunKeepsLastReported` | configs/users.py:354-378 | in every run a debt is the one the latest borrow or repayment reported |
| `UserStates.RunKeepsTotals` | configs/users.py:354-405 | in every run the borrow index is that of the latest accrual, the total borrow that of the latest accrual, borrow or repayment, the total reserve the latest one set plus the reserve factor's part of each interest accrued since, rounded down, and the reserve factor never changes |
| `UserStates.RunKeepsDebtIndex` | configs/users.py:354-378 | in every run the index recorded with a debt is the one in force at the latest borrow or repayment |
| `UserStates.UpdateTouchesOnly` | configs/users.py:304-378 | a log adds exactly the users it names, and no other record than theirs for its reserve changes |
| `UserStates.ChangedAreTheTouched` | configs/users.py:190-378 | the users reported as changed are exactly those named, as 1 if they had a record for the reserve and 2 if not, and none when the log raises |
| `UserStates.UpdateKeepsConserved` | configs/users.py:304-414 | every log, applied or raising, keeps the conservation law |
| `UserStates.TrimKeepsConserved` | configs/users.py:274-297 | trimming keeps the conservation law |
| `UserStates.TrimDropsOnlyEmpty` | configs/users.py:274-297 | a record survives if and only if it holds a balance or a debt, unchanged; every user stays |
| `UserStates.TrimLeavesNoBareUserIff` | configs/users.py:293-297 | trimming leaves no user without records if and only if every user held a balance or a debt before, since it deletes no user |
| `UserStates.BareAfterRunIff` | configs/users.py:274-297 | in every run from an empty cache, the users that trimming keeps without records are those whose applied transfers add up to nothing and whose last reported debt is nothing in every reserve |
| `UserStates.TrimKeepsBareUsers` | configs/users.py:293-297 | an amount transferred and transferred back leaves two users that trimming keeps without records |
| `UserStates.UpdateRaisesIff` | configs/users.py:304-414 | a log raises if and only if it is malformed or needs a cToken that the cache does not hold, and the set of cTokens never changes |
| `UserStates.SupplyIsHeldByOthers` | configs/users.py:341-345 | under the conservation law the supply equals the sum of the balances of all accounts but the cToken's own |
| `StatesCache.States.CheckUserAndReserve` | configs/users.py:190-200 | the record exists afterwards, and the result tells a new one from an old one |
| `StatesCache.States.Update` | configs/users.py:304-414 | the fields, the changed users and the raising are the specified ones, also when it raises half way |
| `StatesCache.States.Trim` | configs/users.py:274-297 | the marking and the deleting loop reach the specified records |
| `StatesCache.States.QueryEventsLoop` | configs/users.py:605-629 | the windowed loop reaches the specified state, position and ending |
| `EventSync.EveryRetryIsOnePass` | configs/users.py:605-637 | after any number of attempts none of which raises in an update, with any fetches failing and any targets, the cache is what one pass over the blocks so far gives |
| `EventSync.HistoryDoesNotMatter` | configs/users.py:605-637 | two histories of attempts none of which raises in an update, and which reach the same block, leave the same cache |
| `EventSync.AttemptExtendsOnePass` | configs/users.py:605-629 | an attempt that does not raise extends one pass by whole windows, never beyond the target, and reaches it exactly when it says so |
| `EventSync.ReachesTargetIff` | configs/users.py:605-629 | an attempt whose fetches succeed reaches the target if and only if no log on the way makes the cache raise |
| `EventSync.FetchesCover` | configs/users.py:605-620 | each fetch covers 2000 blocks, the last one what is left: with quiet logs and the first failure after n fetches the position is 2000 n blocks on, or the target |
| `EventSync.RaisedAttemptIff` | configs/users.py:616-627 | an attempt that raises stands before the window with the raising log, with the logs up to it applied, and leaves what one pass gives if and only if these left the cache as it was |
| `EventSync.QuietRetriesNeverRaise` | configs/users.py:605-637 | no attempt raises while no log up to the targets meets the guard |
| `EventSync.RetryStopsBefore` | configs/users.py:605-637 | while a block has a log that meets the guard, no number of attempts gets to that block |
| `EventSync.SomeRetryReachesIff` | configs/users.py:605-637 | some attempts reach a block if and only if no log up to it meets the guard, so retrying never gets past a log that raises |
| `EventSync.RetryAfterRaiseAppliesTwice` | configs/users.py:621-626 | a log that raises leaves its window half applied and the position before it, so a retry applies the earlier logs twice |
| `EventSync.ApplyRaisesIff` | configs/users.py:621-625 | a range of logs raises if and only if one of them meets the guard |
| `EventSync.ApplyIsRun` | configs/users.py:621-625 | a range of logs is a run of the cache, so the laws of runs hold for synced caches |
| `ConnectionPools.Run` | bxcommon/connections/connection_pool.py:53-170 | in every run from consistent indexes the five of them hold the same connections: each in exactly one type list, no list empty, counts per address exact, no node-id entry dangling |
| `ConnectionPools.EmptyIsSound` | bxcommon/connections/connection_pool.py:43-49 | a new pool is consistent |
| `ConnectionPools.StepKeeps` | bxcommon/connections/connection_pool.py:53-170 | opening, authenticating and closing keep the indexes consistent |
| `ConnectionPools.AuthenticateKeeps` | bxcommon/connections/abstract_connection.py:675-680 | taking a peer id, changing the type if it differs, and being indexed keep the pool consistent and its members the same |
| `ConnectionPools.UpdateTypeKeeps` | bxcommon/connections/connection_pool.py:79-92 | a pooled connection that changes its type stays in every index, under its new type and its peer id; it raises exactly without a peer id |
| `ConnectionPools.AddKeepsIff` | bxcommon/connections/connection_pool.py:53-67 | an accepted addition keeps the indexes consistent if and only if its arguments are the connection's own and its slot is free |
| `ConnectionPools.DeleteKeeps` | bxcommon/connections/connection_pool.py:143-170 | deleting a pooled connection never raises and takes it, and nothing else, out of every index |
| `ConnectionPools.IndexKeepsIff` | bxcommon/connections/connection_pool.py:91-92 | indexing a node id keeps the indexes consistent if and only if the connection is pooled and bears that, non-empty, id |
| `ConnectionPools.PeerIdKeepsIff` | bxcommon/connections/abstract_connection.py:675-676 | a connection may take a peer id if and only if the pool does not list it under another one |
| `NodeIdLookups.StepListedIff` | bxcommon/connections/connection_pool.py:143-170 | an operation keeps the peer id of every pooled connection in the node-id index if and only if it neither opens one under an unlisted id nor closes one whose id another shares; authenticating always does |
| `NodeIdLookups.AlwaysListedIff` | bxcommon/connections/connection_pool.py:91-170 | a lookup by peer id finds someone throughout a run if and only if no operation of it is of those two kinds |
| `NodeIdLookups.SharedIdIsLost` | bxcommon/connections/connection_pool.py:167-170 | a concrete run, for any two connections: both authenticate under one id, the first is closed, and the second is still pooled but no longer in the index |
| `ConnectionPools.LookupIsExact` | bxcommon/connections/connection_pool.py:109-123 | a lookup by types yields every pooled connection whose type shares a flag with one of them, and none twice |
| `ConnectionPools.EveryRunLooksUpExactly` | bxcommon/connections/connection_pool.py:109-123 | and does so after every run from the empty pool |
| `ConnectionPools.CollectedInOrder` | bxcommon/connections/connection_pool.py:109-123 | the lists come in the order of their types |
| `ConnectionPools.AddDoes` | bxcommon/connections/connection_pool.py:53-67 | on any pool: a taken address pair is refused and nothing changes; otherwise slot, address pair, list of its type and count change for this connection only, and the slots grow by hundreds only if they must |
| `ConnectionPools.DeleteDoes` | bxcommon/connections/connection_pool.py:143-170 | on any pool: when it raises, and which of slot, address pair, type list, peer id and count have changed then; an address pair that a connection with another slot holds by now stays |
| `ConnectionPooling.ConnectionPool.Add` | bxcommon/connections/connection_pool.py:53-67 | changes the fields as specified, growing the slots in chunks, or raises and changes nothing |
| `ConnectionPooling.ConnectionPool.Delete` | bxcommon/connections/connection_pool.py:143-170 | changes the fields as specified, up to where it raises |
| `ConnectionPooling.ConnectionPool.UpdateConnectionType` | bxcommon/connections/connection_pool.py:79-89 | deletes, changes the type in the connection, adds and indexes as specified |
| `ConnectionPooling.ConnectionPool.GetByConnectionTypes` | bxcommon/connections/connection_pool.py:109-123 | the loops collect the specified lists in their order |
| `Transmissions.ParseInvertsEncoding` | configs/signals.py:92-140 | a call whose first word points at a report, anywhere in the data, is priced if and only if it pays enough for gas, is not stale and reports an observation; the price is the middle observation, exactly if that is not negative, and the epoch the last five bytes of the context |
| `Transmissions.RefusedIff` | configs/signals.py:92-115 | a call without arguments, of another function, or paying less than nine tenths of the local gas price is refused for exactly that reason and changes no epoch |
| `Transmissions.NoReportContextIff` | configs/signals.py:117-124 | any other call raises for lack of a report context if and only if its first word points past the data |
| `Transmissions.FromBytesConcat` | configs/signals.py:119-119 | the most significant byte comes first |
| `Transmissions.RoundTrip` | configs/signals.py:92-140 | for any number of observations, parsing an encoded transmit call records its epoch and gives the middle observation if and only if that is not negative, and otherwise 2^256 more |
| `Transmissions.EncoderPointsAtReport` | configs/signals.py:17-19 | the standard encoding of the arguments points at its report |
| `Transmissions.EpochsNeverDecrease` | configs/signals.py:125-129 | in every run of calls, well formed or not, the epoch of an aggregator never decreases |
| `Transmissions.ParseKeepsEpochs` | configs/signals.py:125-129 | no call lowers an epoch or touches that of another aggregator |
| `Transmissions.WordsRead` | configs/signals.py:131-137 | the loop over an encoded array reads every observation |
| `PriceSignals.Signals.TxFilterAndParsing` | configs/signals.py:92-140 | price, error and recorded epoch are the specified ones, the epoch also where no observation follows |

## Left out

- Clocks: an operation reads the clock once where nothing depends on two readings; where it matters (approximate
  registration, the sync steps) the readings are separate inputs. Times are integers.
- The factors 0.8 of `compound.py` and 0.9 of `configs/signals.py` are exact fractions, not floats.
- Durations, log intervals, statistics, removal history and the dump of removed short ids, which no result depends on.
- Of the short-id flags only the paid one is kept, as the set of paid short ids.
- Transaction hash and cache key are one type.
- Changing the confirmation count during a run, which would exceed the bound on tracked blocks.
- The alarms that the transaction cache registers are counted, not put into an `AlarmQueue`.
- The delay until a sync's next step, which is a float made from the ping latency and the interval.
- `create_txs_service_msg_from_time` and its steps: they resume on strictly later timestamps.
- The extension transaction service and the v6 and v15 record layouts.
- BufferSync.EveryRunDelivers: speaks of buffers that hold what their count says; of others only the step and its
  raising are modelled.
- AlarmPasses.PassFiresExactlyDue: speaks of passes in which the assertion about the heads holds;
  `RescheduledAlarms.PassOkIff` says exactly when it does.
- Alarm callbacks do not touch the queue; `fire_ready_alarms`, whose end depends on the real clock. An alarm in two
  heaps is a value that is written in both at once, told apart by its count.
- Threads: the lock of the alarm queue is taken as granting each operation alone.
- The hub tokens are those held at the call; the constructor that shrinks the shared list, and the single-pool variant
  of the route search, are not modelled. The concentrated-liquidity quoter is a parameter of the search.
- A dictionary that is only gone through is the sequence of its entries.
- The nested user and reserve objects of the position cache are values in maps, so sharing them with another cache
  is not captured.
- The `is_col_liq` field and the hook that sets it by remote calls, the plug-in of the position cache, and the hook's
  counter.
- The entry of the event table with an empty topic never matches a log, so that event counts as unknown.
- A hello message that sets a peer id of its own on a connection, which enters it into no index.
- `update_port` of the connection pool, its metrics, and lookups that are one dictionary access.
- Call data arrives as bytes: turning hexadecimal text into them, and its errors, are not modelled.
- Websockets, remote calls, signing, configuration and command lines.
