# Wormhole explorer: verified models of ingestion, scanning, amounts and keys

The Wormhole explorer is a set of Go services that collect VAAs (signed cross-chain messages), store
and count them, follow their redemption on other chains and price the transfers they carry. This
project models the parts that hold algorithms or protocols and proves what they promise. The command
`dafny verify dfyconfig.toml` checks all of it.

## How the model is laid out

**Ingestion.** `Splitter` is the pair of bounded channels between gossip and processing, stepped over
all interleavings. `Deduplicator` verifies and deduplicates through an expiring, lossy cache.
`Pipeline` is the queue protocol as a state machine: fetching goroutine, wait group, channel,
consuming goroutine, remote queue, document store and key store, where every remote call may fail or
take effect without being acknowledged and the process may crash between any two steps.
`QueueConsumer` holds the loops of `Consume` and `Start` as objects and proves that they perform runs
of that machine. `VaaStore` is the upsert with its counter and event, `LastSequence` the Redis script
over decimal strings.

**Scanning.** `Pagination` is the 64-bit page arithmetic, `Rounds` the sequence of polling rounds and
`BlockScan` the events of a watcher over many runs that stop anywhere. `Visits` says what a watcher does
with one block, given every answer of the node and the stores, and when that applies a redemption.
`Watchers` holds the loops of the EVM, Aptos, Solana and Terra watchers, which are proved to produce those
events and those rounds. `Redemption` is the status rules of a destination transaction, `Replay` asks when
applying updates again stores the same, `Recovery` answers that for crashed and restarted runs, and
`RedemptionRace` splits each call into its check and its write and lets several watchers interleave.

The watchers of a process share one store. `RedemptionRace` treats any number of them. The theorems of
`Redemption` are about calls that do not overlap, which `RedemptionRace.WithoutOverlapSerial` reduces the
interleaved ones to; `Replay`, `Recovery` and `Watchers.Environment` assume that no other watcher writes
the documents meanwhile. The theorems of `BlockScan` and `Visits` do not depend on what is stored.

**Amounts.** `Decimals` is decimal arithmetic with truncation, `PriceMath` the integer and the decimal
computation of a transfer's value, `BigInts` and `Measurements` the heap-allocated tokens and both
measurements, `ParserAmounts` the parser's version of the same normalisation.

**Keys and encodings.** `Numerals`, `Text` and `Codecs` define positional numerals, the printed forms
of `strconv` and `math/big`, hexadecimal, base32 (sections 8 and 6 of RFC 4648) and base58. `TxHash`,
`Addresses`, `Tokens`, `HexNumbers` and `Vaas` are the parsers and key builders on top of them.

The pattern is the same everywhere. Code that changes state is a class whose methods state their whole
effect through a function; theorems about all runs are lemmas about that function.

## What the environment decides

- A remote write has three outcomes (`Writes`): acknowledged, rejected, and applied although an error
  is reported.
- Clocks, expiry, cache losses, reported chain heads, answers of nodes, lookups and prices are
  parameters or arbitrary functions; the theorems hold for all of them.
- Guardian signatures and the VAA byte format are not part of this model: a message either carries a
  VAA or it does not, and verification is a parameter.
- Mongo, Redis, SQS, the Go standard library, the base58 and decimal libraries and the SDK function
  that turns text into an address are modelled by their documented behaviour; their sources are not
  part of this model.
- Go loops that never end take a finite list of heads or messages here.

## Findings

- The page functions cover a range exactly if and only if the last block is below 2^64 - 1 and the
  nominal end of the last page fits 64 bits. Otherwise the last page is empty or its loop never ends.
  A range given backwards can visit blocks from 0 on; exactly when it visits none is stated too
  (`Pagination.CoversExactlyIff`).
- The last send of a PythNet push is free of blocking if and only if the channel has at least one place
  (`Splitter.LastSendNeverBlocksIffBuffered`).
- The block number conversion keeps the value if and only if it is below 2^63
  (`HexNumbers.BlockNumberKeepsValueIff`).
- The cursor passes blocks that were not handled. Every redemption of a passed block had its turn if and
  only if the block has none or some visit obtained its transactions (`BlockScan.TreatedIffOpened`). Over a
  whole run a block is handled if and only if each of its redemptions was, in some visit of the block,
  obtained with the block, resolved by its own requests and written with effect
  (`Visits.Oracle.HandledIff`). The requests for a single redemption can fail after the block arrived: an
  Aptos transaction, a Solana signature list or transaction, and an EVM receipt rate-limited ten times drop
  it, any other receipt error stores status "unknown", and a failed upsert is only logged. Once the cursor
  is past the block no later run makes up for it (`BlockScan.PassedIsDecided`, `BlockScan.LostForGood`).
- For one watcher, crashes and restarts leave the destinations of one uninterrupted pass if and only if
  every update of the visited blocks was written with its own status and the last writes came in chain
  order, both among those with a status and among all (`Recovery.CrashesLeaveNoTraceIff`). Obtaining every
  block in some visit is not enough: a restarted run that applies an earlier redemption of a VAA again and
  then misses the block of a later one rolls the destination back (`Recovery.OpenedBlocksCanRollBack`).
- The stored status of a VAA falls if and only if a lower update is written that passed its check because
  the lookup failed, or before another watcher raised the status (`RedemptionRace.RankFallsIff`). A failed
  redemption on one chain can thus replace a confirmed one on another although every lookup and write
  succeeded (`RedemptionRace.OverlapLosesConfirmation`). The code stays as it is.
- An observation without a transaction hash overwrites the hash observed before, so a VAA can be stored without
  the hash that was known (`VaaStore.EmptyObservationErases`); `VaaStore.HashIsLastFound` says exactly which hash
  is stored.
- The counter of a chain can fall behind its stored VAAs, because errors of the counter write are
  ignored; it is exact if and only if no insertion went uncounted (`VaaStore.CountNeverExceedsStored`).
- Removing "0x" is a single pass and leaves a "0x" exactly when a zero and an x stand around one or more
  of them (`HexNumbers.TagLeftIff`).
- A VAA whose insertion took effect without being acknowledged is never announced, by no later delivery
  either (`VaaStore.AnnouncedIffInsertionAcknowledged`).
- Against a stored decimal string with a superfluous leading zero, which only another writer can leave,
  the script orders rightly only if nines follow the zero (`LastSequence.OrdersRightlyIff`).
- The integer volume can fall short of the stored USD amount, by an amount given exactly; the bound on
  it is reached (`PriceMath.DifferenceIs`, `PriceMath.VolumeEqualsUsdIff`, `PriceMath.BoundIsReached`).
- The comments of api/types/tx_hash.go call Sui hashes base32 and name two formats; the code decodes
  Sui hashes as base58 and knows four formats. The model follows the code.
- Scaling a token's amount twice is wrong for every nonzero amount with fewer than eight decimals, so
  the two copies made by `Push` are needed (`Measurements.ScalingAgainIff`).

## Model

| member | source | states |
|---|---|---|
| Pipeline.DeletedOnlyAfterStoredAndNotified | fly/processor/vaa_queue_consumer.go:45-82 | in every reachable state, with bad payloads, expiry, failing or unacknowledged writes, redelivery and crashes: a deleted message carried a VAA that is stored and whose emitter's last sequence is at least its own |
| Pipeline.NothingIsLost | fly/queue/vaa_sqs.go:58-116 | in every reachable state the messages in the remote queue and the deleted ones are together exactly the published ones, and whatever is not deleted can be fetched again |
| Pipeline.LeavesOnlyWhenDeleted | fly/queue/vaa_sqs.go:111-116 | a message leaves the remote queue only in the deletion that ends its own handling, and a deleted message stays deleted |
| QueueConsumer.DeliveryDeletesIff | fly/processor/vaa_queue_consumer.go:45-82 | handling a message deletes it if and only if it carries a VAA and is not expired, its upsert is acknowledged and, for a new VAA, announced, the notification is acknowledged and the deletion takes effect; messages without a VAA and expired ones change no store |
| QueueConsumer.LateSequenceIsDeleted | fly/notifier/vaa_last_sequence.go:22-28 | a message whose emitter already has a larger last sequence is deleted all the same, and the larger one stays |
| QueueConsumer.RedeliveryDeletes | fly/processor/vaa_queue_consumer.go:45-82 | from every reachable state a published message with a VAA ends up deleted once the process restarts and handles it without a failure |
| Pipeline.LastSequenceIsStored | fly/notifier/vaa_last_sequence.go:56-61 | in every reachable state each last-sequence value outside PythNet is the sequence of a stored VAA of that emitter |
| Pipeline.LastSequenceIsMaximum | fly/notifier/vaa_last_sequence.go:56-61 | under redelivery and crashes each emitter's key holds the largest sequence any notification of the run brought to the store, and is absent if none did |
| Pipeline.BatchBarrier | fly/queue/vaa_sqs.go:58-90 | in every interleaving the wait group is never negative and is zero exactly when all added messages are acknowledged; acknowledgements follow sending order, one each; a batch is fetched only when nothing is outstanding |
| Pipeline.SendNeverBlocks | fly/queue/vaa_sqs.go:66-87 | batches no larger than the channel never block the fetching goroutine |
| Pipeline.AlwaysSafe | fly/processor/vaa_queue_consumer.go:43-84 | the invariant behind the two safety theorems is kept by every step, from every state that has it |
| Pipeline.AlwaysBalanced | fly/queue/vaa_sqs.go:111-120 | wait group, channel, message in hand and acknowledgements stay in balance from every balanced state |
| Pipeline.StoreFollowsChanges | fly/processor/vaa_queue_consumer.go:62-69 | the pipeline drives the document store through a run of upserts, so theorems about upsert runs hold under redelivery and crashes |
| Pipeline.RedeliveryNeverDoubles | fly/storage/repository.go:119-142 | however often messages are redelivered, a VAA outside PythNet is announced at most once and no counter exceeds the stored VAAs |
| QueueConsumer.HandleIsRun | fly/processor/vaa_queue_consumer.go:45-82 | the six protocol steps of one message equal handling it in one go, for every combination of outcomes |
| QueueConsumer.DecodableKeeps | fly/queue/vaa_sqs.go:69-90 | of the received messages only the undecodable ones are skipped; every other one is sent, as often as it was received |
| QueueConsumer.VaaQueueConsumer.ConsumeBatch | fly/queue/vaa_sqs.go:58-90 | for any batch and any room on the channel, the round is a run of the protocol: exactly the decodable messages are sent, in order, a send on a full channel waits for the consumer, and the channel stays first in, first out |
| QueueConsumer.VaaQueueConsumer.MakeRoom | fly/queue/vaa_sqs.go:77-87 | while a send waits, the consumer handles messages in order until the channel takes one more |
| QueueConsumer.SQS.Done | fly/queue/vaa_sqs.go:111-116 | the message leaves the queue when the deletion takes effect; the wait group drops by one either way |
| QueueConsumer.SQS.Failed | fly/queue/vaa_sqs.go:118-120 | the wait group drops by one and the message stays in the queue |
| QueueConsumer.VaaQueueConsumer.Handle | fly/processor/vaa_queue_consumer.go:46-81 | store, keys, queue and wait group after one message, for every outcome |
| QueueConsumer.VaaQueueConsumer.Start | fly/processor/vaa_queue_consumer.go:43-84 | the consumer loop is a run of the protocol that acknowledges the channel's messages in order |
| VaaStore.CountsConserved | fly/storage/repository.go:119-121 | over any run, newly stored VAAs of a chain are the newly counted ones plus the insertions that went uncounted |
| VaaStore.CountNeverExceedsStored | fly/storage/repository.go:347-351 | the counter never exceeds the distinct stored VAAs and equals them if and only if no insertion went uncounted |
| VaaStore.RevisionCountsUpserts | fly/storage/repository.go:84-88 | a document's revision is the number of its upserts that took effect |
| VaaStore.AnnouncedAtMostOnce | fly/storage/repository.go:119-142 | over any run a VAA outside PythNet is announced at most once, also when that attempt failed; a stored VAA is never announced again |
| VaaStore.AnnouncedIffInsertionAcknowledged | fly/storage/repository.go:119-142 | over any run a VAA outside PythNet is stored if and only if some upsert inserted it, and is announced exactly once if that upsert was acknowledged and its event was built, and never otherwise |
| VaaStore.DocumentIsLastWritten | fly/storage/repository.go:73-117 | after any run each collection holds a document for exactly the identifiers that were written and not evicted since, with the VAA and bytes of the last upsert that took effect, whatever it reported |
| VaaStore.HashIsLastFound | fly/storage/repository.go:104-109 | over any run the stored transaction hash is the last observation before the last upsert that took effect, looked it up and found a nonempty one, and is empty if and only if there was no such upsert |
| VaaStore.EmptyObservationErases | fly/storage/repository.go:199-221 | an observation without a hash takes back the one observed before, so that a VAA is stored without |
| VaaStore.PythNetHasNoHash | fly/storage/repository.go:93-103 | documents of PythNet never carry a transaction hash |
| VaaStore.UpsertSucceedsIff | fly/storage/repository.go:119-143 | after any run an upsert reports success if and only if its write is acknowledged and the VAA was stored before or its event is built and delivered |
| VaaStore.InsertionsCountAndAnnounce | fly/storage/repository.go:119-142 | for every chain, PythNet included, the counter is the number of acknowledged insertions whose counter write took effect, and the announcements are those of the acknowledged insertions whose event was built, in order |
| VaaStore.SuccessMeansStored | fly/storage/repository.go:69-143 | an upsert that reports success left the VAA and its bytes in its collection |
| VaaStore.NothingIsForgotten | fly/storage/repository.go:104-110 | over any run stored VAAs stay stored, and a known transaction hash is not erased by an upsert without one |
| VaaStore.Repository.UpsertVaa | fly/storage/repository.go:69-143 | the statements of the upsert have exactly the specified effect on all collections, for every mix of outcomes |
| VaaStore.Repository.UpdateVaaCount | fly/storage/repository.go:347-351 | the chain's counter grows by one when the write takes effect, others stay |
| LastSequence.ScriptOrderIsNumeric | fly/notifier/vaa_last_sequence.go:19-28 | length first, then byte order: on printed numbers this is numeric order |
| LastSequence.OrdersRightlyIff | fly/notifier/vaa_last_sequence.go:14-28 | against a decimal string left by another writer the script orders every printed number rightly if and only if the string has no superfluous leading zero or is a zero followed by nines only |
| LastSequence.ScriptKeepsMaximum | fly/notifier/vaa_last_sequence.go:12-34 | the script stores and replies the maximum of old and new number and touches no other key |
| LastSequence.ScriptRefusesIff | fly/notifier/vaa_last_sequence.go:13-16 | the script refuses exactly the texts that are no decimal number, and then changes nothing |
| LastSequence.NotifySucceedsIff | fly/notifier/vaa_last_sequence.go:56-61 | a notification reports success if and only if the call was acknowledged, whatever is stored and in whatever order sequences arrive |
| LastSequence.SequenceKeyInjective | fly/notifier/vaa_last_sequence.go:56-58 | distinct emitters use distinct keys |
| LastSequence.StoredIsMaximum | fly/notifier/vaa_last_sequence.go:56-61 | after any sequence of calls, with duplicates, failures and lost acknowledgements, each key holds the decimal of the largest sequence that reached the store, and is absent if none did |
| LastSequence.OrderAndRepetitionIrrelevant | fly/notifier/vaa_last_sequence.go:56-61 | the stored keys depend only on the set of sequences that reached the store |
| LastSequence.LastSequenceNotifier.RunScript | fly/notifier/vaa_last_sequence.go:12-34 | the script, branch by branch, has the specified effect and reply |
| LastSequence.LastSequenceNotifier.Notify | fly/notifier/vaa_last_sequence.go:56-61 | one call applies the script to the emitter's key with the printed sequence, reports success exactly when acknowledged and touches no other key |
| LastSequence.LastSequenceNotifier.constructor | fly/notifier/vaa_last_sequence.go:42-54 | the key prefix falls back to the suffix alone when none is configured |
| Vaas.MessageIdInjective | fly/storage/repository.go:70 | chain, address and sequence are recovered from an identifier, so no two VAAs share one |
| Splitter.PythLaneConserves | fly/processor/vaa_gossip_consumer_splitter.go:53-73 | in every interleaving pushed PythNet messages split exactly into delivered, dropped, buffered and pending; delivered then buffered is an in-order subsequence of pushed; drops never outnumber pushes that saw a full channel |
| Splitter.LanesByChain | fly/processor/vaa_gossip_consumer_splitter.go:58-72 | in every interleaving the dropping lane takes exactly the pushed messages whose emitter chain is PythNet and the other lane exactly the others, both in order; only PythNet messages are ever dropped and no other one is lost |
| Splitter.FirstSelectSendsIff | fly/processor/vaa_gossip_consumer_splitter.go:60-62 | the first select sends if and only if the channel has room or, unbuffered, the consumer waits |
| Splitter.DropsOldestAfterFull | fly/processor/vaa_gossip_consumer_splitter.go:57-66 | only the inner select drops, only the oldest entry, only after the first select could not send |
| Splitter.PushDropsAtMostOne | fly/processor/vaa_gossip_consumer_splitter.go:57-66 | each push, whatever is interleaved with it, drops at most one message, and only if its first select found the channel full |
| Splitter.LastSendNeverBlocksIffBuffered | fly/processor/vaa_gossip_consumer_splitter.go:57-66 | with one producer the last send never blocks if and only if the channel is buffered |
| Splitter.OtherLaneIsLossless | fly/processor/vaa_gossip_consumer_splitter.go:101-113 | the other lane delivers everything in order |
| Splitter.CloseDrains | fly/processor/vaa_gossip_consumer_splitter.go:82-99 | a lane's goroutine ends by itself only after everything buffered was handled |
| Splitter.GoroutineEndsIff | fly/processor/vaa_gossip_consumer_splitter.go:87-113 | a lane's goroutine ends by itself exactly at a receive from a closed and empty channel, and handles nothing afterwards |
| Splitter.VaaGossipConsumerSplitter.Push | fly/processor/vaa_gossip_consumer_splitter.go:53-73 | Push performs the steps of the protocol, with the consumer running in between, and keeps the object in the state the protocol reaches |
| Splitter.VaaGossipConsumerSplitter.ExecutePyth | fly/processor/vaa_gossip_consumer_splitter.go:87-99 | the consumer loop moves messages from the channel to the handler in order and loses none |
| Splitter.VaaGossipConsumerSplitter.ExecuteNonPyth | fly/processor/vaa_gossip_consumer_splitter.go:101-113 | the same for the other lane, and how many it handles |
| Deduplicator.SkipsOnlyHandled | fly/deduplicator/deduplicator.go:42-54 | under arbitrary cache loss a VAA is skipped only if the same VAA was handled successfully before; only verified VAAs reach a handler |
| Deduplicator.SkipsEndWithExpiration | fly/deduplicator/deduplicator.go:42-54 | under arbitrary cache loss a VAA is skipped only less than one expiration after a success for it |
| Deduplicator.SkippedIffRecent | fly/deduplicator/deduplicator.go:42-54 | with a lossless cache a verified VAA is skipped if and only if a call for it succeeded less than one expiration ago |
| Deduplicator.OneSuccessPerWindow | fly/deduplicator/deduplicator.go:42-54 | with a lossless cache two successes for one VAA are at least one expiration apart |
| Deduplicator.DeduplicatorCache.Apply | fly/deduplicator/deduplicator.go:42-54 | cache, whether the callback ran, and result, for hit, failure and success |
| Deduplicator.VaaGossipConsumer.Push | fly/processor/vaa_gossip_consumer.go:44-67 | verify, then deduplicate by identifier, then exactly the handler of the VAA's lane |
| Pagination.CoversExactlyIff | contract-watcher/watcher/pagination.go:3-14 | for all 64-bit arguments: the pages visit from..to, each block once and in order, if and only if the last block is below 2^64 - 1 and the last page's nominal end fits 64 bits; a range given backwards visits nothing if and only if no page start wraps, only the last one does and its end wraps too, or the page count wraps to 0 |
| Pagination.PageSizes | contract-watcher/watcher/pagination.go:7-14 | every page of a covered range is nonempty and at most the page size long |
| Pagination.LoopExitsIff | contract-watcher/watcher/evm_standard_watcher.go:124 | the block loop of a page ends if and only if its bound is below the largest 64-bit number |
| Rounds.CurrentIsMaximum | contract-watcher/watcher/evm_standard_watcher.go:84-106 | the current block is the maximum of the start and all heads seen, failed requests counting as 0 |
| Rounds.VisitsAscend | contract-watcher/watcher/terra_watcher.go:95-125 | blocks are visited in nondecreasing order and the last one is the current block |
| Rounds.VisitCounts | contract-watcher/watcher/evm_standard_watcher.go:84-106 | exact multiplicities: from start to current each block once, and each earlier head once more |
| BlockScan.VisitsFormOneInterval | contract-watcher/watcher/evm_standard_watcher.go:59-109 | across any number of crashes and restarts the visited blocks are one interval from the initial block without a gap, and the cursor never passes a visited block |
| BlockScan.CursorNeverMovesBack | contract-watcher/storage/repository.go:86-110 | once written, the persisted cursor never disappears or decreases |
| BlockScan.RestartRevisits | contract-watcher/storage/repository.go:100-110 | a restarted run visits the persisted block again before any other, the first run the configured one |
| BlockScan.TreatedIffOpened | contract-watcher/watcher/solana_watcher.go:189-234 | for a block the run moved on from, every redemption had its turn if and only if the block has none or some visit obtained its transactions; a turn can end in a dropped redemption or a rejected write |
| BlockScan.PassedIsDecided | contract-watcher/watcher/solana_watcher.go:224-232 | once a run is over whose cursor is past a block, no later run, however many follow, changes which of the block's redemptions were applied |
| BlockScan.LostForGood | contract-watcher/watcher/aptos_watcher.go:226-232 | a run in which a block was obtained and one redemption was dropped, lost its status or had its write rejected; no continuation ever applies it |
| Visits.Oracle.VisitAppliesIff | contract-watcher/watcher/evm_standard_watcher.go:124-196 | for each watcher: one visit applies a redemption if and only if an attempt obtained the block, the requests for the redemption succeeded and its write took effect; a further attempt after an obtained block follows only an unacknowledged cursor write |
| Visits.Oracle.HandledIff | contract-watcher/watcher/evm_standard_watcher.go:123-197 | over any sequence of visits a block is handled if and only if each of its redemptions meets that condition in some visit of the block, in terms of what the node and the stores answered |
| Visits.Oracle.TurnsFollowRequests | contract-watcher/watcher/evm.go:126-163 | over any visits, at each redemption's turn: EVM drops it exactly when its requests failed for good and writes it without its status exactly when only that was missed; Aptos and Solana drop it exactly when a request failed; Terra never drops one; lookups and writes are those of that moment |
| Visits.Oracle.VisitWritesCursorIff | contract-watcher/watcher/solana_watcher.go:191-233 | EVM and Aptos write the cursor if and only if one of ten attempts obtains the block, Solana always, although it gives up after three, Terra always and with the block complete; when a visit obtains its block |
| Visits.Oracle.AttemptsEndAtAcknowledgement | contract-watcher/watcher/evm_standard_watcher.go:182-196 | on EVM and Aptos an acknowledged cursor write ends the attempts; while none is acknowledged the block is processed again for every further answer that brings it |
| Recovery.CrashesLeaveNoTraceIff | contract-watcher/watcher/evm_standard_watcher.go:123-197 | one watcher, successful lookups: the destinations stored after any crashes and restarts equal those of one uninterrupted pass, whatever the updates are, if and only if every update of the visited blocks was written with its own status and the last writes came in chain order, both among those with a status and among all |
| Recovery.LosslessRunsRecover | contract-watcher/watcher/evm_standard_watcher.go:123-197 | that condition holds when no run moved on from a block without its transactions, no redemption was dropped or lost its status, no write was rejected and the highest block was finished |
| Recovery.OpenedBlocksCanRollBack | contract-watcher/watcher/evm_standard_watcher.go:123-197 | a two-run history in which every visited block was obtained and every write succeeded, yet an earlier redemption replaces a later one for good |
| BlockScan.StoppedRunExtendsHistory | contract-watcher/watcher/evm_standard_watcher.go:59-72 | a further run from the persisted cursor, stopped after any event, makes a longer history |
| Watchers.SessionJoinsHistory | contract-watcher/watcher/evm_standard_watcher.go:59-72 | what a polling loop did, cut off anywhere, is a run the theorems on histories speak about |
| Watchers.Environment.VisitSavingInside | contract-watcher/watcher/evm_standard_watcher.go:124-196 | the exact events of one block of the EVM and Aptos watchers: retries, each redemption written, dropped or written without its status, the cursor written inside; the block is obtained if and only if the first decisive answer within ten attempts brings it |
| Watchers.Environment.ProcessTransaction | contract-watcher/watcher/evm.go:126-163 | the turn of one redemption, by watcher and by what its requests came to: the store stays when it is dropped, otherwise the update, or on EVM the update with status unknown, is checked and written |
| Watchers.Environment.VisitSavingAfter | contract-watcher/watcher/solana_watcher.go:191-233 | the exact events of one block of the Solana watcher: three attempts, dropped redemptions, and the cursor written afterwards whatever came of them |
| Watchers.Environment.WriteGlobalTransaction | contract-watcher/watcher/watcher.go:21-39 | check, then upsert only what passed |
| Watchers.Environment.GetCurrentBlock | contract-watcher/storage/repository.go:100-110 | the persisted cursor, the configured block where there is none, or an error |
| Watchers.EvmStandardWatcher.Start | contract-watcher/watcher/evm_standard_watcher.go:59-111 | the polling loop starts where earlier runs left the cursor, visits exactly the blocks of the rounds, and makes exactly the events the answers call for |
| Watchers.EvmStandardWatcher.Backfill | contract-watcher/watcher/evm_standard_watcher.go:113-121 | the range is visited once, in order, and the cursor stays unless it is to be persisted |
| Watchers.EvmStandardWatcher.ProcessBlock | contract-watcher/watcher/evm_standard_watcher.go:123-197 | a page is visited block by block, each block finished before the next |
| Watchers.InlinedPagingWatcher.Start | contract-watcher/watcher/aptos_watcher.go:65-120 | the Aptos and Solana loops visit the same rounds, with exactly the events their answers call for |
| Watchers.InlinedPagingWatcher.PageBounds | contract-watcher/watcher/aptos_watcher.go:94-103 | the paging written out in these loops is the shared paging |
| Watchers.InlinedPagingWatcher.CountPages | contract-watcher/watcher/solana_watcher.go:146-147 | the page count converted to a signed integer is the shared count |
| Watchers.InlinedPagingWatcher.ProcessBlock | contract-watcher/watcher/solana_watcher.go:189-234 | a page is visited block by block, in the manner of either watcher |
| Watchers.InlinedPagingWatcher.Backfill | contract-watcher/watcher/solana_watcher.go:179-187 | the range is visited once, in order |
| Watchers.TerraWatcher.Start | contract-watcher/watcher/terra_watcher.go:74-128 | the unpaged loop visits the same rounds, with exactly the events its answers call for |
| Watchers.TerraWatcher.ProcessBlock | contract-watcher/watcher/terra_watcher.go:151-245 | requests repeated at the same offset attempt every update of the block once, in order, over all result pages, whatever the writes come to |
| Watchers.TerraWatcher.Backfill | contract-watcher/watcher/terra_watcher.go:130-149 | the range is visited once, in order |
| Redemption.CheckComparesRanks | contract-watcher/watcher/watcher.go:41-70 | an update passes if and only if it is valid and does not lower the rank, or is valid and the lookup failed; which error is given otherwise |
| Redemption.UpdateStoredIff | contract-watcher/watcher/watcher.go:21-70 | after a successful lookup an update is stored whole if and only if it is completed, or failed over anything but completed, or unknown over neither, and the write takes effect; otherwise nothing changes |
| Redemption.RankFallsIff | contract-watcher/watcher/watcher.go:46-64 | one call that no other overlaps lowers the stored rank if and only if the lookup of an existing document failed and a valid lower update was written |
| Redemption.InvalidNeverStored | contract-watcher/watcher/watcher.go:67-69 | statuses other than the three are never stored |
| Redemption.OnlyDestinationChanges | contract-watcher/storage/repository.go:50-72 | an update leaves the origin part and all other documents alone |
| Redemption.RevisionCountsWrites | contract-watcher/storage/repository.go:50-72 | a call raises the revision of its own document by one exactly when it is written |
| Redemption.StoredIsWinner | contract-watcher/watcher/watcher.go:21-70 | for any sequence of calls that do not overlap and whose lookups succeed, the stored destination is the most recent valid update of maximal rank |
| RedemptionRace.RankFallsIff | contract-watcher/watcher/watcher.go:21-70 | in every interleaving of checks and writes of any watchers, with stops: the stored rank falls if and only if a passed lower update is written whose lookup failed or which another watcher's write overtook |
| RedemptionRace.StopEndsCalls | contract-watcher/processor/processor.go:19-22 | no call that passed its check before the process stopped writes after it |
| RedemptionRace.WithoutOverlapSerial | contract-watcher/processor/processor.go:19-22 | calls of several watchers leave the store that the calls one after the other would, as long as no write falls between check and write of another call on the same document |
| RedemptionRace.StoredIsWinner | contract-watcher/watcher/watcher.go:21-70 | without such overlaps and failed lookups the stored destination is the most recent valid update of maximal rank, whichever watchers made the calls |
| RedemptionRace.OverlapLosesConfirmation | contract-watcher/watcher/watcher.go:21-32 | two watchers whose lookups and writes all succeed and which replace a confirmed destination by a failed one |
| Replay.ReplayStoresSameIff | contract-watcher/watcher/watcher.go:21-70 | applying updates in an order of positions, with repetitions and some without their status, stores what one pass stores, whatever the updates and VAAs are, if and only if every position occurs with its status and the last occurrences are in increasing order, both among those with a status and among all |
| Replay.SuffixReplayChangesNothing | contract-watcher/watcher/watcher.go:21-70 | processing any suffix again changes no stored destination |
| PriceMath.VolumeAgreesWithUsd | analytics/metric/metric.go:398-435 | for nonnegative amount and price the integer volume is at most the USD amount and behind it by at most one unit per started token; they are equal when the price has at most eight decimals |
| PriceMath.DifferenceIs | analytics/metric/mongo.go:83-103 | the exact difference of the two, from the remainder of the division and the dropped price digits |
| PriceMath.VolumeEqualsUsdIff | analytics/metric/metric.go:424-435 | the two are equal if and only if the price has at most eight decimal places or remainder and dropped digits together stay below one unit |
| PriceMath.UsdIsScale | common/prices/volume.go:10-24 | the decimal path is normalised amount times price, cut once at eight decimals |
| PriceMath.NotionalIsScale | analytics/metric/metric.go:424-428 | the integer price is the price cut at eight decimals, whatever its exponent |
| PriceMath.BoundIsReached | analytics/metric/metric.go:430-435 | a concrete transfer where the difference equals the bound |
| Measurements.MeasurementsAgree | analytics/metric/metric.go:330-451 | point and document come together, state the same price and amount, and differ in USD by at most the bound, unless 64 bits overflow |
| Measurements.PointDescribes | analytics/metric/metric.go:328-388 | exactly when a point is made, and that its tags read as the emitter chain, the destination chain and the token of the transfer |
| Measurements.DocumentDescribes | analytics/metric/mongo.go:52-110 | exactly when a document is written, that it names the token and its metadata, and that its numbers are cut at eight decimal places and shorter ones left alone |
| Measurements.MakePointForVaaVolume | analytics/metric/metric.go:330-451 | the point for every branch, and what the in-place scaling leaves in the token even where no point is made |
| Measurements.Metric.UpsertTransferPrices | analytics/metric/mongo.go:42-121 | the document for every branch; the token is not written to |
| Measurements.Metric.VolumeMeasurement | analytics/metric/metric.go:237-281 | the point is recorded when there is one and the write takes effect |
| Measurements.Metric.Push | analytics/metric/metric.go:83-152 | both measurements are taken of the unscaled amount and the original token is unchanged; when the call reports success |
| Measurements.TransferredToken.Clone | analytics/cmd/token/token.go:26-42 | a copy with fresh storage for the amount; nil stays nil |
| Measurements.ScalingAgainIff | analytics/metric/metric.go:398-407 | scaling an already scaled amount changes nothing if and only if the amount is 0 or the token has at least eight decimals |
| ParserAmounts.TransformAmount | parser/processor/processor.go:154-213 | the printed normalised amount, empty wherever something is missing or does not parse |
| ParserAmounts.TransformStandardizedProperties | parser/processor/processor.go:132-151 | amount and fee are transformed through their own chain and address, nothing else changes |
| ParserAmounts.ParserAgreesWithVolume | parser/processor/processor.go:192-212 | the amount printed for a native address reads as the amount the volume path computes for the same token |
| TxHash.ParseIsCanonical | api/types/tx_hash.go:37-61 | parsing the printed form of an accepted hash gives the same hash and flags |
| TxHash.AcceptsIff | api/types/tx_hash.go:37-148 | exactly these strings are accepted: 43, 44, 87 or 88 characters of the base58 alphabet whose leading ones and value make 32 or 64 bytes, 52 characters of the base32 alphabet, or 64 hexadecimal characters with at most one tag |
| TxHash.FlagsFollowLength | api/types/tx_hash.go:63-148 | an accepted hash is a Solana one if and only if it has 87 or 88 characters, and a Wormhole one otherwise |
| TxHash.PrintPreservesDenotation | api/types/tx_hash.go:158-160 | the printed form denotes the same bytes |
| TxHash.SameHashIffSameDenotation | api/types/tx_hash.go:63-148 | two accepted strings print alike if and only if they denote the same bytes in the same encoding |
| TxHash.WormholeAccepts | api/types/tx_hash.go:125-148 | accepted are exactly 64 hexadecimal characters with at most one tag, although two trims run in a row |
| TxHash.AlgorandAccepts | api/types/tx_hash.go:84-102 | accepted are exactly 52 characters of the base32 alphabet, although the decoder skips line breaks |
| Codecs.HexRoundTrip | common/domain/chainid.go:95 | decoding an encoding returns the bytes |
| Codecs.Base58DecodeAfterEncode | common/domain/chainid.go:75 | decoding an encoding returns the bytes, leading zeros included |
| Codecs.Base58EncodeAfterDecode | api/types/tx_hash.go:63-82 | encoding a decoded string returns the string, leading ones included |
| Codecs.Base32RoundTrip | api/types/tx_hash.go:84-102 | decoding an encoding returns the bytes |
| Addresses.TranslateAcceptsIff | common/domain/chainid.go:59-69 | exactly 64 hexadecimal characters are accepted, and which texts translate alike |
| Addresses.TranslatedText | common/domain/chainid.go:71-95 | the native text is base58 of all 32 bytes on Solana and, on EVM chains, 0x and the last twenty bytes in 40 lower-case hexadecimal digits |
| Addresses.TranslateRoundTripIff | common/domain/chainid.go:71-95 | decoding a translated address and padding it recovers the original: always on Solana, on EVM chains if and only if the first twelve bytes are zero |
| Addresses.DecodedText | common/domain/chainid.go:234-265 | the hexadecimal form of a native address: the decoded bytes on Solana, the text itself on EVM chains |
| Addresses.TranslatedLookupFindsOriginal | common/domain/chainid.go:234-265 | the lookup through a translated address finds the last list entry for the original address |
| Addresses.LookupNative | parser/processor/processor.go:160-190 | decode, pad, print and look up equals a scan of the list for the address denoted |
| Tokens.TokenProvider.constructor | common/domain/tokens.go:42-76 | both indexes answer like a scan of the whole list from its end |
| Tokens.TokenProvider.AddEntry | common/domain/tokens.go:58-69 | one loop iteration keeps both indexes equal to a scan of the entries read so far |
| Tokens.TokenProvider.GetTokenByAddress | common/domain/tokens.go:119-129 | the hashed lookup equals the scan |
| Tokens.TokenProvider.GetTokenByCoingeckoId | common/domain/tokens.go:106-114 | the same by CoinGecko identifier; the empty one is never found |
| Tokens.ScanFindsLast | common/domain/tokens.go:58-69 | the scan answers with the entry of the last matching place, and with nothing if and only if none matches |
| Tokens.ContractIdInjective | common/domain/tokens.go:38-40 | distinct contracts have distinct keys |
| Tokens.TokenIdInjective | common/domain/tokens.go:34-36 | distinct contracts have distinct price keys |
| HexNumbers.DecodeAfterEncode | common/utils/hex.go:16-23 | every 64-bit number survives printing and reading, although every "0x" is deleted |
| HexNumbers.BlockNumberKeepsValueIff | contract-watcher/watcher/evm.go:90-97 | the conversion to decimal keeps the value if and only if it is below 2^63; otherwise the text comes back unchanged |
| HexNumbers.TagVanishes | common/utils/hex.go:12-14 | a tag disappears wherever it stands, and the two sides are cleaned independently |
| HexNumbers.TagLeftIff | common/utils/hex.go:12-14 | a "0x" is left after the removal if and only if the text has a zero and an x with one or more "0x", and nothing else, between them |
| HexNumbers.CleaningAgainIff | common/utils/hex.go:12-14 | a second removal changes the text under the same condition |
| Text.ParseFormat | common/utils/hex.go:16-23 | an unsigned number is read back from its printed form if and only if it fits 64 bits |
| Text.ParseFormatInt | parser/processor/processor.go:192-212 | a signed integer of any size is read back from its printed form |

## Left out

- Recovery.CrashesLeaveNoTraceIff: lookups succeed and no other watcher writes the same documents; otherwise the stored rank can fall at any time, as `RedemptionRace.RankFallsIff` states.
- Watchers.EvmStandardWatcher.Start: heads below 2^63 - 1 and page sizes of one byte, as configured; block loops beyond that wrap or do not end, which `Pagination.CoversExactlyIff` states for the page functions.
- Watchers.InlinedPagingWatcher.Start: the same bounds.
- Watchers.TerraWatcher.ProcessBlock: a node whose requests succeed after finitely many failures; against one that never answers the source's loop does not end.
- Watchers.TerraWatcher.Start: the same bound on heads, and a node whose requests succeed after finitely many failures.
- Watchers.EvmStandardWatcher.Backfill: ranges from at most to whose pages end within 64 bits; what the page functions do with other ranges is stated by `Pagination.CoversExactlyIff`, and block loops over them can be endless.
- Watchers.InlinedPagingWatcher.Backfill: the same ranges.
- Watchers.TerraWatcher.Backfill: the same ranges.
- PythNet documents: the collection is capped and evicts, so counters, revisions and single announcements are stated for the other chains only.
- Splitter.VaaGossipConsumerSplitter.Push: for a buffered channel and with the consumers' turns as parameters; unbuffered channels, `Close` and cancellation are steps of the protocol in `Splitter`.
- Closing the splitter in the middle of a push, and more than one producer.
- Runs of `Backfill` beside a live watcher on the same cursor, and the Ankr watcher in contract-watcher/watcher/evm_watcher.go, whose cursor depends on the order of an API.
- How a watcher finds redemptions in a block's transactions: each block has a list of updates.
- What an announced event carries besides identifier and emitter chain.
- Replacing a transaction hash by another one in a stored VAA (fly/storage/repository.go:227-243).
- Time stamps of documents, generated time stamps of points, metrics, alerts, logging, health checks and the count measurements of `Push`.
- Writing points and documents in the formats of InfluxDB and MongoDB; prices and amounts of the transfer price document stay decimals and are not printed.
- Token decimals outside 32 bits and decimal exponents that overflow.
- PriceMath.VolumeAgreesWithUsd: nonnegative prices and amounts only.
- Addresses.TranslateAcceptsIff: Solana and the EVM-style chains.
- Native addresses of chains other than Solana and the EVM-style ones: bech32, Algorand checksums and the tables for Near, Sui and Aptos. The model reports an error for them; the bech32 pair in the source is not an inverse.
- The repeated requests for one EVM receipt one by one: together they resolve the redemption, drop it, or leave its status unknown.
- The analytics and parser queue consumers, which repeat the queue loop of fly.
- `GetAllCoingeckoIDs`, `Publish` and the configuration of the services: single steps without a further law.
