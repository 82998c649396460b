# Verified model of a Gradido node

A Gradido node keeps every group ledger as a chain of blocks. A block is a file of fixed-size
records: payloads, then one CHECKSUM record, then EMPTY records. A cache of block copies lies on
top of the files. The node rebuilds its indexes (users with balances, friend groups) by replaying
blocks, copies chains from a sibling node, and admits ordered transactions one by one. Timers run
on a pool of executor threads, and large arrays come from a pool of their own.

The project models these parts and proves what they keep, for all inputs, all runs and all
interleavings. `dafny verify dfyconfig.toml` checks all of it.

| file | what it models |
|---|---|
| `Layout.dfy` | payloads over blocks: positions, counts, canonical form |
| `Checksums.dfy` | the checksum of a block under any order of appends and reads |
| `FileTile.dfy` | block files, handles with positions, cached copies (arrays on the heap) |
| `BlockScan.dfy` | the scan of a block and the grammar it accepts |
| `Blockchain.dfy` | append, validation, reads and cache flush over the tiles |
| `Values.dfy` | fixed-point amounts in machine integers |
| `GradidoTypes.dfy`, `LedgerRules.dfy` | transactions; deciding them live, and replaying them |
| `LedgerLaws.dfy`, `LedgerMoney.dfy` | live against replay; conservation |
| `LedgerEffects.dfy` | what each decision credits, debits, refuses and touches, and what the indexes say after whole runs |
| `Ledger.dfy` | the ledger object over a block storage |
| `Node.dfy` | validation, fetching and admission as a state machine with a multiset of tasks |
| `Turns.dfy` | what every sequence of turns of the admission loop keeps |
| `Startup.dfy` | arrivals during validation, and a restart over the files of a run |
| `Delivery.dfy` | from the delivery of a pair to the stored result of what waited for it |
| `Replication.dfy` | sender and receiver of a chain copy |
| `TimerPool.dfy` | the timer pool as a step system |
| `TimerStops.dfy` | what stopping and removing a timer achieves in every interleaving |
| `MemoryPool.dfy` | the array pool with its three linked lists |
| `Packing.dfy` | memo and signatures over multi-part records |
| `Messages.dfy` | from messages of a topic to the chain |
| `Subcluster.dfy` | the admin, node and blockchain directory |

## How the model reads the source

- The hash, the decay over time, answers of other groups and whether a flush interval has passed
  are parameters; every statement holds for all of them. Input and output succeed; positions,
  lengths and missing files are kept.
- Each heap object of the source that is updated in place is a class. Ghost fields record what
  the files hold (`blocks`, `sums`) and how much of the tail block its cached copy shows (`seen`).
- Statements about storage reach up to the first `truncate`, which empties the tiles but leaves
  the counters (src/blockchain.h:535-537). After it, or after an absent user was looked up, the
  flag `Ledger.intact` is false and the storage may answer anything; the task invariant, the
  accounting of batches and the state machine still hold then.
- An exception in a task ends the process (src/worker_pool.cpp:56-74). A method that can throw has a
  result `threw`; what it promises of the node then holds when nothing was thrown.

## Where the code departs from its documentation

In each case the model follows the code. Where a promise fails, the condition under which it holds is
proved, for all inputs or runs, and with it the family of inputs for which it fails.

- Rules #00025 and #00026 of doc/blockchain-rules-v1.txt chain checksums over all records. The value
  that carries a checksum to the next block is never written, so every block starts from zero
  (`GetPrevChecksum`).
- Rule #00015 wants sequence numbers from 1 on without holes. They stay so when topic reset is not
  allowed (`TurnsKeepWorld`, `StaysSequenced`); when it is, a chain may start with any number.
- `append` takes the previous checksum from the cached copy of the tail, but writes only the file.
  A checksum covers its block if and only if the copy was up to date at each append
  (`ChecksumCoversBlockIff`, `ThreeAppendsLoseThePrefix`). Multi-part batches can therefore lose it;
  batches of one record keep it, because admission reads the tail first (`TakeOne`).
- Validation reads the next block through its file handle and throws if that handle is at the end of
  the file. A request of a sibling for this block, which is answered in every state, leaves it there.
  Validation throws if and only if the block was read before and no flush has closed its file
  (`ValidateNextChecksum`, `ReadThenValidate`, `ServeThenValidate`, `SendChecksumsThenValidate`);
  otherwise it leads to READY in one run per block and a last one (`RunValidation`).
- The two tests for full blocks return a nonzero enum value from a boolean function and accept
  (`ValidateNextChecksum`).
- A fetch compares the running record count with the grand total after each block, so it succeeds
  if and only if the chain has at most one block (`FetchRun`).
- Live transfers do not store the new balance in the index (`LiveKeepsBalancesIff`, `SpentTwice`),
  and the live record number of a balance is one too high unless the record opens a block
  (`LiveRecordNumberIff`).
- A transfer to oneself records the balance, decayed twice, plus the amount
  (`SelfTransferConservesIff`, `SelfTransferOfNothing`).
- A node that becomes READY by validation pushes no task to take up the batches that arrived before;
  they wait until the next arrival (`RunContinueValidation`, `ArriveThenValidate`, the ghost field
  `asleep`).
- The queue of waiting batches gives the largest number first (src/blockchain_gradido.h:11-20). Batches
  that have waited together therefore leave the storage intact if and only if none has a number beyond
  the next one, where an empty chain with topic reset allowed takes any; those with the next two numbers
  at once truncate the chain (`LargestFirstIff`, `NextTwoTruncate`).
- Replay computes the record number of an inbound move in 32 bits (`KeptNumberIff`) and does not set the
  time of the user who moves in, so after a restart the balance decays from time zero
  (`RestartKeepsTimeIff`).
- A stop waits for the handler only if the timer is scheduled: a timer that has fired and was not
  started again is left alone, even while its handler is being called (`StopWaits`).
- The signature count is one byte, so it wraps at 256 (`RoundTrip`); a message that cannot be
  translated becomes a batch that asks for a reset (`Translate`).
- Running timers are keyed by time alone (`StartKeepsPartitionIff`). A handler that removes its own
  timer, or starts and stops it, frees its executor too early: a firing is lost if and only if its
  timer is given to that executor before the handler returns (`FiringsAccounted`, `LossIsReachable`),
  and the timer's handler can then run in two threads (`ServedByOne`, `StaleHandlerJoined`,
  `TwoHandlersReachable`).
- A subcluster chain without records admits no live batch, since a latest number is required
  (src/blockchain_base.h:311); statements about its runs therefore start from any records.
- `clear_indexes` of the subcluster chain clears copies of the maps by node type
  (`NodeKeysAfterClearIff`).

## Model

| member | source | states |
|---|---|---|
| `Layout.Extend` | src/blockchain.h:298-346 | one more payload keeps every block but the last full and none empty, and the payload sequence grows by exactly this payload; a block is added if and only if the last is full or there is none |
| `Layout.ExtendAll` | src/blockchain.h:564-572 | appending a batch keeps the packing and appends exactly its payloads in order |
| `Layout.CountLaws` | src/blockchain_base_deprecated.h:361-370 | the record count is payloads plus blocks, is never 1 modulo the block size, and is 0 modulo it exactly when the next payload opens a block |
| `Layout.Position` | src/blockchain.h:455-471 | payload i lies at record (i/(R-1))*R + i%(R-1), which division and rest by R take apart again, below the record count |
| `Layout.PositionOf` | src/blockchain.h:455-471 | the inverse: offset j of block b is payload b*(R-1)+j |
| `Layout.LandsAt` | src/blockchain.h:298-346 | the next payload lands at the record count if it opens a block and otherwise on the last checksum |
| `Layout.InUse` | src/blockchain.h:455-471 | every record index below the count is a payload or the checksum of an existing block |
| `Layout.PackedIsUnique` | src/blockchain.h:290-348 | the payload sequence alone determines the blocks |
| `Layout.Rebuild` | src/blockchain.h:290-348 | appending the payloads of any chain to an empty one gives that chain |
| `Checksums.ChecksumLaw` | src/blockchain.h:298-346 | for every hash and every order of appends and reads, the stored checksum is the fold over the payloads since the last append that found a stale copy |
| `Checksums.FreshChecksum` | src/blockchain.h:191-198 | if no append found a stale copy, the checksum is the left fold over the whole block |
| `Checksums.ChecksumCoversBlockIff` | src/blockchain.h:331-335 | that condition is exact for a collision-free hash |
| `Checksums.ThreeAppendsLoseThePrefix` | src/blockchain.h:331-335 | three appends without a read leave a checksum over the third payload only |
| `FileTile.TileDesc.OpenFile` | src/file_tile.h:137-153 | opening creates a missing file empty, refuses a file of another length, and leaves an open handle where it is |
| `FileTile.TileDesc.CloseFile` | src/file_tile.h:154-164 | closing loses nothing but the handle |
| `FileTile.TileDesc.Write` | src/file_tile.h:165-207 | exactly one record of the file changes; the copy does not; an index beyond the block is refused without effect |
| `FileTile.TileDesc.SyncToFile` | src/file_tile.h:220-242 | the copy is written at the handle's position; with a closed handle the file then equals the copy; every refusal leaves file and handle alone |
| `FileTile.TileDesc.SyncFromFile` | src/file_tile.h:243-260 | the read fails exactly when the handle is at the end, and in both cases the copy afterwards equals the file |
| `FileTile.TileDesc.AllocTileData` | src/file_tile.h:269-273 | a missing copy is allocated all EMPTY; an existing one is kept |
| `FileTile.TileDesc.ReleaseFetchedData` | src/file_tile.h:286-292 | drops the copy |
| `FileTile.FileTile.constructor` | src/file_tile.h:298-308 | one tile per file, nothing open, nothing cached |
| `FileTile.FileTile.AtEndMeansEqual` | src/file_tile.h:243-260 | in every valid state of all tiles a handle at end of file means a copy equal to the file |
| `FileTile.FileTile.Close` | src/file_tile.h:154-164 | closing one tile changes no file, no copy and no other tile |
| `FileTile.FileTile.Release` | src/file_tile.h:286-292 | dropping one copy changes no file and no other tile |
| `FileTile.FileTile.Write` | src/file_tile.h:165-207 | writing one record changes one file in one place and no copy, whatever arrays the tiles hold |
| `FileTile.FileTile.Fetch` | src/file_tile.h:243-267 | reading reports a failure if and only if the handle was at the end; the returned array is the file's contents in both cases, and all other tiles are as before |
| `FileTile.FileTile.AppendTile` | src/file_tile.h:342-349 | a new file holds the two given records and EMPTY ones, its copy equals it, the other tiles are as before |
| `BlockScan.Scan` | src/blockchain.h:205-232 | accepts exactly the blocks with a first CHECKSUM at some k, a PAYLOAD and no EMPTY before k and only EMPTY after it; each refusal has the exit code of its shape |
| `BlockScan.OneExplanation` | src/blockchain.h:205-232 | the shapes exclude each other, so the exit code is determined |
| `BlockScan.CountRecords` | src/blockchain.h:264-271 | counts the records before the first EMPTY one |
| `BlockScan.ImageAccepted` | src/blockchain.h:205-232 | every block of at least one payload with its checksum is accepted, and is full exactly when its last record is the checksum |
| `BlockScan.AcceptedIsImage` | src/blockchain.h:205-232 | conversely an accepted block of known record types is the image of some payloads and a checksum |
| `BlockScan.ImageCount` | src/blockchain.h:264-271 | the count of a block is its payloads plus one |
| `BlockScan.ChainAccepted` | src/blockchain.h:200-262 | every block of every chain that appending can build is accepted, and all but the last are full |
| `BlockStorage.Blockchain.constructor` | src/blockchain.h:276-286 | opens a chain over existing files with nothing validated |
| `BlockStorage.Blockchain.FlushCache` | src/blockchain.h:505-531 | changes no file and nothing of the tail; afterwards all other files are closed, and of the other cached tiles as many as the optimal number allows are still cached |
| `BlockStorage.Blockchain.MaybeFlushCache` | src/blockchain.h:153-157 | the same when the interval has passed, nothing otherwise |
| `BlockStorage.Blockchain.GetPrevChecksum` | src/blockchain.h:171-181 | never throws and is zero for every block of every run |
| `BlockStorage.Blockchain.Append` | src/blockchain.h:290-348 | refines appending to a sequence: files, counters and cache describe the extended chain, the other checksums stay, and checksums that are folds stay folds if the tail's copy was up to date or a block is opened |
| `BlockStorage.Blockchain.OpenBlock` | src/blockchain.h:307-329 | the branch that opens a block: a new tile, two more records, its checksum hashed from zero, its copy up to date |
| `BlockStorage.Blockchain.PutInTail` | src/blockchain.h:330-346 | the branch that overwrites the last checksum: the file becomes the image of one more payload while the copy stays behind |
| `BlockStorage.Blockchain.AppendAll` | src/blockchain.h:564-572 | a batch is appended record by record, in order, all of it |
| `BlockStorage.Blockchain.ValidateNextChecksum` | src/blockchain.h:415-447 | on any files: throws if and only if the next block's handle is at the end of its file and no due flush closes it; otherwise the block is accepted or gets its exit code and is moved away, and the counters advance only on acceptance; on a chain's own files it then always accepts, and the tail's copy is up to date |
| `BlockStorage.ReadThenValidate` | src/blockchain.h:415-447 | for every chain: after a read of the next block, validating it throws unless a flush is due and it is not the last block |
| `BlockStorage.Blockchain.GetBlock` | src/blockchain.h:473-497 | returns exactly the block's file contents after any appends, flushes and reads; throws exactly beyond the last block |
| `BlockStorage.Blockchain.GetRecord` | src/blockchain.h:455-471 | refuses exactly the indexes from the record count on; the others give the payload or checksum at that position |
| `BlockStorage.Blockchain.GetPayload` | src/blockchain.h:455-471 | payload i is read back as it was appended |
| `BlockStorage.Blockchain.GetTransactionCount` | src/blockchain_base_deprecated.h:361-370 | record count minus block count is the number of payloads |
| `BlockStorage.Reopen` | src/blockchain.h:415-447 | validating the files of any chain one by one, with no other reads in between, never throws and restores the chain, with its record count, ready for appends |
| `Values.AddExactIff` | src/blockchain_gradido_def.h:93-103 | the sum is exact, carry included, if and only if no machine integer wraps |
| `Values.SubExactIff` | src/blockchain_gradido_def.h:104-117 | the difference is exact, borrow included, if and only if the decimal part taken away exceeds the other by at most one unit |
| `Values.SubOfNormal` | src/blockchain_gradido_def.h:104-117 | on normalised values it throws if and only if the difference in worth would be negative, and otherwise gives it, normalised |
| `Values.LessIsOrder` | src/blockchain_gradido_def.h:126-129 | on normalised values the comparison is the order of worth |
| `Values.AddThenSub` | src/blockchain_gradido_def.h:93-117 | subtracting what was added gives the value back |
| `Values.MinusExact` | src/blockchain_gradido_def.h:184-195 | the difference of two times is exact; its seconds are the whole seconds between them if and only if the nanoseconds differ by less than a second |
| `LedgerLaws.LiveThenReplay` | src/blockchain_gradido.cpp:222-561 | from equal users and friends, replaying what was decided live looks up no absent user and gives equal users and friends |
| `LedgerLaws.LiveAndReplayAgree` | src/blockchain_gradido.cpp:17-156 | for every run from an empty chain, clearing and replaying the stored records gives exactly the live users and friend groups |
| `LedgerLaws.StepKeepsAgreement` | src/blockchain_gradido.cpp:222-561 | one admitted batch keeps the agreement whatever was stored before, and keeps every stored record replayable |
| `LedgerLaws.BalanceComesFromLastSetter` | src/blockchain_gradido.cpp:20-150 | after replay each user's balance, time and record number come from the last successful record that set the balance; the time is zero when that record is an inbound move |
| `LedgerLaws.KeptNumberIsPosition` | src/blockchain_gradido.cpp:20-150 | below 2^32 records that number addresses exactly this record |
| `LedgerLaws.KeptNumberIff` | src/blockchain_gradido.cpp:71-79 | for an inbound move it does so if and only if the record lies below 2^32 |
| `LedgerLaws.DeliveryDecidesIff` | src/blockchain_gradido.cpp:307-377 | a transaction that waits has asked for its pair; after a delivery it is decided, whatever the other group answers, if and only if this pair was delivered, and then as the pair was |
| `LedgerLaws.DeliveredDecides` | src/blockchain_gradido.cpp:583-590 | every transaction that waits for a pair is, once it is delivered, decided as this pair was, whatever the record count and the other group's answer |
| `LedgerMoney.TransferConservesIff` | src/blockchain_gradido.cpp:393-443 | in a successful transfer between two users the subtraction does not throw, and the recorded balances sum to the decayed ones if and only if the addition does not wrap |
| `LedgerMoney.SelfTransferConservesIff` | src/blockchain_gradido.cpp:393-443 | a transfer to oneself conserves what the user owns, the balance decayed once, if and only if the amount makes up for a second decay; if that takes nothing, if and only if the amount is zero |
| `LedgerMoney.SelfTransferOfNothing` | src/blockchain_gradido.cpp:415-421 | the failing input at amount zero: under a halving decay a user who owns 4 is left with 2 |
| `LedgerMoney.LiveKeepsBalancesIff` | src/blockchain_gradido.cpp:222-561 | live and replayed balances still agree after a decided transaction if and only if it is not a transfer between known users, covered or with a successful pair, that moves something |
| `LedgerMoney.SpentTwice` | src/blockchain_gradido.cpp:415-441 | the concrete case: a second transfer of the whole balance is accepted live and refused after a restart |
| `LedgerMoney.LiveRecordNumberIff` | src/blockchain_gradido.cpp:258-259 | the live record number is the record's position if and only if the record opens a block, else one too high |
| `LedgerMoney.LiveStampsRecCount` | src/blockchain_gradido.cpp:258-261 | a live step that sets a user's balance stamps the record count and the time of the transaction |
| `LedgerEffects.CreationCredits` | src/blockchain_gradido.cpp:234-264 | a creation for a known user succeeds; record and index hold what the user owns, decayed over the whole seconds since, plus the amount, if and only if the addition does not wrap |
| `LedgerEffects.InboundCredits` | src/blockchain_gradido.cpp:444-524 | the same credit on the record of an inbound transfer whose pair succeeded; the index keeps what the user owned |
| `LedgerEffects.OutboundDebits` | src/blockchain_gradido.cpp:525-558 | an outbound transfer is refused if and only if the user owns less than the amount; else the record holds the difference, under the exact condition of the subtraction |
| `LedgerEffects.TransferMoves` | src/blockchain_gradido.cpp:393-443 | a local transfer takes the amount from what the sender owns and adds it to what the receiver owns, each under its exact condition, or is refused |
| `LedgerEffects.PairedResultKnown` | src/blockchain_gradido.cpp:317-349 | the delivered pair counts if it is the right one, else the one in the other group's chain, unchanged |
| `LedgerEffects.LiveVerdict` | src/blockchain_gradido.cpp:222-561 | a transaction waits if and only if its users fit and its pair is unknown; every refusal has its reason, and success means that there is none |
| `LedgerEffects.WaitingHoldsAll` | src/blockchain_gradido.cpp:225-226 | while an inbound move is awaited nothing is decided and nothing changes |
| `LedgerEffects.WaitAsks` | src/blockchain_gradido.cpp:321-332 | a transaction that waits has asked for its pair in the other group; only an inbound move holds back the others |
| `LedgerEffects.LiveOneUser` | src/blockchain_gradido.cpp:222-561 | in every live step: a user whose balance is set gets the time and the record count, the record keeps the user's previous number, and every other user is unchanged |
| `LedgerEffects.ReplayFailsIff` | src/blockchain_gradido.cpp:31-152 | replay looks up an absent user if and only if an accepted record sets the balance of a user who is not there and does not join by it |
| `LedgerEffects.JoinKeepsKnown` | src/blockchain_gradido.cpp:62-79 | replaying a second join of a known user changes nothing |
| `LedgerEffects.KeysAreLastSaid` | src/blockchain_gradido.cpp:31-152 | after replay a user or friend group is known if and only if the last accepted record that spoke of it let it in |
| `LedgerEffects.LiveKeysAreLastSaid` | src/blockchain_gradido.cpp:222-561 | the same for the live indexes of every run |
| `LedgerEffects.LiveComesFromLastSetter` | src/blockchain_gradido.cpp:222-561 | in every run the live balance, time and record number of a user are those of the last record that set the balance, the balance of a transfer being the one before it |
| `LedgerEffects.PreviousIsLastSetter` | src/blockchain_gradido.cpp:251-252 | in every run the previous number in a stored record is the record count at which the last record before it set this user's balance |
| `LedgerEffects.RestartKeepsTimeIff` | src/blockchain_gradido.cpp:71-79 | after every run a restart keeps the time of a user if and only if the last record that set the balance is not an inbound move, or is one from time zero |
| `LedgerStore.Ledger.constructor` | src/blockchain_gradido.cpp:563-567 | a ledger starts with the empty indexes over a storage |
| `LedgerStore.Ledger.ClearIndexes` | src/blockchain_gradido.cpp:563-567 | clears users and friends and restarts the count of indexed blocks |
| `LedgerStore.Ledger.IndexRecord` | src/blockchain_gradido.cpp:31-152 | one stored record changes the maps as replay says, time and record number included; an absent user is looked up exactly when replay has no answer |
| `LedgerStore.Ledger.AddIndexData` | src/blockchain_gradido.cpp:17-156 | the nested loops over blocks and records give the replay of all validated blocks, each block indexed once |
| `LedgerStore.Ledger.CalcFields` | src/blockchain_gradido.cpp:222-561 | deciding a transaction field by field computes what the live rules say, or waits and changes nothing but the awaited pair |
| `LedgerStore.Ledger.Create` | src/blockchain_gradido.cpp:234-264 | the creation branch computes what the live rules say: the decayed balance plus the amount is indexed and recorded, or the unknown user is refused |
| `LedgerStore.Ledger.Transfer` | src/blockchain_gradido.cpp:393-443 | the local transfer branch, field updates in the source's order, computes what the live rules say, also when sender and receiver are one user |
| `LedgerStore.Ledger.Send` | src/blockchain_gradido.cpp:525-558 | the outbound transfer branch computes what the live rules say |
| `LedgerStore.Ledger.MoveIn` | src/blockchain_gradido.cpp:307-377 | the inbound move branch joins, refuses or waits by what is known of the paired transaction |
| `LedgerStore.Ledger.Receive` | src/blockchain_gradido.cpp:444-524 | the inbound transfer branch credits, refuses or waits by what is known of the paired transaction |
| `LedgerStore.Ledger.OnPairedTransactionDone` | src/blockchain_gradido.cpp:583-590 | every transaction that waits for the delivered pair is decided from then on, as this pair was |
| `LedgerStore.Ledger.ReadLastSetter` | src/blockchain_gradido.cpp:20-150 | after replay of a chain below 2^32 records, reading the record number kept for a user gives the last record that set the balance; balance and time of the index are those of this record |
| `LedgerStore.Ledger.GetLatestTransactionId` | src/blockchain_gradido.cpp:158-202 | terminates on every chain and gives the number of the last stored transaction, past parts and checksums over block borders; the tail's copy is then up to date |
| `LedgerStore.Ledger.ScanBack` | src/blockchain_gradido.cpp:163-197 | the backward loop alone, from the last record of a chain that is not empty |
| `GroupNode.Node.constructor` | src/blockchain_base_deprecated.h:229-254 | a node starts INITIAL with one validation task |
| `GroupNode.Node.RunContinueValidation` | src/blockchain_base_deprecated.h:256-296 | never meets a wrong state; throws if and only if the next block was read before, and then leaves no validation task; otherwise goes to the next phase, or validates and indexes exactly one more block, or reaches READY with every block indexed exactly once and the indexes the replay of the chain; whether waiting batches are left without a task then; a blank start leaves none without |
| `GroupNode.Node.Begin` | src/blockchain_base_deprecated.h:260-285 | where INITIAL leads: validate, fetch, or start blank with empty indexes and a task for what waits |
| `GroupNode.Node.StartValidation` | src/blockchain_base_deprecated.h:261-267 | clears the indexes and leaves exactly one validation task |
| `GroupNode.Node.ValidateNextBatch` | src/blockchain_base_deprecated.h:179-201 | one step: one more block validated and indexed, after the ones before it, or READY when all were; the indexes stay the replay of what is validated |
| `GroupNode.RunValidation` | src/blockchain_base_deprecated.h:179-201 | on a chain's own files that nobody else reads, one run per block that is not validated and a last one lead from VALIDATING to READY, for any flushes; waiting batches are left without a task if and only if there was none and no pair is awaited |
| `GroupNode.Node.ResetValidation` | src/blockchain_base_deprecated.h:170-178 | back to INITIAL with exactly one validation task |
| `GroupNode.Node.OnBlockChecksum` | src/blockchain_base_deprecated.h:102-127 | sums sizes, and resets exactly when a size follows a short block; throws exactly in a wrong state, without effect |
| `GroupNode.Node.OnChecksumsEnd` | src/blockchain_base_deprecated.h:102-127 | starts fetching blocks from the first; throws exactly in a wrong state, without effect |
| `GroupNode.Node.OnBlockRecord` | src/blockchain_base_deprecated.h:87-99 | a record is appended exactly when the position filter takes it; throws exactly in a wrong state, without effect |
| `GroupNode.Node.OnBlockEnd` | src/blockchain_base_deprecated.h:67-86 | goes on, validates or resets by the comparison with the grand total, with one validation task unless it goes on; throws exactly in a wrong state, without effect |
| `GroupNode.Node.Place` | src/blockchain_base_deprecated.h:319-353 | the fate of a batch is the one that its number, the latest stored one and the live rules give; the payloads grow by exactly its decided main record and its parts if it is appended, and by nothing otherwise |
| `GroupNode.Node.Admit` | src/blockchain_base_deprecated.h:330-337 | if the transaction is decided, its decided main record and its parts are stored and indexed; if it waits, nothing is stored and a pair has been asked for; live and replayed keys stay in agreement |
| `GroupNode.Node.TakeOne` | src/blockchain_base_deprecated.h:302-355 | for any choice of the batch taken: stored payloads, indexes, awaited pair, waiting batches, log of appended batches, dropped and refused ones change exactly as the turn says, and the storage is truncated if and only if the batch leaves a hole or is an allowed reset mark; the numbers stay 1, 2, 3, ..., and with one-record batches all checksums stay folds |
| `GroupNode.Node.TakeMark` | src/blockchain_base_deprecated.h:310-321 | a reset mark or an empty batch is refused: it throws unless topic reset is allowed, and then the storage is truncated |
| `GroupNode.Node.FatesAgree` | src/blockchain_base_deprecated.h:319-353 | the fate read off the node's storage object is the one that payloads, indexes and pairing alone give |
| `GroupNode.Node.ContinueWithTransactions` | src/blockchain_base_deprecated.h:298-359 | the loop is a legal sequence of turns: the node's books, indexes and pairing afterwards are those after the turns, one by one; the storage is truncated if and only if one of them finds a hole or an allowed reset mark; it ends when a batch must wait, an exception is thrown, none waits or `batch_size` is reached, and pushes a task exactly when it could go on; outside READY nothing changes |
| `GroupNode.Node.RunContinueTransactions` | src/gradido_events.h:785-794 | the same for the task that runs it, which is used up |
| `GroupNode.Node.AddTransaction` | src/blockchain_base_deprecated.h:372-378 | the same for an arrival, with the batch among the waiting ones; outside READY the batch is added to them and nothing else changes; every batch that ever arrived is waiting, stored, dropped with a number up to the latest, or a refused mark |
| `GroupNode.Node.Arrive` | src/blockchain_base_deprecated.h:372-376 | the first locked section of an arrival: exactly this batch is added to the waiting ones |
| `GroupNode.Node.OnPairedTransactionDone` | src/blockchain_gradido.cpp:583-590 | what waits for the delivered pair is decided from then on, successfully if and only if the pair was; the pair is no longer asked for, and one task to take it up is pushed |
| `GroupNode.LiveKeepsRequest` | src/blockchain_gradido.cpp:222-561 | deciding a transaction changes its calculated fields only; one that is not decided has asked for a pair |
| `GroupNode.NumbersOfLog` | src/blockchain_base_deprecated.h:319-353 | the stored numbers are those of the start followed by those of the appended batches |
| `GroupNode.LatestIsLastNumber` | src/blockchain_gradido.cpp:158-202 | the latest id is the last of the stored numbers |
| `GroupNode.SequencedNext` | src/blockchain_base_deprecated.h:319-353 | in a gapless chain the latest number is the number of transactions |
| `GroupNode.StaysSequenced` | src/blockchain_base_deprecated.h:319-353 | with topic reset disallowed no fate of a batch makes a gap or a repeat, and a dropped number was stored before |
| `AdmissionTurns.TurnsKeepWorld` | src/blockchain_base_deprecated.h:298-359 | for every legal sequence of turns without a truncate: no batch is lost or made up, a dropped one had a number up to the latest, nothing stored is taken back and what is added is what the logged batches left behind, live and replayed keys agree, and with topic reset disallowed the numbers stay 1, 2, 3, ... |
| `AdmissionTurns.TurnKeepsWorld` | src/blockchain_base_deprecated.h:302-355 | the same for one turn |
| `AdmissionTurns.LargestFirstIff` | src/blockchain_gradido.h:11-20 | batches that waited together, the largest number taken first: for every sequence of turns the storage stays intact if and only if no waiting number is beyond the next one |
| `AdmissionTurns.NextTwoTruncate` | src/blockchain_gradido.h:11-20 | the failing family: if batches with the next two numbers wait together, the storage is truncated although no number is missing |
| `AdmissionTurns.NextTwoExample` | src/blockchain_gradido.h:11-20 | the concrete case: transaction 1 stored, 2 and 3 waiting |
| `NodeStartup.ArriveThenValidate` | src/blockchain_base_deprecated.h:179-185 | a batch that arrives in VALIDATING is still waiting in READY, without a task to take it up if and only if none was outstanding and no pair awaited |
| `NodeStartup.Restart` | src/blockchain_base_deprecated.h:229-285 | a new node over the files of a READY one validates them to READY: the same payloads in the same blocks, the keys that the live indexes had, indexes that are the replay, gapless numbers and consistency kept |
| `NodeStartup.RestartThenRead` | src/blockchain_gradido.cpp:20-150 | then the record number kept for any user of the old node leads to the last record that set the user's balance; balance and time of the index are those of this record |
| `PairDelivery.DeliveredIsStored` | src/blockchain_gradido.cpp:583-590 | for every sequence of turns after a delivery: the turn that takes the awaited batch, when nothing was stored before it, stores it with the result that follows from its pair |
| `PairDelivery.NextIsDelivered` | src/blockchain_gradido.cpp:583-590 | if no other waiting batch has its number, whatever is stored next after the delivery is this batch, with that result |
| `PairDelivery.DeliverThenContinue` | src/blockchain_gradido.cpp:583-590 | the same for a node that gets the pair and runs the pushed task |
| `Replication.GetChecksums` | src/blockchain_base_deprecated.h:393-422 | the sizes sent are those of the blocks, checksum included; every block is read, and its handle is left at the end of the file unless a later read of the loop flushes |
| `Replication.SizesAddUp` | src/blockchain_base_deprecated.h:393-422 | they add up to the record count |
| `Replication.GetBlockRecord` | src/blockchain_base_deprecated.h:423-446 | gives exactly the non-empty records |
| `Replication.ProvideBlock` | src/gradido_events.h:144-189 | streams exactly the non-empty prefix of a block |
| `Replication.StreamIsWire` | src/gradido_events.h:172-188 | the streams of the blocks are consecutive pieces of the chain's records |
| `Replication.FilterDropsChecksums` | src/blockchain_base_deprecated.h:87-99 | by position alone the receiver drops exactly the checksums, on chains of any length |
| `Replication.DeliverAll` | src/blockchain_base_deprecated.h:87-99 | delivering all records of a chain of any number of blocks to an empty node rebuilds the same blocks |
| `Replication.FetchRun` | src/blockchain_base_deprecated.h:62-127 | a whole fetch reaches VALIDATING if and only if the chain has at most one block, and then it is copied; otherwise the node resets |
| `Replication.ServeThenValidate` | src/blockchain_base_deprecated.h:423-446 | for every node in VALIDATING: after it has served a record of the next block, its validation task throws unless a flush is due and the block is not the last |
| `Replication.SendChecksumsThenValidate` | src/blockchain_base_deprecated.h:393-422 | for every node in VALIDATING: after a request for the checksums its validation task throws unless the next block is not the last and a flush was due at a later read or is due now |
| `TimerPool.StepKeepsInv` | src/timer_pool.cpp:231-616 | every step of a caller, of the main thread, of an executor, or of a handler that stops or removes its own timer keeps the invariant of executors, container and firing counters |
| `TimerPool.RunKeepsInv` | src/timer_pool.cpp:392-616 | that invariant holds after every interleaving |
| `TimerPool.HandOverSucceeds` | src/timer_pool.cpp:392-404 | the executor that the main thread chose always accepts, and then serves this timer with one more call |
| `TimerPool.ServedByOne` | src/timer_pool.cpp:566-616 | no timer is served by two executors, and two threads are in its handler only if one of these calls freed its executor before |
| `TimerPool.StaleHandlerJoined` | src/timer_pool.cpp:496-520 | from every reachable state with such a call of a timer that exists and is not served, and an idle executor outside handlers, a run leads on to two threads in the timer's handler |
| `TimerPool.TwoHandlersReachable` | src/timer_pool.cpp:496-520 | a run in which that happens |
| `TimerPool.FiringsAccounted` | src/timer_pool.cpp:443-537 | in every interleaving the firings of a timer, read off the run, are its handler returns, the calls taken away by stops, those lost, and those on their way; the lost ones are exactly those given to an executor between its freeing by a handler and the return of that handler |
| `TimerPool.CountersShow` | src/timer_pool.cpp:443-537 | the counters of the step system are what the steps of the run say |
| `TimerPool.UndisturbedFirings` | src/timer_pool.cpp:443-537 | if the timer is not stopped or removed while served and no handler frees its executor, handler returns plus the pending count plus the one being handed over are the firings |
| `TimerPool.ModeIsState` | src/timer_pool.cpp:496-537 | what the steps of a run say of an executor, freed or given another timer since, is what its state shows |
| `TimerPool.StartKeepsPartitionIff` | src/timer_pool.cpp:312-334 | starting keeps each timer in exactly one of idle and running if and only if the target is not another timer's key |
| `TimerPool.RunKeepsPartition` | src/timer_pool.cpp:231-404 | so in every such run each timer is idle or running, under one key |
| `TimerPool.StartsIdle` | src/timer_pool.cpp:618-631 | a pool starts with the given number of executors, at least one, all idle |
| `TimerPool.ChoosesServingThenIdle` | src/timer_pool.cpp:566-586 | a timer goes to the executor that serves it, else to an idle one; a new one is made if and only if there is none |
| `TimerStops.RunKeepsOneKey` | src/timer_pool.cpp:312-380 | in every interleaving a timer is scheduled under at most one key, colliding targets included |
| `TimerStops.StoppedDoesNotFire` | src/timer_pool.cpp:336-380 | in every interleaving a timer that was stopped or removed, by a caller or by its own handler, does not fire until it is started again |
| `TimerStops.StopWaits` | src/timer_pool.cpp:336-358 | a stop waits for the executor if and only if the timer is scheduled and served; a stop of a timer that is not scheduled does nothing |
| `TimerStops.RemoveWaits` | src/timer_pool.cpp:360-380 | a removal waits for the executor if and only if the timer is served |
| `TimerStops.UnservedStopIsFinal` | src/timer_pool.cpp:336-380 | after a stop or removal of a timer that is not served, no call of its handler begins until it is started again |
| `TimerStops.StopReturnsWhenServed` | src/timer_pool.cpp:496-520 | when the caller of a stop or removal comes back from waiting, no call of the handler begins until the timer is started again |
| `TimerStops.StopLeavesOneCall` | src/timer_pool.cpp:510-516 | after one round of waiting at most one call is owed to the timer until it is started again |
| `TimerPool.FiresEarliestAndNotBeforeTarget` | src/timer_pool.cpp:285-310 | the timer that fires has the earliest target, strictly before now |
| `TimerPool.LossIsReachable` | src/timer_pool.cpp:496-537 | a run in which the only firing of a timer is lost |
| `MemoryPool.ItemList.Push` | src/memory_managers.h:131-140 | one relinked item at the front of an acyclic list |
| `MemoryPool.ItemList.Pop` | src/memory_managers.h:142-148 | takes the front item out, unlinked, with its payload |
| `MemoryPool.ItemList.DisposeFirst` | src/memory_managers.h:117-129 | moves the front item to another list without its payload |
| `MemoryPool.ListEnds` | src/memory_managers.h:88-149 | following the links from any item ends |
| `MemoryPool.Pool.constructor` | src/memory_managers.h:171-175 | an empty pool |
| `MemoryPool.Pool.Get` | src/memory_managers.h:194-223 | returns an all-zero array that is not in use and was not deleted: the first ready one, else a new one; a block of items is allocated exactly when none is left; the lists stay disjoint and hold every item |
| `MemoryPool.Pool.Release` | src/memory_managers.h:224-230 | takes an outstanding array back, and throws exactly when none is out |
| `MemoryPool.Pool.ReleaseUnused` | src/memory_managers.h:185-192 | deletes ready arrays in order until no more than the ratio allows are left, rounded down, and never an outstanding one |
| `Packing.Constants` | src/blockchain_gradido_def.h:366-368 | the sizes and part counts that follow from the record layout |
| `Packing.Translate` | src/blockchain_gradido_translate.cpp:148-323 | asks for a reset exactly when the signature count is not allowed or the message is a reset mark; otherwise gives the packed records, whose main record carries the number, the time and the body of the message, undecided |
| `Packing.PackSignatures` | src/blockchain_gradido_translate.cpp:304-314 | the loops with their running counter spread the signatures over parts as specified |
| `Packing.MemoPartIff` | src/blockchain_gradido_translate.cpp:278-302 | the last main memo byte is nonzero exactly when a memo part follows |
| `Packing.ReadBackMemo` | src/blockchain_gradido_def.h:357-361 | read by the rule of the record layout, the memo comes back if and only if it has no zero byte and fits one extra part |
| `Packing.SignaturesOfParts` | src/blockchain_gradido_translate.cpp:304-314 | reading the parts gives the signatures back in order |
| `Packing.RoundTrip` | src/blockchain_gradido_translate.cpp:148-323 | `parts` is the batch size and at most the maximum; the signatures come back if and only if there are fewer than 256; the memo comes back under its exact condition |
| `MessageAdmission.Receive` | src/blockchain_gradido_translate.cpp:148-323 | the batch that arrives for a message: a reset mark exactly when it is not accepted, else a batch with the number, the time and the body of the message |
| `MessageAdmission.MessagesInOrder` | src/blockchain_base_deprecated.h:298-359 | the messages 1, 2, ..., n taken in order on an empty chain never truncate it, and if none has to wait exactly these are stored with the numbers 1, 2, ..., n |
| `Subcluster.HeldIsFirstClaim` | src/subcluster_blockchain.cpp:57-102 | whatever the records, each place of the rebuilt maps holds what it held before or else the first accepted entry for it |
| `Subcluster.InitialKeyIsLastHeader` | src/subcluster_blockchain.cpp:57-62 | the initial key is that of the last accepted header |
| `Subcluster.NodesAreTyped` | src/subcluster_blockchain.cpp:68-77 | from the start the maps by type have exactly the keys of the nodes, and each node lies under its own type |
| `Subcluster.OneTypeIff` | src/subcluster_blockchain.cpp:68-77 | a node lies under one type only if and only if the accepted records agree on its type |
| `Subcluster.NodeKeysAfterClearIff` | src/subcluster_blockchain.cpp:143-149 | after a clear and a replay the keys agree if and only if every node typed before is added again |
| `Subcluster.LiveThenReplay` | src/subcluster_blockchain.cpp:104-141 | one live batch leaves the indexes as reading its records back would |
| `Subcluster.LiveIsReplay` | src/subcluster_blockchain.cpp:5-23 | for every run of batches on top of any records the live indexes are the fold over the stored records |
| `Subcluster.AdminAcceptedIff` | src/subcluster_blockchain.cpp:122-132 | after any run on top of any records an added admin is accepted exactly when no stored record added this key |
| `Subcluster.AllButKnownAdminsAccepted` | src/subcluster_blockchain.cpp:104-141 | every record is accepted but an admin with a known key, and nothing but the result is changed |
| `Subcluster.AdminAddedOnce` | src/subcluster_blockchain.cpp:122-132 | a run never makes a second accepted record for an admin key |
| `Subcluster.SubclusterBlockchain.constructor` | src/subcluster_blockchain.cpp:160-174 | starts with the six empty maps by type |
| `Subcluster.SubclusterBlockchain.ClearIndexes` | src/subcluster_blockchain.cpp:143-149 | leaves the maps by type; gives the start indexes again exactly when none of them had an entry and there was no initial key |
| `Subcluster.SubclusterBlockchain.DoAddIndexData` | src/subcluster_blockchain.cpp:57-102 | changes the five fields as the specification of one entry says |
| `Subcluster.SubclusterBlockchain.AddIndexData` | src/subcluster_blockchain.cpp:5-23 | the nested loops replay the validated blocks that are not indexed into whatever the indexes hold; from indexes that are the replay of the ones before, they become the replay of all |
| `Subcluster.SubclusterBlockchain.CalcFields` | src/subcluster_blockchain.cpp:104-141 | refuses exactly the empty batch, decides the first record and indexes it if accepted |
| `Subcluster.SubclusterBlockchain.TakeBatch` | src/blockchain_base.h:311-319 | a batch is decided, indexed and stored, and indexes that are the replay of the whole chain stay so |

## Left out

- gRPC, protobuf, JSON-RPC, signals, configuration and the facade: wiring around the modelled steps.
- SHA-512 and Ed25519: the hash is a parameter, signatures are not checked here.
- The decay arithmetic of src/gradidomath: floating point with rounding; the decay is any function.
- `append_block`, `replace_block`, `is_block_valid`: not used by the live path.
- src/blockchain_base.h: a second copy of the state machine; only its step that stores a batch is used.
- src/group_register.cpp, src/handshake_handler.cpp, src/versioned.cpp, src/worker_pool.cpp: would add easy members only.
- `outbound_transactions` and the lookup of a paired transaction in another group: the answer is the parameter `remote`.
- The order of `inbound`: the queue is a multiset and any batch may be taken next, which includes the source's order; only `LargestFirstIff` and `NextTwoTruncate` use that order.
- Failing input and output, thread creation and locks as such: each locked section is one step.
- Overflow of 64-bit counters and sequence numbers.
- BlockStorage.Blockchain.constructor: requires complete files numbered without a gap; scanning file names and missing or short files are not modelled.
- FileTile.FileTile.constructor: requires complete files numbered without a gap, as above.
- FileTile.FileTile.Release: requires a closed file, since the source releases copies only after closing all files but the tail's.
- FileTile.FileTile.Write: requires an index within the block, the only ones that `append` passes; `TileDesc.Write` states the refusal.
- BlockStorage.Blockchain.GetPayload: requires a block size of 1000, as `GetRecord`.
- BlockStorage.Reopen: requires the files of a chain that appending can build.
- BlockStorage.Blockchain.GetRecord: requires a block size of 1000 (GRADIDO_BLOCK_SIZE), by which the source divides whatever the block size is; all chains of the node have it.
- BlockStorage.Blockchain.ValidateNextChecksum: after a refusal or an exception the tile and its moved file are not described further.
- FileTile.TileDesc.AllocTileData: allocates a new array; that the arrays of tiles come from the pool is not connected.
- Replication.GetChecksums: states the sizes only; the checksum values sent along are not modelled.
- GroupNode.Node.ValidateNextBatch: the reset after a failed `add_index_data` is not reached, since that function always succeeds.
- GroupNode.Node.TakeOne: after the first truncate only the state, the tasks and the accounting of batches are stated.
- GroupNode.Node.ContinueWithTransactions: the same, and so for `RunContinueTransactions` and `AddTransaction`; when an allowed reset mark truncates the storage, the later turns of the same loop are not described either.
- GroupNode.Node.RunContinueTransactions: as `ContinueWithTransactions`.
- GroupNode.Node.AddTransaction: as `ContinueWithTransactions`.
- NodeStartup.Restart: the first node's writes are in its files; what a crash would lose is not modelled.
- MemoryPool.ItemList.Push: the `last` pointer of the list is written by the source but never followed, and is not modelled.
- MemoryPool.Pool.Release: requires an array that is outstanding, unless none is; the source cannot tell either.
- TimerPool.RunKeepsInv: the threads' fields are one value and each locked section is one step; shutdown and thread exit are not modelled.
- TimerPool.FiringsAccounted: a handler thread that waits in `stopTimer` for another timer may also go on, so more interleavings are covered than the source has.
- Packing.ReadBackMemo: the reader is the model's own; the one in src/blockchain_gradido_translate.cpp is commented out and would read past 16 bytes without a terminating zero.
- Packing.Translate: takes number, time and body as parsed; the parsing of protobuf fields is not modelled.
- Subcluster.SubclusterBlockchain.TakeBatch: the comparison of sequence numbers before it is not modelled.
- Subcluster.LiveIsReplay: for batches whose further records are signatures; a node type outside the six, for which the source uses an absent map entry, is not modelled.
- `get_latest_transaction_id` of the subcluster chain: reads a fixed position, an easy member.
