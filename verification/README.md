# Verification of mybase

This project models the state-changing core of mybase, a distributed key-value store in C++, and
proves properties of the model. It has ten parts, which share the few helpers of `Common`.

- **Byte ring** (`Bytes`, `ByteRing`, `RingRun`, `LockQueue`). A circular buffer of length-prefixed
  records. It refines a list of records over every run, wherever a record crosses the wrap point.
  The single-reader mode with its drained stash refines the plain queue, under the exact condition
  for that.
- **Bucket placement** (`Placement`, `PlacementMoves`, `PlacementSearch`, `PlacementCredit`,
  `PlacementSum`, `PlacementRebuild`, `QuickTable`, `QuickBuild`, `QuickFair`, `Rebalance`,
  `MasterBound`, `CopyRounds`, `Visibility`, `FirstBuild`, `TableBuilder`). The quick repair of the
  routing table and its rebuild, with credit ledgers, flags and reverse indexes that stay equal to
  the table throughout. The repair shares lost masters out evenly, both balancing loops end, and a
  rebuild that changes the table changes it visibly. A table is kept bucket by bucket: `t[b][c]` is
  copy `c` of bucket `b`.
- **Migration** (`Migration`, `MigrationRun`, `SysMgr`). The three tables of the meta server, the
  work per server and the block count, over every run of rebuilds, repairs, reports, checks and
  restarts. Each bucket of the table being migrated is always as in use or as in the target. The
  class `SysMgr` uses the table builder above.
- **Write-ahead log** (`WalFormat`, `WalFile`, `WalLog`, `WalSteps`, `WalRun`, `WalRange`,
  `WalRecover`, `WalLife`, `WalTorn`). Group commit as a state machine over the steps of the
  appenders, file rotation with an index footer, reading, and recovery by footer or by scan, at any
  moment and after a write that was cut short.
- **Node queue** (`FifoQueue`, `FifoRun`, `FifoFlow`). The chunked queue of one producer and one
  consumer, one shared-memory access per step, with freed nodes, null links and foreign slots as
  faults, and what it takes, gives out and keeps allocated.
- **Replication** (`Replication`, `ReplicationRun`, `Applying`, `BucketMgr`). Leader and followers of
  one bucket with messages that may be lost, repeated and reordered, what each of them applies, and
  how a follower catches up.
- **Stream reassembly** (`NBuffer`, `StreamReader`). The growing receive buffer and the cutting of a
  byte stream into packets.
- **Session timeouts** (`TimingWheel`, `SessionMgn`). A plain wheel of lanes with its timing
  properties, and the ring of slots that refines it.
- **Cross-thread dispatch** (`CThread`). The handshake between dispatchers and an event loop.
- **Message digest** (`Md5`). Buffering, bit count and padding of RFC 1321 around an abstract block
  transform.

Six properties do not hold of the code without a condition. For each there is a counterexample
and the exact condition:

- A record in the stash that is shorter than the header loses the stash
  (`LockQueue.ShortRecordLosesStash`, `LockQueue.StashAgrees`).
- The migration plan compares slaves as a set and the reports move them by position. A pair of
  tables in which a bucket with three copies has its two slaves exchanged gets an empty plan
  (`Migration.ThreeCopiesMissed`, `Migration.PlanCovers`). With at most two copies there is no such
  pair. A rebuild never gives a pair that differs only in this way: it announces a migration exactly
  when the tables differ (`SysMgr.SysMgr.Rebuild`).
- A quick rebuild in the middle of a migration sets the tables equal and leaves the plan, and then
  no report and no check ends the migration (`MigrationRun.RepairStaysOpen`,
  `MigrationRun.MigrationCompletes`, `MigrationRun.StepTight`). The hard check would, but nothing
  calls it.
- An unfinished log file whose last record ends like a trailer is taken for a finished one
  (`WalRecover.LookalikeLost`, `WalRecover.ReopensExactly`).
- A write that is cut short inside the length of a record leaves a directory that does not open, and
  behind it a last entry that cannot be read (`WalTorn.TornWrite`, `WalTorn.TornScan`).
- With two followers, a send that stops at the end of a file can carry a commit index beyond what
  the follower then holds (`ReplicationRun.CutSendOvercommits`, `Replication.ReceiveWithin`).

Four smaller findings of the same kind: a restart between the write that fills a file and its footer
leaves a file above the rotation size open (`WalLife.RestartRotates`), a deadline beyond the span of
the wheel fires early (`TimingWheel.DueNotEarly`), a malformed stream loses part of a
batch depending on the cut (`StreamReader.MalformedCutMatters`), and commit requests that step back are applied again
(`Replication.AppliedOnce`, `Applying.AppliesInOrder`).

The clock, the network, the random choice among equally loaded servers, the enumeration order of
hash maps, the addresses given by the allocator, the checksum used by the log and the block
transform of the digest are parameters. A state machine stands for code that several threads run;
its steps are the critical sections and the single accesses to shared memory.

`dafny verify dfyconfig.toml` checks the whole project.

## Model

| member | source | states |
|---|---|---|
| `ByteRing.HeadLayout` | src/common/bufferqueue.cc:71-138 | In a ring that holds a non-empty list of records, the length, the payload and the rest of the list lie where a read looks for them, wherever the wrap point falls |
| `ByteRing.TailLayout` | src/common/bufferqueue.cc:401-471 | Writing a framed record behind the used bytes, around the end of the buffer if need be, makes the ring hold the list with that record appended |
| `ByteRing.CBufferQueue.constructor` | src/common/bufferqueue.cc:52-69 | A created ring holds the empty list |
| `ByteRing.CBufferQueue.IsFull` | src/common/bufferqueue.cc:473-489 | A ring is full for a length exactly when the encoded records, the new record and the 8-byte gap do not fit |
| `ByteRing.CBufferQueue.Enqueue` | src/common/bufferqueue.cc:401-471 | A one- or two-part record is appended to the list unless the ring is full; an empty one changes nothing; the ring stays well formed |
| `ByteRing.CBufferQueue.Locate` | src/common/bufferqueue.cc:71-100 | The stored length of the head record and its bounds in the ring |
| `ByteRing.CBufferQueue.Dequeue` | src/common/bufferqueue.cc:71-138 | The head record comes out byte for byte when it fits the buffer exactly or with room, and is dropped when it is longer; the rest of the list stays |
| `ByteRing.CBufferQueue.DequeueTwo` | src/common/bufferqueue.cc:204-304 | The head record comes out cut at the size of the first buffer, or is dropped when it is longer than both buffers together |
| `ByteRing.CBufferQueue.Peek` | src/common/bufferqueue.cc:141-202 | The answer of the dequeue, without a change |
| `ByteRing.CBufferQueue.GetAllData` | src/common/bufferqueue.cc:496-522 | The ring is emptied and its bytes are the encoding of the list it held |
| `RingRun.Run` | src/common/bufferqueue.cc:71-489 | A run of enqueues, dequeues and peeks on a ring gives the answers of the same run on a plain list of records |
| `RingRun.FirstInFirstOut` | src/common/bufferqueue.cc:71-489 | After any run the list is what was stored, less as many records from the front as were taken |
| `RingRun.ReadsOldest` | src/common/bufferqueue.cc:71-138 | After any run that leaves a record, the next dequeue and the next peek answer with the oldest stored record that was not taken, whole if it has at most the size of the buffer, and else with an error |
| `RingRun.ReadsOldestInTwo` | src/common/bufferqueue.cc:204-304 | After any run that leaves a record, the next read into two buffers delivers it split at the size of the first buffer, or an error exactly when it is longer than both |
| `RingRun.StoresWhatFits` | src/common/bufferqueue.cc:401-489 | After any run, a record is stored exactly when it is empty or the records not taken, and the new one, each with its 8-byte length, take up no more than the room of the ring |
| `LockQueue.CLockBufferQueue.Enqueue` | src/common/bufferqueue.cc:542-552 | The record goes into the ring; the drained stash is untouched |
| `LockQueue.CLockBufferQueue.DequeueFromBuffer` | src/common/bufferqueue.cc:695-739 | The head of the stash comes out in two parts exactly when it has a full header and its rest fits; otherwise the stash is given up |
| `LockQueue.CLockBufferQueue.GetQueueDataToBuffer` | src/common/bufferqueue.cc:795-810 | All records of the ring move to the stash, in order |
| `LockQueue.CLockBufferQueue.Dequeue` | src/common/bufferqueue.cc:639-739 | One read through the stash: what is delivered and what stays, with records that arrive between the two looks at the ring |
| `LockQueue.StashAgrees` | src/common/bufferqueue.cc:639-739 | A read through the stash equals a read of the plain queue exactly when the stash is empty, its head is served, or its head is too long and the last record of all |
| `LockQueue.StashIsFifo` | src/common/bufferqueue.cc:639-810 | When every record has a full header and its rest fits, every mix of enqueues and reads delivers the accepted records in order |
| `LockQueue.ShortRecordLosesStash` | src/common/bufferqueue.cc:695-739 | A record shorter than the header in the stash: the read delivers nothing and the records behind it are lost, where the plain queue delivers it |
| `Placement.SomeNodeOk` | src/meta/table_builder.cc:534-550 | With at least as many servers as copies some server is allowed in any slot of a bucket |
| `PlacementMoves.PlaceValid` | src/meta/table_builder.cc:821-911 | Placing a server in an empty slot keeps the ledgers equal to the table, the reverse indexes true and the bucket distinct |
| `PlacementMoves.DemoteValid` | src/meta/table_builder.cc:345-433 | Making a master a slave of its bucket keeps the same |
| `PlacementMoves.KeepValid` | src/meta/table_builder.cc:699-817 | Letting a server keep one slot above its share moves it from the credit to the flag and keeps the same |
| `PlacementMoves.ShiftValid` | src/meta/table_builder.cc:699-817 | Handing a slot to a server below its share keeps the same |
| `PlacementMoves.OverloadValid` | src/meta/table_builder.cc:699-817 | Handing a slot to a server that takes one above its share keeps the same |
| `PlacementSearch.PickForSlot` | src/meta/table_builder.cc:821-911 | The server chosen for a slot is allowed there and has the least load of all allowed ones, whatever the random pick; none is found exactly when none is allowed |
| `PlacementSearch.PickMove` | src/meta/table_builder.cc:699-817 | The receiver chosen for a slot of a loaded server may take it and has the least load of all that may take any; none is found exactly when none may |
| `PlacementSearch.CountTokens` | src/meta/table_builder.cc:308-333 | The counts are the masters and the copies of every available server |
| `PlacementSearch.InitBucketSet` | src/meta/table_builder.cc:635-660 | The reverse indexes name only slots that their servers hold, and every live master and slave is named |
| `PlacementRebuild.CheckRebuildNeed` | src/meta/table_builder.cc:583-613 | The first slave slot of a live bucket that no available server holds decides: empty means yes; without one, yes means that some available server is unused |
| `TableBuilder.NeedMeaning` | src/meta/table_builder.cc:583-613 | On a repaired table, no rebuild is needed exactly when every live bucket is full and every available server is in use |
| `PlacementRebuild.InitLedger` | src/meta/table_builder.cc:308-335 | The ledgers set up for a table satisfy the ledger invariant |
| `PlacementCredit.LevelShare` | src/meta/table_builder.cc:662-683 | When the master counts of any two servers differ by at most one, each is the share rounded down, or up if there is a remainder |
| `QuickTable.QuickKeepsAvailable` | src/meta/table_builder.cc:205-250 | The quick repair keeps every available server of a bucket as often as it was there |
| `QuickTable.QuickMaster` | src/meta/table_builder.cc:160-250 | A bucket with an available copy is led by one of its own available servers, the old master if it is alive, and holds no dead server |
| `QuickTable.QuickDead` | src/meta/table_builder.cc:205-250 | A bucket without an available copy keeps its dead master |
| `QuickTable.QuickPrefix` | src/meta/table_builder.cc:231-247 | No occupied slave slot follows an empty one |
| `QuickTable.QuickDistinct` | src/meta/table_builder.cc:205-250 | Distinct servers of a bucket stay distinct |
| `QuickBuild.CloseUp` | src/meta/table_builder.cc:231-247 | The pairwise moves close the gaps: the nonzero slaves in order, then zeros |
| `QuickBuild.ClearDead` | src/meta/table_builder.cc:217-229 | Dead slaves of live buckets are cleared, other buckets are left alone |
| `QuickFair.SharedOut` | src/meta/table_builder.cc:160-250 | When the buckets that lost their master have the same available slaves, the numbers of them that any two of these inherit differ by at most one, after every prefix of the table |
| `TableBuilder.RepairShares` | src/meta/table_builder.cc:205-250 | The same of every table that the repair gives |
| `TableBuilder.TableBuilder.LeadAll` | src/meta/table_builder.cc:160-215 | The pass over the masters keeps the tokens equal to the buckets each server has inherited |
| `TableBuilder.TableBuilder.ChangeMasterNode` | src/meta/table_builder.cc:160-203 | Of the available slaves the first with the fewest masters handed out so far takes over; it fails exactly when there is none |
| `TableBuilder.TableBuilder.BuildQuickTable` | src/meta/table_builder.cc:205-250 | Every bucket becomes its repaired form: an available leader from the bucket, then the other available servers in order, then zeros; with fresh tokens every bucket that lost its master goes to the first of its available slaves that has inherited the fewest buckets so far |
| `TableBuilder.TableBuilder.ChooseNodeInvalid` | src/meta/table_builder.cc:821-911 | With enough servers it always succeeds, chooses a least loaded allowed server and keeps the ledger invariant |
| `TableBuilder.TableBuilder.ChooseSlaveForInvalid` | src/meta/table_builder.cc:567-581 | Every slave slot of a live bucket is filled with distinct available servers, each empty one by a server with the fewest copies of all allowed; other buckets are untouched |
| `TableBuilder.TableBuilder.StepDown` | src/meta/table_builder.cc:345-433 | The master goes into the first empty slave slot, another server leads the bucket, its other slots and all other buckets are untouched, and the ledgers stay true |
| `TableBuilder.TableBuilder.EaseMaster` | src/meta/table_builder.cc:345-433 | A master above its share keeps the bucket when an extra is left and it has no flag, and spends it; otherwise another server takes the lead exactly when the master has room for the bucket as a slave; its credit, its flags and the extras change as each case says |
| `TableBuilder.TableBuilder.FillBucket` | src/meta/table_builder.cc:345-433 | A live bucket ends full with distinct available servers and loses none of its own; whether its master changes, and what that does to its credit, its flags and the extras, is decided as the loads say; other buckets are untouched and the ledgers stay true |
| `Rebalance.SelfFits` | src/meta/table_builder.cc:699-817 | A server above its master share always has a registered bucket that it could give to itself, so the search for a master never fails |
| `Rebalance.Relief` | src/meta/table_builder.cc:699-817 | The move for a loaded server: to a server furthest below its share if any slot fits one, else an extra if one is left and it has none, else to a least loaded server that fits, and none only if nobody fits |
| `Rebalance.RelieveCredit` | src/meta/table_builder.cc:699-817 | Every master move lowers the sum of the positive master credits by exactly one |
| `MasterBound.TightTakers` | src/meta/table_builder.cc:699-817 | If everyone who may take a master already has as many masters as its share of copies, the table is tiny: a share of no copies, one copy, or two copies on three servers with four buckets |
| `MasterBound.MasterRound` | src/meta/table_builder.cc:449-463 | Every round of the master loop keeps the extras equal to the remainder less the flags given, and no server more masters than its share of copies, or one more in a tiny table |
| `CopyRounds.CopyStart` | src/meta/table_builder.cc:449-478 | What the master loop leaves is what the copy loop needs |
| `CopyRounds.NeverStuck` | src/meta/table_builder.cc:699-817 | A server above its share of copies can always hand a slot over or keep it, so no round of the copy loop is idle |
| `CopyRounds.CopyRound` | src/meta/table_builder.cc:465-478 | Every round of the copy loop lowers the sum of the positive copy credits by exactly one and keeps what the next round needs |
| `Visibility.FirstHand` | src/meta/table_builder.cc:699-817 | With a server unused, the first slot handed over goes to a server that will not hand it on |
| `Visibility.TellsStep` | src/meta/table_builder.cc:449-478 | In every round, either nothing has changed yet or some bucket has got, for good, another master or a slave it did not have |
| `Visibility.FilledShows` | src/meta/table_builder.cc:345-433 | A bucket that was not full and is full now has a server it did not have |
| `TableBuilder.RelievedMaster` | src/meta/table_builder.cc:699-817 | One relief of a master keeps the ledger invariant, full buckets full and dead buckets untouched, and lowers the master credit by exactly one |
| `TableBuilder.RelievedCopy` | src/meta/table_builder.cc:699-817 | One relief of a copy does the same for copies and leaves the masters alone |
| `TableBuilder.TableBuilder.ChooseMaster` | src/meta/table_builder.cc:699-817 | The table under construction is relieved of one master, and an extra is spent when a flag is given |
| `TableBuilder.TableBuilder.ChooseCopy` | src/meta/table_builder.cc:699-817 | The table under construction is relieved of one copy, and an extra is spent when a flag is given |
| `TableBuilder.TableBuilder.MasterPhase` | src/meta/table_builder.cc:449-463 | The master loop ends, with no server above its master share in the ledgers |
| `TableBuilder.TableBuilder.CopyPhase` | src/meta/table_builder.cc:465-478 | The copy loop ends, with no server above its share of copies in the ledgers, the masters as they were, and no server with more masters than its share of copies and one |
| `FirstBuild.GreedyMore` | src/meta/table_builder.cc:567-581 | Filling the slaves of the next bucket, each by a server with the fewest copies, extends the greedy law from the buckets before it |
| `TableBuilder.TableBuilder.BuildFirstTime` | src/meta/table_builder.cc:662-683 | From an empty table every slot is filled with distinct servers per bucket, the masters stay level, and every slave slot goes to a server with the fewest copies so far of those not in the bucket |
| `TableBuilder.TableBuilder.OutOfThreshold` | src/meta/table_builder.cc:480-524 | The table is refused exactly when more than eight servers beyond the unavoidable ones are over a share |
| `TableBuilder.TableBuilder.RebuildTableNew` | src/meta/table_builder.cc:301-531 | No change exactly when the table is settled; a success is a complete level first table, or a balanced table within the threshold, with live buckets full and dead ones as they were, that differs from the source visibly or not at all; with enough servers it fails only past the threshold or when the first bucket alone is empty |
| `TableBuilder.RepairAndRebuild` | src/meta/table_builder.cc:205-531 | After repair and successful rebuild every bucket that had an available copy has all copies on distinct available servers, and every other bucket is as the repair left it; the repair hands lost masters out fairly |
| `TableBuilder.FirstTable` | src/meta/table_builder.cc:435-447 | The first build succeeds exactly when there are as many servers as copies; then every bucket is full, every server masters its share rounded down or up, and every slave slot is on a server that had the fewest copies of those free for it, for every random choice |
| `Migration.PlanCovers` | src/meta/sys_mgr.cc:125-169 | The plan gives every server at least its buckets that differ from the target exactly when the comparison of slaves as a set finds every bucket that differs by position |
| `Migration.TwoCopiesExact` | src/meta/sys_mgr.cc:125-169 | With at most two copies the comparison finds every bucket that differs |
| `Migration.ThreeCopiesMissed` | src/meta/sys_mgr.cc:125-169 | With three copies two exchanged slaves are missed: the tables differ and the plan is empty |
| `Migration.WorkUpdate` | src/meta/sys_mgr.cc:735-778 | Moving one bucket to its target takes one off the work of its master if it differed, and nothing off anyone else |
| `MigrationRun.RebuildKeeps` | src/meta/sys_mgr.cc:546-591 | A rebuild whose differing buckets are all recognised keeps the migration invariant |
| `MigrationRun.QuickKeeps` | src/meta/sys_mgr.cc:425-484 | A quick rebuild keeps the invariant, even during a migration |
| `MigrationRun.FinishCounts` | src/meta/sys_mgr.cc:735-778 | A report that changes the table finds its server in the plan with work left, and the block count positive |
| `MigrationRun.FinishKeeps` | src/meta/sys_mgr.cc:627-639 | Any report, stale, duplicate or about any bucket, keeps the invariant |
| `MigrationRun.InvCheckSafe` | src/meta/sys_mgr.cc:678-720 | When a migration is on and the plan is empty the tables m and d are equal |
| `MigrationRun.CheckKeeps` | src/meta/sys_mgr.cc:678-720 | The completion check keeps the invariant |
| `MigrationRun.HardCheckKeeps` | src/meta/sys_mgr.cc:780-786 | The hard check keeps the invariant |
| `MigrationRun.RestartKeeps` | src/meta/sys_mgr.cc:33-51 | A restart, which rebuilds the plan only if blocks are left, keeps the invariant |
| `MigrationRun.RunKeeps` | src/meta/sys_mgr.cc:33-786 | In every state of every run the plan of each server is at least its unfinished buckets, every bucket of m is as in h or as in d, the assertion of the completion check holds, and without a migration the three tables are equal |
| `MigrationRun.TwoCopiesLegal` | src/meta/sys_mgr.cc:546-591 | With at most two copies every table the builder gives may be used in a run |
| `MigrationRun.TwoCopiesRun` | src/meta/sys_mgr.cc:33-786 | The same over every run with at most two copies, where a rebuild may use any tables that the builder gives |
| `MigrationRun.UseAnnounced` | src/meta/sys_mgr.cc:425-786 | Reports, hard checks and restarts leave the table in use and the versions alone; a completion check changes the table in use only when the migration is over; every change of it changes the client version, every change of the target the server version, and every rebuild the capacity version |
| `MigrationRun.StepCounts` | src/meta/sys_mgr.cc:33-786 | An operation keeps the block count equal to the number of buckets left to move, except a quick rebuild with work left |
| `MigrationRun.HardCheckEnds` | src/meta/sys_mgr.cc:678-786 | With equal tables the hard check and the completion check after it end the migration, whatever the plan was |
| `MigrationRun.StaleReport` | src/meta/sys_mgr.cc:627-639 | A report under the version before any operation that changed the versions changes nothing |
| `MigrationRun.MigrationCompletes` | src/meta/sys_mgr.cc:678-778 | After every master has reported its buckets the completion check ends the migration with the target in use exactly when the plan was the work left, no more |
| `MigrationRun.StepTight` | src/meta/sys_mgr.cc:33-786 | Every operation keeps the plan equal to the work left, except a quick rebuild while the plan is not empty |
| `MigrationRun.StaysOpen` | src/meta/sys_mgr.cc:678-778 | With equal tables and a plan that is not empty no report and no completion check changes anything |
| `MigrationRun.RepairStaysOpen` | src/meta/sys_mgr.cc:425-484 | A quick rebuild in the middle of a migration leads there: the migration stays open whatever is reported |
| `SysMgr.SysMgr.FillMigrateMachine` | src/meta/sys_mgr.cc:125-169 | The nested comparison loops compute the plan and its size |
| `SysMgr.OfferedServes` | src/meta/sys_mgr.cc:546-591 | What a rebuild makes of the tables the builder offers: clients get the repaired table, or with one copy the old server where it is alive, and m is the same |
| `SysMgr.SysMgr.RebuildQuickTable` | src/meta/sys_mgr.cc:425-484 | All three tables become the repair of the old table: each bucket in its repaired form, lost masters handed out fairly, and a blank or single-copy table as it was; the invariant holds |
| `SysMgr.SysMgr.BuildTables` | src/meta/sys_mgr.cc:486-549 | The tables that the table builder gives back are the fair repair of the old one and a target with every live bucket full and every dead one as repaired; they differ visibly or not at all |
| `SysMgr.SysMgr.Rebuild` | src/meta/sys_mgr.cc:486-625 | A failed or unneeded rebuild changes nothing; a successful one gives clients the repair of the old table, or with one copy the old server where it is alive, sets m to the same and d to a target with all live buckets full, announces a migration exactly when m and d differ, for any number of copies, and plans all the work of every server, counted in blocks, exactly when the comparison finds every bucket that differs |
| `SysMgr.ShownMoves` | src/meta/sys_mgr.cc:125-169 | A change that the rebuild shows is found by the comparison: the tables are equal or the plan is not empty |
| `SysMgr.SysMgr.SetMigratingHashtable` | src/meta/sys_mgr.cc:735-778 | The report moves the bucket to its target and counts it off, once, and the invariant holds |
| `SysMgr.SysMgr.DoFinishMigrate` | src/meta/sys_mgr.cc:627-639 | A report under another version is refused; otherwise it has its effect |
| `SysMgr.SysMgr.CheckMigrateComplete` | src/meta/sys_mgr.cc:678-720 | The check reports completion exactly when no migration is on afterwards; its assertion that m equals d is proved |
| `SysMgr.SysMgr.HardCheckMigrateComplete` | src/meta/sys_mgr.cc:780-786 | Equal tables clear the plan |
| `SysMgr.SysMgr.Reopen` | src/meta/sys_mgr.cc:33-51 | The plan after a restart |
| `Bytes.BERoundTrip` | src/public/buffers.cc:892-1035 | A number written most significant byte first in enough bytes reads back as itself |
| `Bytes.ByteOrder` | src/public/buffers.cc:892-1035 | Byte i of the little-endian form is the i-th digit to base 256, and the big-endian form is its reverse |
| `WalFormat.DecodeIndex` | src/common/wal.cc:94-170 | Decoding a written index gives back its entries and the largest index, whatever the order in which it was written |
| `WalFile.ScanBody` | src/common/wal.cc:94-170 | Scanning a file of entries gives back the index of its entries |
| `WalFile.LoadFinished` | src/common/wal.cc:94-170 | A finished file is recognised by its trailer and gives back its index and last index |
| `WalFile.WalFileInfo.LoadInfo` | src/common/wal.cc:94-170 | Loading a file computes the index from the footer or by scanning, or fails, as the bytes say |
| `WalSteps.EnterKeeps` | src/common/wal.cc:413-424 | A new appender keeps the log invariant |
| `WalSteps.LeadKeeps` | src/common/wal.cc:594-617 | Collecting the queue into a batch, with its index entries, keeps the invariant |
| `WalSteps.WriteKeeps` | src/common/wal.cc:436-441 | Writing the batch keeps the invariant |
| `WalSteps.FootKeeps` | src/common/wal.cc:443-463 | Writing the index footer of a large file keeps the invariant |
| `WalSteps.RollKeeps` | src/common/wal.cc:619-652 | Starting the next file keeps the invariant |
| `WalSteps.PublishKeeps` | src/common/wal.cc:467-467 | Publishing the last index keeps the invariant |
| `WalSteps.FinishKeeps` | src/common/wal.cc:469-485 | Releasing the batch keeps the invariant |
| `WalSteps.ReadsBack` | src/common/wal.cc:490-527 | At any moment every published index reads back as the length and the bytes of the record that drew it |
| `WalRun.BuildBatchGroup` | src/common/wal.cc:594-617 | The batch is the entries of the queue one after the other, each indexed at its place |
| `WalRun.OpensEmpty` | src/common/wal.cc:183-285 | Opening an empty directory gives a log that satisfies the invariant, is empty, and numbers its first record 1 |
| `WalRun.NextRotates` | src/common/wal.cc:443-463 | Every step keeps all files but the last above the rotation size and the last, unless it is being rotated, at most of that size |
| `WalRun.AppendersAreSerial` | src/common/wal.cc:413-527 | For every interleaving of appenders on the log that an empty directory opens to, at every moment: the files hold, one after the other, the bytes of the records in the order of their numbers from 1, each once, all published ones and at rest all there are; every file but the last has more than 16777216 bytes of entries and the last, unless it is being rotated, at most that; index i reads back the i-th record and any other index nothing |
| `WalRange.LogEntries` | src/common/wal.cc:529-592 | A range read computes the entries from the file in which it starts |
| `WalRange.RangeReadsBack` | src/common/wal.cc:529-592 | A range of published entries comes back complete up to the end of the file in which it starts, any other range comes back empty, and each entry is the one a single read yields |
| `WalRecover.Open` | src/common/wal.cc:183-285 | The log found in a directory: finished files first, then the last one, continued or followed by a new one; an empty directory gives an empty log that starts at 1 |
| `WalRecover.ReopenRestores` | src/common/wal.cc:183-285 | Reopening at any moment of any run restores a log that satisfies the invariant with the records on disk and the right first, last and next index |
| `WalRecover.ReopenAtRest` | src/common/wal.cc:183-285 | Reopening a log at rest restores its bounds and every entry |
| `WalRecover.ReopensExactly` | src/common/wal.cc:94-285 | Reopening restores the log exactly when no unfinished last file ends like a trailer |
| `WalRecover.LookalikeLost` | src/common/wal.cc:94-170 | A log of one record that ends like a trailer is forgotten by reopening it |
| `WalLife.EventKeeps` | src/common/wal.cc:183-527 | A step of an appender or a restart at any moment keeps the invariant and all that can be read |
| `WalLife.PublishedStays` | src/common/wal.cc:183-527 | Over every life of a log, with restarts at any moment between any steps, an index once published reads the same ever after |
| `WalLife.RestartContinues` | src/common/wal.cc:183-424 | After a restart the next record gets the number behind the records on disk |
| `WalLife.RestartRotates` | src/common/wal.cc:236-285 | A restart keeps the rule of rotation exactly when it does not come between the write that fills a file and its footer |
| `WalTorn.OpensIff` | src/common/wal.cc:183-285 | A directory opens exactly when it is empty, or all files but the last are finished and the last can be loaded |
| `WalTorn.TornScan` | src/common/wal.cc:94-170 | Scanning a file whose last record is torn fails exactly when the cut is inside its length, and else counts the record |
| `WalTorn.OpensTorn` | src/common/wal.cc:94-285 | The log that a directory with a torn last record opens to |
| `WalTorn.TornWrite` | src/common/wal.cc:436-441 | A write that stops after j records and t bytes: with t = 0 the directory opens to a log of exactly the whole records; inside a length it does not open; behind it the log opens with a last entry that cannot be read, and every entry before it reads as it should |
| `FifoRun.StoreKeeps` | src/common/bufferqueue.h:430-438 | Storing a value in the head node keeps the queue invariant and never faults |
| `FifoRun.EnterKeeps` | src/common/bufferqueue.h:447-449 | Moving the head to the linked node keeps the invariant |
| `FifoRun.FetchedKeeps` | src/common/bufferqueue.h:327-335 | Taking a node out of the recycle bin keeps the invariant while the consumer fills it |
| `FifoRun.Successor` | src/common/bufferqueue.h:414-418 | A consumer that leaves a node finds a successor that is linked |
| `FifoRun.FollowKeeps` | src/common/bufferqueue.h:416-418 | Following the link keeps the invariant |
| `FifoRun.FreeKeeps` | src/common/bufferqueue.h:419-420 | Freeing the old node keeps the invariant: nobody uses it any more |
| `FifoRun.KeepKeeps` | src/common/bufferqueue.h:344-350 | Putting the old node into the recycle bin keeps the invariant while the producer empties it |
| `FifoRun.FrontIs` | src/common/bufferqueue.h:388-393 | The front of a queue that is not empty is the oldest value not popped |
| `FifoRun.Separate` | src/common/bufferqueue.h:409-454 | The node that a pop frees or recycles is not the head node, and nodes of the bin are not in the chain |
| `FifoRun.StepSound` | src/common/bufferqueue.h:409-454 | No step of either thread uses a freed node, a null link or an unpublished slot, and each keeps the queue sound |
| `FifoRun.DeliversInOrder` | src/common/bufferqueue.h:318-454 | For every interleaving of one producer and one consumer the received values are a prefix of the sent ones, short of them by the size of the queue when both are between calls |
| `FifoFlow.HeldIsSize` | src/common/bufferqueue.h:271-273 | The size counter is the number of values sent and not received, but for calls under way, and never exceeds the capacity |
| `FifoFlow.PushTaken` | src/common/bufferqueue.h:424-454 | A push is taken exactly when fewer values than the capacity are held; otherwise nothing changes |
| `FifoFlow.PopGiven` | src/common/bufferqueue.h:388-422 | A pop gives out the oldest value not given out exactly when one is held; otherwise nothing changes |
| `FifoFlow.StepEnds` | src/common/bufferqueue.h:409-454 | Every step of a call brings its end nearer and changes neither what is sent nor what is received |
| `FifoFlow.AllSent` | src/common/bufferqueue.h:424-454 | From any reachable state, values for which there is room are all sent, in order |
| `FifoFlow.FreshTakesAll` | src/common/bufferqueue.h:424-454 | On a fresh queue any values up to the capacity are all sent, and the size is their number |
| `FifoFlow.AllReceived` | src/common/bufferqueue.h:388-422 | From any reachable state, as many pops as values are held receive exactly these, oldest first |
| `FifoFlow.NothingLeaks` | src/common/bufferqueue.h:318-454 | Over every run all allocated nodes but six are full of values in the queue |
| `Replication.WritesLand` | src/storage/storage.cc:139-155 | Every write of an accepted request lands right behind the log |
| `Replication.ReceiveFollows` | src/storage/storage.cc:133-163 | A request keeps the log of the follower a prefix of the leader's, and the answer names its next index |
| `Replication.AskCarries` | src/storage/bucket_mgr.cc:94-132 | A request carries the entries of the leader from its next index on, wherever the read is cut |
| `Replication.ReceiveWithin` | src/storage/storage.cc:133-163 | A follower that accepts a request keeps its commits inside its log exactly when the entries reach the commit index, or that index is nothing new |
| `Replication.AppliedOnce` | src/storage/bucket_mgr.cc:152-169 | Serving the queued commits applies every index once and in order exactly when the requests never step back |
| `ReplicationRun.AlwaysPrefix` | src/storage/bucket_mgr.cc:94-211 | Under loss, duplication and reordering every follower's log is always a prefix of the leader's, apart from the first 18 bytes of each record |
| `ReplicationRun.WriteAtNext` | src/storage/storage.cc:139-155 | Whatever request arrives, every write it causes is at the next index |
| `ReplicationRun.OneFollowerCommits` | src/storage/bucket_mgr.cc:152-211 | With one follower no commit index on either side ever exceeds the follower's log |
| `ReplicationRun.WholeSendsCommit` | src/storage/bucket_mgr.cc:87-211 | With any number of followers, when no send is cut, every commit stays inside the log it is about |
| `ReplicationRun.CutSendOvercommits` | src/storage/bucket_mgr.cc:94-132 | Whatever records a file ends between, a run with two followers in which every send stops at the end of its file tells one of them to commit past its log |
| `Applying.ServeHands` | src/storage/bucket_mgr.cc:152-169 | One served commit hands over exactly the entries that complete the applied prefix of the log if and only if it does not step back |
| `Applying.AppliesInOrder` | src/storage/bucket_mgr.cc:152-169 | Over every history of a replica, what has been handed over is at every moment the prefix of its log up to the applied index if and only if no served commit steps back |
| `Applying.FollowerApplies` | src/storage/bucket_mgr.cc:152-211 | Over every run with commits inside the logs and none that steps back, what a follower has handed over is a prefix of the log of the leader, record by record, up to its applied index |
| `Applying.LeaderApplies` | src/storage/bucket_mgr.cc:152-211 | The leader hands over exactly the prefix of its log up to its applied index, at every moment, if and only if none of its commits steps back |
| `Applying.RefusalIsAnswered` | src/storage/bucket_mgr.cc:171-211 | A refused request leaves the follower as it was, and when its answer returns the leader sends a request from exactly the next index of the follower, which is then accepted if nothing else arrives |
| `Applying.AnswerIsFollowed` | src/storage/bucket_mgr.cc:198-211 | The leader follows an answer with a request from the next index in it, unless the follower accepted, has the whole log and has been told to commit it |
| `Applying.TwoRoundsSync` | src/storage/bucket_mgr.cc:94-211 | From any reachable state, with whole sends, one round with a follower that accepts, or two with one that refuses, give it the whole log |
| `Applying.ComesToRest` | src/storage/bucket_mgr.cc:171-211 | When a follower has the whole log and the leader has applied it, one more round changes nothing and asks for nothing |
| `BucketMgr.FillHead` | src/storage/storage.cc:141-151 | The five fields overwrite exactly the first 18 bytes of an entry |
| `BucketMgr.HeadFields` | src/storage/storage.cc:141-151 | Each of the five fields reads back from its place in the rewritten entry, and the rest of the entry is as it was |
| `BucketMgr.BucketMgr.RequestAppendEntries` | src/storage/bucket_mgr.cc:94-132 | The request for a peer and its new next index |
| `BucketMgr.BucketMgr.RpcHandler` | src/storage/bucket_mgr.cc:171-211 | An answer sets the next index, commits what was accepted and asks again while the peer is behind |
| `BucketMgr.BucketMgr.Commit` | src/storage/bucket_mgr.cc:152-169 | A commit is queued exactly when it is beyond the applied index |
| `BucketMgr.BucketMgr.ServeCommit` | src/storage/bucket_mgr.cc:158-166 | Serving a commit hands over, in order, exactly the entries of the log from the applied index to the commit, and moves the applied index there |
| `BucketMgr.BucketMgr.Dump` | src/storage/storage.cc:133-163 | The request at a follower: the new log, the queued commit and the answer, with every write at the next index |
| `NBuffer.NBuffer.ReallocBuf` | src/public/buffers.cc:157-171 | The received bytes move to the new buffer unchanged |
| `NBuffer.NBuffer.SetNewSize` | src/public/buffers.cc:92-111 | The size changes unless it would cut received bytes, which stay |
| `NBuffer.NBuffer.Expand` | src/public/buffers.cc:66-90 | Doubling up to the limit; the received bytes stay |
| `NBuffer.NBuffer.AddIndex` | src/public/buffers.cc:131-137 | After it there is room for 4096 bytes or the buffer is at its limit; the buffer is replaced only when there was not |
| `StreamReader.ParseSound` | src/common/netserver.cc:642-678 | The packets and the rest make up the stream, and each packet has the length it states |
| `StreamReader.ParsePackets` | src/common/netserver.cc:642-678 | A stream of valid packets followed by part of one is cut into exactly these |
| `StreamReader.ParseMore` | src/common/netserver.cc:642-678 | More bytes continue from where the cutting stopped |
| `StreamReader.Read` | src/common/netserver.cc:57-83 | The bytes that arrive are appended to the ones that are there |
| `StreamReader.TakePackets` | src/common/netserver.cc:642-682 | The complete packets are handed over; before a malformed header only whole batches are |
| `StreamReader.DealEpollIn` | src/common/netserver.cc:625-690 | One readiness event hands over the packets of what was held and what arrived and holds the incomplete rest; no byte is lost to growth and there is room to read again |
| `StreamReader.CutsDoNotMatter` | src/common/netserver.cc:625-690 | However a stream is cut into reads, the packets are those of the whole stream and the connection stays open exactly when it is well formed; a malformed one loses less than one batch |
| `StreamReader.PacketsGetThrough` | src/common/netserver.cc:625-690 | Packets of 12 to 1023935 bytes, as their headers say, all get through, whole and in order, however their stream is cut into reads |
| `StreamReader.HeaderDecides` | src/common/netserver.cc:642-660 | Behind any such packets, a full header leaves the connection open exactly when the length in it is from 12 to 1023935 |
| `StreamReader.MalformedCutMatters` | src/common/netserver.cc:642-682 | With batches of two or more the packets before a malformed header get through or not depending on the cut |
| `TimingWheel.DueNotEarly` | src/common/sessionmgn.cc:102-126 | A session falls due after its deadline exactly when the deadline is within the span of the wheel |
| `TimingWheel.DueNotLate` | src/common/sessionmgn.cc:102-126 | Within the span it falls due at most one step after its deadline, or two steps after the last check if overdue |
| `TimingWheel.FiredIff` | src/common/sessionmgn.cc:62-100 | A check reports exactly the waiting sessions that are due |
| `TimingWheel.StepKeeps` | src/common/sessionmgn.cc:62-141 | Every operation keeps each waiting session in the lane of its due step and every saved session either waiting or ended |
| `TimingWheel.TimesOutOnce` | src/common/sessionmgn.cc:62-141 | Over every run a saved session is waiting, and then no check has reached its due step, or has ended exactly once; a timeout is reported by the first check that reaches its due step, after its deadline |
| `SessionMgn.LanesTurn` | src/common/sessionmgn.cc:93-93 | Moving the slot cursor turns the ring so that the emptied slots become the last lanes |
| `SessionMgn.CSessionMgn.SaveSession` | src/common/sessionmgn.cc:102-126 | The session is filed in the lane of its due step, unless its id is in use |
| `SessionMgn.CSessionMgn.CheckTimeout` | src/common/sessionmgn.cc:62-100 | The ring of slots behaves as the plain lanes: the passed ones are emptied and their waiting sessions reported |
| `SessionMgn.CSessionMgn.EraseAndGetSession` | src/common/sessionmgn.cc:128-141 | The session is taken out and returned if it was waiting |
| `CThread.StepKeeps` | src/common/rpc/cthread.cc:170-266 | Every step keeps: a callback in the list means that the loop is on its way, a wake byte is there or a dispatcher is about to act; nothing is lost or reordered |
| `CThread.NeverStranded` | src/common/rpc/cthread.cc:170-266 | For any number of dispatchers and every interleaving no callback is stranded, and what has run is a prefix of what was pushed |
| `CThread.StepProgress` | src/common/rpc/cthread.cc:170-266 | Every step other than a push lowers the work left |
| `CThread.CanGoOn` | src/common/rpc/cthread.cc:170-266 | Unless everything is quiet some thread can go on |
| `CThread.QuietMeansDone` | src/common/rpc/cthread.cc:170-266 | When all threads are quiet every callback has run, once and in order |
| `CThread.AllRunInTheEnd` | src/common/rpc/cthread.cc:170-266 | From any reachable state every way of going on without a push ends after a bounded number of steps, and where it ends every callback pushed before has run, once and in order, and nothing else |
| `Md5.PadUnique` | src/public/md5_encode.cc:376-378 | The amount of padding is the only one from 1 to 64 bytes that reaches 56 modulo 64, as section 3.1 of RFC 1321 asks |
| `Md5.PaddedBits` | src/public/md5_encode.cc:367-390 | The padded message is the message, a single 1 bit at the top of the next byte, zeros, and the bit count in 8 bytes, least significant first, in whole blocks |
| `Md5.InitBytes` | src/public/md5_encode.cc:393-403 | The chaining words start as the bytes 01 23 .. ef fe dc .. 10 of section 3.3 of RFC 1321 |
| `Md5.EncodeDecodes` | src/public/md5_encode.cc:367-390 | The digest bytes read back as the four words, least significant byte first |
| `Md5.FoldMore` | src/public/md5_encode.cc:312-344 | Transforming a message in two pieces is transforming it at once |
| `Md5.CountAdds` | src/public/md5_encode.cc:319-323 | The two words with the carry found by comparison add the bits modulo 2^64 |
| `Md5.Context.Update` | src/public/md5_encode.cc:312-344 | A context that stands for a message stands for the longer message after an update |
| `Md5.Context.Final` | src/public/md5_encode.cc:367-390 | The digest is the fold over the padded message of sections 3.1 and 3.2 of RFC 1321 |
| `Md5.MD5` | src/public/md5_encode.cc:405-413 | The digest of a message in one call |
| `Md5.Stream` | src/public/md5_encode.cc:312-344 | However a message is split over calls, the digest is that of the whole message |

## Left out

- TableBuilder.TableBuilder.ChangeMasterNode: does not model the branch that returns a live master to its old slot or the capacity limit, because the quick repair calls it only for dead masters and with force.
- ByteRing.CBufferQueue.GetAllData: states the bytes only for rings of at most 2^32 bytes, because the length it returns has 32 bits.
- ByteRing.CBufferQueue.Enqueue: requires the two lengths together to be below 2^32, because the code adds them in 32 bits.
- ByteRing.CBufferQueue.DequeueTwo: requires the two buffer sizes together to be below 2^32, for the same reason.
- LockQueue.CLockBufferQueue.Dequeue: requires a ring of at most 2^32 bytes and buffer sizes that together are below 2^32, because the drained length and the sum have 32 bits, and leaves out waiting on the condition variable.
- SysMgr.SysMgr.SetMigratingHashtable: requires a bucket number other than the bucket count, because the guard of the code lets that number through to a read behind the table.
- SysMgr.SysMgr.DoFinishMigrate: requires a bucket number other than the bucket count, for the same reason.
- MigrationRun.RunKeeps: admits a rebuild only if every bucket that differs is recognised, which is proved for at most two copies and is a condition on the builder's tables for more.
- WalSteps.LeadKeeps: requires the batch to fit the 32-bit positions of the file.
- WalRun.AppendersAreSerial: is about runs in which each batch fits the 32-bit positions of the file, and without failed writes; a write that is cut short by a crash is the subject of `WalTorn`.
- WalTorn.TornWrite: is about a cut inside the batch, not inside the index footer, and takes a last file that does not happen to end like a trailer.
- WalLife.PublishedStays: is about restarts at which no unfinished last file ends like a trailer, which is the exact condition of `WalRecover.ReopensExactly`.
- Applying.TwoRoundsSync: is about sends that are not cut at the end of a file.
- WalSteps.FootKeeps: takes the enumeration order of the index as a parameter.
- Replication.WritesLand: models cutting the log back on values only; the rollback of log files is not modelled, and no run reaches it.
- ReplicationRun.AlwaysPrefix: assumes a fixed leader, logs that start empty and the handler of a follower as one step.
- StreamReader.DealEpollIn: assumes that the handling queue takes every batch.
- TimingWheel.TimesOutOnce: assumes fresh ids, a clock that does not run back and checks less than 2^32 steps apart.
- CThread.NeverStranded: leaves out stopping the thread, a full socket and the direct call on the own thread.
- Md5.Context.Update: requires each call to be shorter than 2^32 - 64 bytes, because the block loop adds 63 to a 32-bit index.
- Md5.MD5: requires a message shorter than 2^32 - 64 bytes, for the same reason.
- Md5.Stream: requires pieces shorter than 2^32 - 64 bytes, for the same reason.
- FifoRun.DeliversInOrder: takes memory as sequentially consistent, although `next`, `headNode` and the elements are plain fields of the code; takes the test for an empty queue, the read of the front and the start of a pop as one step of the consumer; takes indexes as unbounded; leaves out clearing the queue.
- The second ring (`BufferQueue`, `LockBufferQueue`): its full test keeps no gap between full and empty, so the list invariant does not hold of it.
- The two-buffer peek of the ring, which consumes a record that does not fit without counting it off.
- Attaching to an existing ring in shared memory.
- The data copy of a migration on the storage side, which is empty in the source.
- Rollback of the write-ahead log, and writes that fail while the process goes on.
- Wrap-around of a scan position beyond 32 bits is treated as a failed load, and file names as numbers.
- Storage engines, protobuf messages, sockets and epoll, HTTP handlers, the command-line client, configuration, logging, the daemon and the demos: libraries and I/O.
- MurmurHash, address formatting, URL coding, the bitmap and the linked list: they would only add easy members.
- Format of the value metadata.
