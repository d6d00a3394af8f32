# A model of a transactional file server with consistent online backup

The server runs user transactions over a file system while a backup of the same file system is being taken.
Transactions take shared or exclusive locks per file and hold them until they commit or abort. The backup is
not two-phase: it locks one file, copies it, flips the file's read bit, releases it and moves on. What keeps
the copy consistent is the mutual-serializability check: the first file of a transaction fixes its side
("before" or "after" the backup), and every later file has to carry the same read bit, or the transaction is
paused or aborted.

This project models the server's lock, wait and backup protocol, its write-ahead log, its open-file layer and
its deadlock detector, and proves what they are for. `dafny verify dfyconfig.toml` checks everything.

## The parts

- `Basics` holds what several parts share.
- **Protocol machine** (`Storage`, `Protocol`): a state and the steps that change it. A step is one critical
  section under `file_mutex`. `Requests` says what becomes of every lock request and what a transaction can do next.
  `Invariants`, `Serializability`, `BackupConsistency`, `Waiting` and `Sides` prove properties of every run of this machine, of any length, for any number of transactions, files and successive
  backups. `BackupRuns` and `HiddenFiles` hold what the backup does on its own, over a walk of any length, and the runs
  in which its design does not do what it is for.
- **Lock manager in place** (`LockList`, `WaitList`, `PauseArray`, `LockServer`): the doubly linked lock list with
  its groups of shared records, the wait list, the pause array and the transactions' record chains, as objects
  updated by methods. Each operation of `LockServer.Server` is proved to do to the whole state exactly what the
  protocol machine says (`Abs()` is the machine's state). `Service.Server` puts the disk under it: each of its
  calls is one step of the machine, `Abs() == Next(old(Abs()), a)`, and adds that step to a ghost run (a request that
  runs over the pause array changes nothing). So after any
  sequence of calls the data structures are in the state to which that run leads, and what is proved of all runs
  holds of them (`Service.Server.Guarantees`). `LockUpgrade` makes calls after which a transaction sleeps on its own
  lock.
- **Log** (`LogCodec`, `LogChains`, `LogReader`, `LogManager`): the bytes, the back-patched chains, the sequential
  reader, and the class that appends.
- **Open files** (`HandleTables`, `FileTable`, `ChunkedIO`): the three reference-counted tables and the loops that
  split a transfer at block boundaries.
- **Directories** (`DirectorySearch`, `RenameGuard`) and the **backup walk** (`BackupWalk`).
- **Deadlock detector** (`WaitForGraph`, `DepthFirst`, `DeadlockWalk`, `DeadlockDetector`, `WaitEdges`): the edges
  in the order in which they are appended, the search as a function and as the loops and calls that compute it, and
  the walk that lists a cycle. `DetectorLimits` holds the situations in which it fails. `Detection` is a round of
  detection on `Service.Server`: it reads the waiting transactions and the holders off the lists and wakes the one
  picked. `DetectorRuns` brings about the situations of `DetectorLimits` by calls of a server just started.

## The steps of the protocol machine

`Protocol.Next` is the reference the lock manager's methods refine. Its steps come from these places.

- `Begin`: `TxFS_Mam/server/TxFS_manager.c:41-58` with `TxFS_Mam/server/Txn_manager.c:4-26`
- `Request`: `TxFS_Mam/server/Lock_manager1.c:170-526`, the check `TxFS_Mam/server/MS_manager.c:5-99`
- `WakeUp`: `TxFS_Mam/server/Wait_list_manager.c:141-149` and `213-221`, then `TxFS_Mam/server/Lock_manager2.c:6-22`
- `Victim`: `TxFS_Mam/server/Wait_list_manager.c:150-183` and `222-258`, `TxFS_Mam/server/deadlock.c:303-318`: a
  sleeper picked by the detector leaves the wait node, and then aborts. It is never the backup, which holds nothing
  while it waits
- `ReadAt`, `WriteAt`: `TxFS_Mam/server/Update_manager.c:9-60`; writes stay private until the release
- `Commit`, `Abort`: `TxFS_Mam/server/TxFS_manager.c:312-347`
- `BackupStart`, `BackupEnd`: `TxFS_Mam/server/TxFS_manager.c:713-738`
- `BackupCopy`, `BackupMark`, `BackupRelease`: `TxFS_Mam/server/backup_manager.c:154-306`

## Modelling choices

- The read bit of a requested file is computed as in the commented-out lines
  `TxFS_Mam/server/Lock_manager1.c:187-193`; the variable that the code passes on is otherwise never set.
- When a shared record is released, its neighbours are linked to each other whether or not anybody waits. The
  code does this only when somebody waits (`TxFS_Mam/server/Lock_manager1.c:618-626`), not in the branch at 575-593.
- `search_file_list` may return any record of the inode; the protocol machine takes the owner of that record as a
  parameter (`loc`). `LockList.LockList.Search` says which record it is: the second one when the list begins with
  two records of the file, although the comment above the function says the first.
- A transaction may have several shared records of one file; nothing here relies on there being one.
- The log must be shorter than 2^31 bytes when a transaction begins, because its LRN is passed on as an `int`
  (`TxFS_Mam/server/Txn_manager.c:44`).
- A handle is valid below the table size only; `TxFS_Mam/server/yaffsfs.c:139` also lets the size itself through.
- A first pause that finds no entry left in the pause array (`TxFS_Mam/server/MS_manager.c:52-77`) is reported as an
  overrun by `PauseArray.PauseArray.CountPause` and by all the operations that lead to it. Nothing has been changed
  then, and this model does not go on.
- The set of files is fixed, and so is the set of those that the backup's walk comes to (`walked`); the machine lets a
  backup end when it has copied these. `BackupWalk` says which they are. `strayed` records that a user transaction
  has asked for a file outside the walk; no step depends on it.
- The bodies of the lower file-system layer (`yaffs_file_rd`, `yaffs_wr_file`, `yaffs_rename_obj`) are not part of
  this model: transfers are a parameter bounded by what was asked for, renaming re-parents the object.
- The table size and the largest file size are parameters: the header that defines them is not part of this model.

## What was found

- A transaction that shares a file and asks to write it waits on its own lock once the other readers are gone, and
  nothing ever wakes it: no release signals it, and the detector does not look for it (`Waiting.WokenIffNotHolder`,
  `Waiting.StuckForever`, `Detection.StuckInNone`, `Detection.StuckUnseen`). It happens on a server where nothing else
  is going on when two transactions read a file and the first of them asks to write it, because the search then
  returns the record of the second (`LockUpgrade.UpgradeStuck`, `Waiting.UpgradeGetsStuck`). Had the second one asked,
  the search would have returned its own record, and it would have gone on with its shared lock.
- Pausing waits for the backup to read the file only while a set bit means "read". After every second backup the
  meaning is reversed, and then the transaction is paused for files that have been read already, until it is
  aborted (`Sides.PauseWaitsForBackupIff`, `Sides.PausingIsFutile`; `BackupRuns.PausedInVain` is a run in which it
  happens). Consistency does not depend on it.
- Hidden files are never copied nor marked. Backups are consistent as long as no user transaction has asked for one
  (`BackupConsistency.OnlineBackupIsConsistent`, `BackupConsistency.StrayedIff`). Otherwise the next backup can hold
  one half of the writes of a transaction that locked a hidden file first (`HiddenFiles.HiddenFileTearsBackup`). So
  for a tree with two files or more besides its root, all backups of all runs are consistent if and only if the walk
  comes to every file (`HiddenFiles.ConsistentIffAllWalked`).
- The backup flips the bit of a file if and only if the number of the file's visible names is odd
  (`BackupWalk.FlipsOddNames`). A file with two of them is left looking unread (`BackupWalk.LinkedFileStaysUnread`).
- The entries of the pause array are never given out twice: once 99 transactions have been paused, the first pause of
  any other one is stored past the array, even if the others have passed or ended meanwhile. It happens if and only
  if the transaction has no entry and the last entry is given out (`PauseArray.PauseArray.CountPause`,
  `PauseArray.HundredthPause`).
- The detector misses a blocking transaction exactly when the holders of a shared file are not recorded in a
  certain order (`WaitEdges.FoundAllIffWaitingFirst`), and so it can miss a deadlock (`DetectorLimits.DeadlockMissed`,
  `DetectorRuns.MissedOnServer`). The transaction it picks is deadlocked all the same (`Detection.Round`).
- Its walk along a cycle need not come back to where it started; it then runs over the array of 50 nodes
  (`DetectorLimits.DetectorOverruns`, `DetectorRuns.OverrunOnServer`). At a back edge to position `k` of the stack it comes back if and only if, going
  up the stack from `k`, the first node whose first grey edge does not lead to the next node leads to `k`, or below
  it to a node from which such edges lead up to `k` (`DeadlockWalk.ReturnsIffCloses`). The search as a whole runs over
  the array exactly when it meets a back edge whose walk does not (`DeadlockDetector.Detector.DetectCycles`). If the
  files waited for are locked exclusively, that is when 50 or more transactions wait in a ring, and otherwise exactly
  the deadlocked transactions are listed (`WaitEdges.DetectDeadlock`).

## Model

| member | source | states |
|---|---|---|
| `Serializability.StrictTwoPhaseLocking` | TxFS_Mam/server/Lock_manager1.c:276-526 | for every interleaving, with aborts of running transactions and of sleeping deadlock victims, every read of every committed transaction returned what the serial execution in commit order would have returned, and the disk is what that execution leaves |
| `Serializability.SerializableStep` | TxFS_Mam/server/TxFS_manager.c:312-347 | any one step keeps the run serializable in commit order |
| `Serializability.IsolatedAcrossCommit` | TxFS_Mam/server/Lock_manager1.c:530-666 | a commit changes nothing another live transaction has read or will write |
| `Serializability.ShadowDisjoint` | TxFS_Mam/server/Update_manager.c:9-42 | what one transaction has written privately no other live one has touched |
| `BackupConsistency.OnlineBackupIsConsistent` | TxFS_Mam/server/backup_manager.c:309-428 | in every run, over any number of backups of either bit polarity, a backup that ends before a user transaction has asked for a file outside the walk holds exactly the files on the walk, as the "before" transactions, replayed serially in commit order, leave them; and befores, backup, afters explain the whole history, whatever comes later |
| `BackupConsistency.StrayedIff` | TxFS_Mam/server/backup_manager.c:371-385 | a run has strayed iff a user transaction has asked for a file outside the walk; if the walk comes to every file none has, and all backups are consistent |
| `HiddenFiles.HiddenFileTearsBackup` | TxFS_Mam/server/backup_manager.c:371-385 | with a file outside the walk, for any tree, walk, bit polarity and two files on the walk besides the root: a run of two backups after which the second holds one of two writes of the only transaction that ever committed, and so is the state of no serial execution |
| `HiddenFiles.ConsistentIffAllWalked` | TxFS_Mam/server/backup_manager.c:371-385 | with two files on the walk besides the root, all backups of all runs are consistent iff the walk comes to every file |
| `HiddenFiles.AllWalked` | TxFS_Mam/server/backup_manager.c:309-428 | when the walk comes to every file, every backup of every run is a state of some serial execution |
| `HiddenFiles.Tears` | TxFS_Mam/server/MS_manager.c:17-22 | from any server with nothing live: a transaction locks a hidden file, the backup reads one part of the walk, the transaction writes a file of either part and commits, the backup reads the rest |
| `HiddenFiles.BacksUp` | TxFS_Mam/server/backup_manager.c:309-428 | a backup with nobody else about copies every file of the walk as it is, turns every bit and ends |
| `BackupConsistency.ConsistentIsInOrder` | TxFS_Mam/server/backup_manager.c:309-428 | a consistent backup is what some serial execution of part of the history leaves |
| `BackupRuns.ReadsAll` | TxFS_Mam/server/backup_manager.c:335-428 | the backup reads any number of free files in turn: it copies each, flips its bit and releases it, and nothing else changes |
| `BackupConsistency.SplitsStep` | TxFS_Mam/server/MS_manager.c:23-96 | while a backup runs every step keeps the split into befores and afters: the afters are confined to files already copied, and the copies are those of the befores |
| `BackupConsistency.SplitsCopy` | TxFS_Mam/server/backup_manager.c:239-287 | the file being copied is as the befores left it: no after has touched it |
| `BackupConsistency.InsertBefore` | TxFS_Mam/server/MS_manager.c:25-41 | a transaction on the unread side that commits during the backup can be moved in front of all the afters |
| `BackupConsistency.EndsConsistent` | TxFS_Mam/server/TxFS_manager.c:732-737 | a backup that has copied every file on the walk ends with a consistent image |
| `BackupConsistency.StaysConsistent` | TxFS_Mam/server/TxFS_manager.c:312-331 | later commits leave a finished backup explained |
| `BackupConsistency.OnSideCounts` | TxFS_Mam/server/MS_manager.c:23-25 | the two sides share out the committed transactions |
| `Invariants.SafeRun` | TxFS_Mam/server/Lock_manager1.c:170-526 | every reachable state is safe: locks compatible, sides and bits in agreement, live work covered by locks, the running copy private to the backup |
| `Invariants.SafeStep` | TxFS_Mam/server/Lock_manager1.c:170-526 | every enabled step keeps the state safe |
| `Invariants.KeepsCompatible` | TxFS_Mam/server/Lock_manager1.c:276-526 | a file is locked by one transaction exclusively or by any number in shared mode, never mixed |
| `Invariants.KeepsSides` | TxFS_Mam/server/Lock_manager1.c:156-160 | as long as user transactions ask for files on the walk, every file one of them holds carries the bit that is its side |
| `Invariants.WorkCovered` | TxFS_Mam/server/Update_manager.c:9-42 | everything a live transaction has read it has locked, everything it has written it has locked exclusively |
| `Invariants.GrantedOnlyIf` | TxFS_Mam/server/Lock_manager1.c:210-256 | when a request adds a record nobody else holds the file, or both share it |
| `Invariants.PassedOnlyIf` | TxFS_Mam/server/Lock_manager1.c:210-256 | when a request of a user transaction with locks adds a record, the file's bit is its side, or the file was free and no backup runs |
| `Invariants.MarkedIsPrivate` | TxFS_Mam/server/backup_manager.c:289-306 | when the backup flips a bit no user transaction holds the file |
| `Sides.SkippingTheCheckIsSound` | TxFS_Mam/server/Lock_manager1.c:214-227 | as long as user transactions ask for files on the walk: whenever no backup runs all bits and all sides agree, so the check that is skipped would have passed, for either polarity, over repeated backups |
| `Sides.BackupNeverShares` | TxFS_Mam/server/Lock_manager1.c:442-452 | the branch in which readers pass waiting writers because the backup shares the file is never taken |
| `Sides.PausingIsBounded` | TxFS_Mam/server/MS_manager.c:50-80 | between two resets a transaction is paused at most six times, in any run from any reachable state |
| `Requests.RequestIsAnswered` | TxFS_Mam/server/Lock_manager1.c:170-526 | every request, in terms of the records, bit, side, chain, waits and pause count: when it is granted, when the transaction sleeps, when it is paused and when doomed, what is counted, and that nothing else changes |
| `Requests.CheckedAnswer` | TxFS_Mam/server/MS_manager.c:5-99 | a checked request is paused iff the transaction has records, is on the set side, the bit is clear and it has been paused at most five times, and doomed in every other conflict |
| `Requests.RunningHolds` | TxFS_Mam/server/Lock_manager1.c:170-526 | a transaction that runs after its request has a record of the file, in the mode asked for if it has got one now; in all other cases it has got none |
| `Requests.AsksAgain` | TxFS_Mam/server/Lock_manager2.c:6-22 | in every run, a transaction that sleeps, was woken or was paused asks again for the file and mode of its own last request, and for nothing else |
| `Requests.SleeperLeaves` | TxFS_Mam/server/Wait_list_manager.c:141-183 | a woken sleeper is to repeat its request in its own mode, a picked one is to abort |
| `Requests.DoomedAborts` | TxFS_Mam/server/MS_manager.c:60-95 | the only step of a transaction that has been refused is its abort |
| `Requests.DoomedUntilAbort` | TxFS_Mam/server/MS_manager.c:60-95 | in every run, until it aborts it gets no lock, reads and writes nothing and does not commit |
| `Requests.CanGoOn` | TxFS_Mam/server/Lock_manager2.c:6-22 | in every reachable state each live user transaction has a next step, except that a sleeper that has not been signalled can only be picked to abort |
| `Requests.ReleaseSignals` | TxFS_Mam/server/Lock_manager1.c:594-659 | ending a transaction signals a sleeper iff it waits for a file of the transaction that is locked exclusively or has no other holder |
| `Requests.BackupReleaseSignals` | TxFS_Mam/server/backup_manager.c:190-230 | the backup's release of a file takes its record and signals the sleepers of that file, and nobody else |
| `Sides.PauseWaitsForBackupIff` | TxFS_Mam/server/MS_manager.c:43-46 | a transaction paused because of a file on the walk waits for a file the backup has still to read iff a set bit means "read" |
| `Sides.MarkingEndsPause` | TxFS_Mam/server/backup_manager.c:289-306 | with a set bit meaning "read", the backup's reading of the file ends the conflict |
| `Sides.PausingIsFutile` | TxFS_Mam/server/MS_manager.c:43-80 | with a clear bit meaning "read", no retry passes the check until the backup or the transaction ends |
| `BackupRuns.PausedInVain` | TxFS_Mam/server/MS_manager.c:43-46 | for any two files on the walk, a run of a fresh server that reaches such a pause: the backup has read the file for which the transaction is paused |
| `Waiting.WaitsAreSound` | TxFS_Mam/server/Wait_list_manager.c:52-148 | in every reachable state `in_wait` is the number of sleepers, a wait node exists iff there are some, and whoever sleeps unsignalled waits for a file somebody still has locked |
| `Waiting.WaitsStep` | TxFS_Mam/server/Wait_list_manager.c:187-221 | every step keeps the counts exact and loses no wakeup |
| `Waiting.ReleaseWakes` | TxFS_Mam/server/Lock_manager1.c:594-659 | ending a transaction leaves another record of the file in place or signals its sleepers |
| `Waiting.BackupReleaseWakes` | TxFS_Mam/server/backup_manager.c:190-230 | so does the backup's release of one file |
| `Waiting.WokenIffNotHolder` | TxFS_Mam/server/Lock_manager1.c:408-437 | when the last other holder ends, a sleeper is woken iff it does not itself hold the file |
| `Waiting.StuckForever` | TxFS_Mam/server/Lock_manager1.c:594-659 | a transaction that sleeps on a file only it holds stays so in every continuation in which the detector does not pick it |
| `Waiting.UpgradeGetsStuck` | TxFS_Mam/server/Lock_manager1.c:408-437 | two readers of a file, the first asks to write it and the search returns the record of the second, which commits: the upgrade is stuck |
| `LockUpgrade.UpgradeStuck` | TxFS_Mam/server/Lock_manager1.c:276-437 | the same by calls on any server where nothing is going on: the record that the search returns is computed, not chosen |
| `LockUpgrade.StuckServer` | TxFS_Mam/server/Lock_manager1.c:276-437 | such a server can be had: any that has just been started |
| `LockUpgrade.SecondFound` | TxFS_Mam/server/Lock_manager1.c:75-91 | of two records of a file at the front of the list the search returns the second |
| `LockUpgrade.ReaderLast` | TxFS_Mam/server/Lock_manager1.c:368-406 | the record of a new reader stands behind those of the others |
| `DetectorLimits.SelfWaitUnseen` | TxFS_Mam/server/deadlock.c:84-171 | a transaction that waits for a file of which it has all the records is on no cycle of the graph, so the detector never picks it |
| `LockServer.Server.constructor` | TxFS_Mam/server/my_header.h:116-133 | an empty lock manager is the machine's initial state |
| `LockServer.Server.RequestLock` | TxFS_Mam/server/Lock_manager1.c:170-526 | a request changes the lock list, chains, wait list and pause array exactly as the protocol machine says for the owner of the record that the search returns, and adds at most one record, behind all others of the file; reports an overrun iff a first pause is to be counted and the pause array has no entry left |
| `LockServer.Server.RequestFree` | TxFS_Mam/server/Lock_manager1.c:208-274 | the branch for a file nobody has locked; reports an overrun iff the check would count a first pause with no entry left |
| `LockServer.Server.RequestShared` | TxFS_Mam/server/Lock_manager1.c:368-520 | the branch for a shared file: readers join unless somebody waits, everybody else sleeps; overruns as above |
| `LockServer.Server.GrantNew` | TxFS_Mam/server/Lock_manager1.c:229-256 | granting a free file: list, chain and side as the machine's grant |
| `LockServer.Server.GrantShared` | TxFS_Mam/server/Lock_manager1.c:384-400 | joining the readers of a file |
| `LockServer.Server.Sleep` | TxFS_Mam/server/Lock_manager1.c:286-366 | the transaction waits and the file's wait node counts it |
| `LockServer.Server.MutuallySerializable` | TxFS_Mam/server/MS_manager.c:5-99 | the verdict of the machine's check, with the pauses counted or forgotten as it says; none iff a first pause is to be counted and no entry is left |
| `LockServer.Server.ReleaseLocks` | TxFS_Mam/server/Lock_manager1.c:530-666 | after commit or abort no record of the transaction is left and exactly the waiters of freed files are signalled |
| `LockServer.Server.ReleaseByBackup` | TxFS_Mam/server/backup_manager.c:154-237 | the backup's release takes out its one record of the file and signals its waiters |
| `LockServer.Server.WakeUp` | TxFS_Mam/server/Wait_list_manager.c:141-149 | a woken thread leaves the wait node and asks again |
| `LockServer.Server.Victim` | TxFS_Mam/server/Wait_list_manager.c:150-183 | a thread woken to abort leaves the wait node and can only abort |
| `LockServer.LockedIffRecord` | TxFS_Mam/server/Lock_manager1.c:65-115 | a file is locked, exclusively or not, iff the list has such a record |
| `LockServer.WokenIsFreed` | TxFS_Mam/server/Lock_manager1.c:594-659 | the record-by-record release wakes the waiters of exactly those files on which nobody has a record afterwards |
| `LockServer.AloneIffLast` | TxFS_Mam/server/Lock_manager1.c:599-601 | a record is the only one of its file left iff no other transaction holds it and no later record of the chain is of it |
| `LockServer.AloneIffUngrouped` | TxFS_Mam/server/Lock_manager1.c:599-601 | testing the two shared links tells whether a record is the only one of its file |
| `LockServer.RemoveKeepsOwned` | TxFS_Mam/server/Lock_manager1.c:530-666 | the chains go on sharing out the records of the list when one is taken out of both |
| `LockServer.GrantKeepsOwned` | TxFS_Mam/server/Lock_manager1.c:143-168 | and when one is added to both |
| `LockServer.UnchainAt` | TxFS_Mam/server/backup_manager.c:173-188 | the backup's unlinking removes the first record of the file from its chain and keeps the others in order |
| `LockServer.FindInChain` | TxFS_Mam/server/backup_manager.c:173-178 | the walk along the chain stops at the first record of the file |
| `LockServer.BackupDoesNotShare` | TxFS_Mam/server/Lock_manager1.c:442-452 | the backup has no record of a file that is locked in shared mode |
| `LockServer.CheckedOutcome` | TxFS_Mam/server/Lock_manager1.c:226-274 | what the machine does with a request, case by verdict; `Requests.RequestIsAnswered` says what the cases come to |
| `Service.Server.constructor` | TxFS_Mam/server/my_header.h:116-133 | a server over the disk is in the given initial state, reached by the empty run |
| `Service.Server.Begin` | TxFS_Mam/server/TxFS_manager.c:41-58 | the machine's step `Begin`, added to the run |
| `Service.Server.Request` | TxFS_Mam/server/Lock_manager1.c:170-526 | the machine's step `Request` for the owner of the record that the search returns, added to the run; the answer in terms of records, bit, side and pause count; reports an overrun, and changes nothing, iff the pause array runs over |
| `Service.Server.WakeUp` | TxFS_Mam/server/Wait_list_manager.c:141-149 | the machine's step `WakeUp`, added to the run; the sleeper's wait node is there; it is to ask again for its own file in its own mode |
| `Service.Server.Victim` | TxFS_Mam/server/Wait_list_manager.c:150-183 | the machine's step `Victim`, added to the run; the sleeper can only abort |
| `Service.Server.ReadAt` | TxFS_Mam/server/Update_manager.c:9-60 | the machine's step `ReadAt`, added to the run; returns as many bytes as lie in the range and in the file, byte i being byte pos + i of the transaction's own copy or else of the disk's |
| `Service.ReadBytes` | TxFS_Mam/server/yaffsfs.c:1196-1243 | the same of the machine's step: these bytes are what the history records |
| `Storage.SlicedBytes` | TxFS_Mam/server/yaffsfs.c:1196-1243 | how many bytes a read returns, and which |
| `Service.Server.WriteAt` | TxFS_Mam/server/Update_manager.c:9-42 | the machine's step `WriteAt`, added to the run; in the transaction's own copy the bytes in the range are the data, old ones outside it stay, a gap reads as zeros, and a write of nothing changes nothing |
| `Service.WrittenBytes` | TxFS_Mam/server/yaffsfs.c:1342-1359 | the same of the machine's step |
| `Basics.PatchedBytes` | TxFS_Mam/server/yaffsfs.c:1342-1359 | length and bytes of a file after a write |
| `Service.Server.Commit` | TxFS_Mam/server/TxFS_manager.c:312-331 | the machine's step `Commit`, added to the run: writes in place, releases every lock, wakes the waiters of freed files |
| `Service.Server.Abort` | TxFS_Mam/server/TxFS_manager.c:333-347 | the machine's step `Abort`, added to the run |
| `Service.Server.BackupStart` | TxFS_Mam/server/TxFS_manager.c:713-727 | the machine's step `BackupStart`, added to the run |
| `Service.Server.BackupCopy` | TxFS_Mam/server/backup_manager.c:239-287 | the machine's step `BackupCopy`, added to the run |
| `Service.Server.BackupMark` | TxFS_Mam/server/backup_manager.c:289-306 | the machine's step `BackupMark`, added to the run |
| `Service.Server.BackupRelease` | TxFS_Mam/server/backup_manager.c:154-237 | the machine's step `BackupRelease`, added to the run; the backup does hold the file |
| `Service.Server.BackupEnd` | TxFS_Mam/server/TxFS_manager.c:732-738 | the machine's step `BackupEnd`, added to the run |
| `Service.Server.Guarantees` | TxFS_Mam/server/TxFS_manager.c:312-347 | after any sequence of calls the state is safe, serializable in commit order, its backups consistent and its waits sound |
| `LockList.LockList.Search` | TxFS_Mam/server/Lock_manager1.c:65-115 | finds a record iff there is one, which one, and the place for a new one |
| `LockList.LockList.InsertNew` | TxFS_Mam/server/Lock_manager1.c:229-256 | the list stays doubly linked, sorted and grouped, with the head its own predecessor, and gains the record at its place |
| `LockList.LockList.JoinShared` | TxFS_Mam/server/Lock_manager1.c:385-395 | the record goes behind the last one of its file, in the list and in the group |
| `LockList.LockList.Delete` | TxFS_Mam/server/Lock_manager1.c:118-140 | the record leaves list and group; all other links are as if it had never been there |
| `LockList.LockList.Ungroup` | TxFS_Mam/server/Lock_manager1.c:618-626 | the neighbours in the group are linked to each other, nothing else changes |
| `LockList.LockList.OwnedFrom` | TxFS_Mam/server/Lock_manager1.c:444-450 | whether the transaction has a record from the given one on |
| `LockList.InsertKeepsOrder` | TxFS_Mam/server/Lock_manager1.c:229-256 | the new record at that place keeps the list sorted, free of repetition and of one mode per file |
| `WaitList.WaitList.Search` | TxFS_Mam/server/Wait_list_manager.c:27-50 | finds the node of a file iff there is one |
| `WaitList.WaitList.Insert` | TxFS_Mam/server/Wait_list_manager.c:82-114 | the list stays sorted and gains a node that counts one |
| `WaitList.WaitList.Add` | TxFS_Mam/server/Wait_list_manager.c:187-191 | the node counts one more |
| `WaitList.WaitList.Leave` | TxFS_Mam/server/Wait_list_manager.c:52-80 | the node counts one fewer, and goes with the last sleeper |
| `WaitList.InsertKeeps` | TxFS_Mam/server/Wait_list_manager.c:90-114 | a node put in at its place: still sorted, counts as before plus one |
| `WaitList.RemoveKeeps` | TxFS_Mam/server/Wait_list_manager.c:58-80 | a node taken out: still sorted, counts as before without it |
| `PauseArray.PauseArray.CountPause` | TxFS_Mam/server/MS_manager.c:50-80 | refuses iff the transaction has been paused more than five times, runs over iff it has no entry and none is left, and otherwise counts one more pause of it and of nobody else |
| `PauseArray.HundredthPause` | TxFS_Mam/server/MS_manager.c:52-77 | after the first pauses of 99 transactions the first pause of any other one runs over the array, whether or not those of the others have been forgotten |
| `PauseArray.PauseArray.Reset` | TxFS_Mam/server/MS_manager.c:28-37 | forgets the pauses of the transaction and of nobody else |
| `PauseArray.PauseArray.Find` | TxFS_Mam/server/MS_manager.c:52-57 | finds the transaction's entry iff it has one |
| `PauseArray.NewEntryKeeps` | TxFS_Mam/server/MS_manager.c:74-77 | a new entry keeps one entry per transaction |
| `PauseArray.ResetKeeps` | TxFS_Mam/server/MS_manager.c:30-37 | freed entries belong to nobody |
| `LogReader.RoundTrip` | TxFS_Mam/server/test_log.c:19-58 | the bytes of any log parse back to exactly its records |
| `LogReader.ReadAll` | TxFS_Mam/server/test_log.c:19-58 | the sequential reader returns the parse of the bytes, or that they are not a log |
| `LogReader.FoundInLog` | TxFS_Mam/server/Log_manager.c:7-13 | every LRN is the byte offset of its record |
| `LogReader.FollowIsChain` | TxFS_Mam/server/Log_manager.c:107-119 | following `next_LRN` through the bytes visits the transaction's records in the order appended |
| `LogReader.ChainExact` | TxFS_Mam/server/Log_manager.c:107-163 | a record is on the chain iff it is the transaction's and no end record of it comes between |
| `LogReader.PrevIsInverse` | TxFS_Mam/server/Log_manager.c:120-125 | `prev_LRN` leads back along the chain, and from its first record nowhere |
| `LogReader.FinishedChainSpells` | TxFS_Mam/server/TxFS_manager.c:312-347 | a finished chain spells BEG op* (COMMIT or ABORT) END, and BEG END for the backup |
| `LogReader.ChainSteps` | TxFS_Mam/server/Log_manager.c:107-119 | neighbours on a chain are consecutive records of the transaction |
| `LogManager.EventLog.BytesHoldTheLog` | TxFS_Mam/server/Log_manager.c:41-366 | after any sequence of calls the bytes parse to the records appended, each stands at its LRN, each chain can be followed |
| `LogManager.EventLog.LogTxnBegin` | TxFS_Mam/server/Log_manager.c:41-91 | appends a begin record that starts a chain, with no descriptor, offset or data |
| `LogManager.EventLog.OnTxnBegin` | TxFS_Mam/server/TxFS_manager.c:41-58 | the begin record, then a live node that holds its LRN |
| `LogManager.EventLog.AppendLinked` | TxFS_Mam/server/Log_manager.c:107-155 | appends a record and stores its LRN in the record before it; no other byte changes |
| `LogManager.EventLog.Log` | TxFS_Mam/server/Log_manager.c:299-366 | a write, rename, creat, unlink, commit or abort record is chained to the transaction's last one |
| `LogManager.EventLog.LogTxnEnd` | TxFS_Mam/server/Log_manager.c:234-297 | the end record closes the chain of a transaction whose node is gone |
| `LogManager.EventLog.OnTxnCommit` | TxFS_Mam/server/TxFS_manager.c:312-331 | commit record, then the deferred updates, then the end record; every update in place follows its commit record |
| `LogManager.EventLog.OnTxnAbort` | TxFS_Mam/server/TxFS_manager.c:333-347 | abort record and end record, no update in place |
| `LogManager.EventLog.OnBackupEnd` | TxFS_Mam/server/TxFS_manager.c:732-735 | the backup's chain ends with its end record |
| `LogChains.PatchedLog` | TxFS_Mam/server/Log_manager.c:110-118 | overwriting `next_LRN` in the bytes gives the log of the same records with that one field changed |
| `LogChains.ChainedLogged` | TxFS_Mam/server/Log_manager.c:93-163 | a further record of an open transaction keeps placement, linking and the grammar of the log |
| `LogChains.BeginLogged` | TxFS_Mam/server/Log_manager.c:41-91 | so does a begin record |
| `LogChains.RecordStands` | TxFS_Mam/server/Log_manager.c:7-13 | a record stands where the records before it end |
| `LogCodec.ParseEncoded` | TxFS_Mam/server/test_log.c:19-58 | reading where a record was written gives it back, and the offset of the next one |
| `LogCodec.PatchedRecord` | TxFS_Mam/server/Log_manager.c:110-118 | writing `next_LRN` 20 bytes into a record changes no other field |
| `LogCodec.FieldsStand` | TxFS_Mam/server/Log_manager.c:143-155 | the offsets at which the fields of a record stand |
| `LogCodec.ParsesExactly` | TxFS_Mam/server/test_log.c:19-58 | the reader reads a record at an offset iff the bytes of that record stand there, and ends where they end |
| `LogCodec.RecordBytes` | TxFS_Mam/server/my_header.h:78-94 | the layout in numbers: which bytes hold which field, and the code 1 to 8 of each record type |
| `LogCodec.EncodedBytes` | TxFS_Mam/server/Log_manager.c:143-155 | a number is stored lowest byte first, a negative one as its two's complement |
| `LogCodec.TailRead` | TxFS_Mam/server/Log_manager.c:368-405 | the offsets the deferred-update readers seek to hold the descriptor, offset, length and data |
| `LogCodec.DecodeEncoded` | TxFS_Mam/server/Log_manager.c:68-78 | a signed number survives being written and read |
| `HandleTables.PutHandleKeeps` | TxFS_Mam/server/yaffsfs.c:339-368 | closing keeps all reference counts exact, slots distinct and sharing modes compatible |
| `HandleTables.PutHandleEffect` | TxFS_Mam/server/yaffsfs.c:339-368 | what dropping a handle does to each slot: one use fewer, with the last use one handle fewer on the descriptor, with the last handle one descriptor fewer on the object, and nothing else |
| `HandleTables.WithHandleKeeps` | TxFS_Mam/server/yaffsfs.c:784-810 | so does a second handle on a descriptor |
| `HandleTables.WithHandleEffect` | TxFS_Mam/server/yaffsfs.c:784-810 | the second handle leads to the same descriptor and object as the first, and nothing else changes |
| `HandleTables.NewHandleAndFileDesKeeps` | TxFS_Mam/server/yaffsfs.c:290-319 | allocating a handle and descriptor fails iff every handle is in use, and keeps the counts exact |
| `HandleTables.FreeFdExists` | TxFS_Mam/server/yaffsfs.c:303-314 | while a handle is free so is a descriptor: the fallback is never reached |
| `HandleTables.FreeInodeExists` | TxFS_Mam/server/yaffsfs.c:1014-1021 | an object being opened always finds an inode slot, as the comment claims |
| `HandleTables.AttachKeeps` | TxFS_Mam/server/yaffsfs.c:1013-1041 | hooking a descriptor to its object keeps counts exact, objects distinct and sharing modes compatible |
| `HandleTables.AttachShares` | TxFS_Mam/server/yaffsfs.c:929-963 | what the scan lets through keeps every pair of open descriptors of an object compatible |
| `HandleTables.UseKeeps` | TxFS_Mam/server/yaffsfs.c:322-337 | protecting a handle during a transfer changes no count |
| `HandleTables.Pigeonhole` | TxFS_Mam/server/yaffsfs.c:299-302 | among n references with one of them empty some slot is unreferenced |
| `FileTable.Files.OpenSharing` | TxFS_Mam/server/yaffsfs.c:814-1046 | on success a new handle with one use, on a descriptor of the object that reads iff the access flags are 0 or 2, writes iff they are 1 or 2, and shares and appends as asked for; otherwise the error of the first check that fails, each error iff its condition holds; nothing else in use changes |
| `FileTable.OutcomeFits` | TxFS_Mam/server/yaffsfs.c:867-1011 | each error of an open call as a condition on the lookup, the flags and the open descriptors |
| `FileTable.BusyIff` | TxFS_Mam/server/yaffsfs.c:929-963 | the scan refuses iff some open descriptor of the object conflicts with the access or the sharing asked for |
| `FileTable.OpenedAsAsked` | TxFS_Mam/server/yaffsfs.c:1013-1030 | access, sharing, append mode and position of the new descriptor |
| `FileTable.Files.Decide` | TxFS_Mam/server/yaffsfs.c:878-1011 | the object of an open call that has a handle, or the error of the first check that fails, each error iff its condition holds |
| `FileTable.Files.SharingAllows` | TxFS_Mam/server/yaffsfs.c:929-963 | the scan lets an open through iff it is compatible with every descriptor of the object |
| `FileTable.Files.Dup` | TxFS_Mam/server/yaffsfs.c:784-810 | a second handle on the same descriptor, or EBADF, or ENOMEM iff no handle is free |
| `FileTable.Files.Close` | TxFS_Mam/server/yaffsfs.c:1093-1121 | EBADF iff the handle has no object, otherwise one use fewer |
| `FileTable.Files.GetHandle` | TxFS_Mam/server/yaffsfs.c:322-337 | one use more of a handle in use |
| `FileTable.Files.BreakDeviceHandles` | TxFS_Mam/server/yaffsfs.c:370-391 | a forced break of the only device frees every handle, descriptor and inode slot |
| `FileTable.Files.GetInodeIdForObject` | TxFS_Mam/server/yaffsfs.c:204-231 | the slot that holds the object, else an empty one, counts one more |
| `FileTable.BreakOneStep` | TxFS_Mam/server/yaffsfs.c:376-390 | after n turns of the break the first n handles are free and the inode counts are still exact |
| `FileTable.BrokenFrees` | TxFS_Mam/server/yaffsfs.c:376-390 | when all handles have been broken nothing is in use |
| `FileTable.PutHandleUndoes` | TxFS_Mam/server/yaffsfs.c:1036-1041 | giving back a new handle restores everything in use |
| `ChunkedIO.OpenFile.Read` | TxFS_Mam/server/yaffsfs.c:1155-1272 | the bytes, count, position and error of a read are those of one transfer, clipped at the end of the file |
| `ChunkedIO.OpenFile.Write` | TxFS_Mam/server/yaffsfs.c:1287-1393 | likewise for a write: the bytes stored are the data, old ones outside the range stay, a gap reads as zeros, and the file grows to the end of what was stored at most |
| `ChunkedIO.BytesWritten` | TxFS_Mam/server/yaffsfs.c:1342-1359 | length and bytes of the file after a write that stored part of the data |
| `ChunkedIO.OpenFile.ReadPieces` | TxFS_Mam/server/yaffsfs.c:1225-1257 | the read loop makes exactly the calls of the specification and delivers the bytes they move |
| `ChunkedIO.OpenFile.WritePieces` | TxFS_Mam/server/yaffsfs.c:1342-1379 | the write loop likewise, with ENOSPC iff nothing was written |
| `ChunkedIO.OpenFile.Seek` | TxFS_Mam/server/yaffsfs.c:1480-1518 | the position stays within the largest file size, and errors leave it alone |
| `ChunkedIO.CallsAreConsecutive` | TxFS_Mam/server/yaffsfs.c:1225-1248 | the pieces follow each other, none is empty, none crosses an 8192-byte boundary |
| `ChunkedIO.CallsExact` | TxFS_Mam/server/yaffsfs.c:1225-1257 | each piece goes up to the next 8192-byte boundary or the end of the request; the loop goes on while pieces are moved in full and not after one that is not; what it moves is all before the last piece and what that moved |
| `ChunkedIO.FullMovesAll` | TxFS_Mam/server/yaffsfs.c:1225-1257 | if the lower layer moves whole pieces the loop moves the whole request |
| `ChunkedIO.MovedBounds` | TxFS_Mam/server/yaffsfs.c:1225-1257 | the loop never moves more than was asked for |
| `ChunkedIO.InBlockIsRemainder` | TxFS_Mam/server/yaffsfs.c:1226-1228 | the recursive position in the block is the remainder by the block size |
| `ChunkedIO.RangeCheckExact` | TxFS_Mam/server/yaffsfs.c:1495-1514 | the range test refuses exactly the positions outside the file |
| `DirectorySearch.Searches.ReadDir` | TxFS_Mam/server/yaffsfs.c:3071-3102 | returns a present child; at the end every child that stayed has been returned exactly once |
| `DirectorySearch.Searches.Remove` | TxFS_Mam/server/yaffsfs.c:2991-3013 | with the callback before the unlinking, every open pass survives the removal |
| `DirectorySearch.Searches.RemoveObjectCallback` | TxFS_Mam/server/yaffsfs.c:2991-3013 | moves on exactly the contexts that stand at the object |
| `DirectorySearch.Searches.Add` | TxFS_Mam/server/yaffsfs.c:2951-2988 | passes survive the addition of a child anywhere |
| `DirectorySearch.Searches.OpenDir` | TxFS_Mam/server/yaffsfs.c:3015-3069 | a new context begins a pass |
| `DirectorySearch.Searches.CloseDir` | TxFS_Mam/server/yaffsfs.c:3117-3132 | only the closed context leaves the list |
| `DirectorySearch.Searches.RewindDir` | TxFS_Mam/server/yaffsfs.c:3105-3114 | a rewound context begins a new pass |
| `DirectorySearch.PassSurvivesRemoval` | TxFS_Mam/server/yaffsfs.c:2991-3013 | a pass that has been moved on is a pass over the remaining children |
| `DirectorySearch.PassSurvivesAddition` | TxFS_Mam/server/yaffsfs.c:2969-2988 | a pass is a pass over the children with one more among them |
| `DirectorySearch.PassGoesOn` | TxFS_Mam/server/yaffsfs.c:3083-3097 | returning a child and advancing goes on with the pass |
| `RenameGuard.Tree.Rename` | TxFS_Mam/server/yaffsfs.c:1620-1676 | the object is renamed, in place of the one with the new name if the lower layer overwrites that, iff no check fails and the lower layer succeeds; each error iff its check is the first that fails; the tree stays a tree whatever happens |
| `RenameGuard.Tree.OneReason` | TxFS_Mam/server/yaffsfs.c:1634-1673 | a rename is allowed iff no error is due, and no two errors are due at once |
| `RenameGuard.Tree.NotBelow` | TxFS_Mam/server/yaffsfs.c:1660-1671 | the upward walk ends and allows the move iff the object is not the new directory or above it |
| `RenameGuard.MoveKeepsTree` | TxFS_Mam/server/yaffsfs.c:1653-1671 | an allowed move leaves every object connected to a root |
| `RenameGuard.MoveBelowCutsOff` | TxFS_Mam/server/yaffsfs.c:1653-1671 | a move the guard refuses would cut the object off: the guard is exact |
| `RenameGuard.WayUpUnique` | TxFS_Mam/server/yaffsfs.c:1662-1668 | there is one way up |
| `BackupWalk.Walk.OnlineBackup` | TxFS_Mam/server/backup_manager.c:309-428 | the walk ends, comes to every visible directory and regular file exactly once and to nothing else, and locks, copies, marks and releases each in this order before it goes on |
| `BackupWalk.EventsInFours` | TxFS_Mam/server/backup_manager.c:335-428 | the four events of each visit stand together, in this order |
| `BackupWalk.Walk.Visit` | TxFS_Mam/server/backup_manager.c:352-425 | one visit: lock, copy, mark, release, and for a directory its entries pushed |
| `BackupWalk.Walk.PushEntries` | TxFS_Mam/server/backup_manager.c:371-385 | the visible entries are pushed in order and fit into the stack |
| `BackupWalk.Walk.Push` | TxFS_Mam/server/backup_manager.c:64-72 | the path is on top of the stack |
| `BackupWalk.Walk.Pop` | TxFS_Mam/server/backup_manager.c:74-87 | the path on top comes off the stack |
| `BackupWalk.Walk.MarkAsRead` | TxFS_Mam/server/backup_manager.c:289-306 | the file's bit is flipped, no other |
| `BackupWalk.OrderCovers` | TxFS_Mam/server/backup_manager.c:335-428 | the order of the walk holds exactly the visible paths |
| `BackupWalk.OrderOnce` | TxFS_Mam/server/backup_manager.c:335-428 | and none of them twice |
| `BackupWalk.BackupFlipsAll` | TxFS_Mam/server/backup_manager.c:289-306 | without files of two visible names, the bits flipped are exactly those of the visible files |
| `BackupWalk.LinkedFileStaysUnread` | TxFS_Mam/server/backup_manager.c:289-306 | a backup of a directory with two names for one file leaves the bit of that file as it was |
| `BackupWalk.FlipsOddNames` | TxFS_Mam/server/backup_manager.c:289-306 | the bit of a file is flipped iff the number of its visible names is odd, for every tree |
| `BackupWalk.LinksCount` | TxFS_Mam/server/backup_manager.c:335-428 | an order without repetition comes to a file once for each of its names |
| `WaitEdges.DetectDeadlock` | TxFS_Mam/server/deadlock.c:275-322 | the transaction picked is deadlocked; one is picked iff the edges found form a cycle, which, if the holders of every file waited for are recorded in the right order, is iff there is a deadlock; says when the search runs over its array; with exclusive locks that is iff 50 or more transactions wait in a ring, and otherwise exactly the deadlocked transactions are listed |
| `WaitEdges.LongRings` | TxFS_Mam/server/deadlock.c:200-231 | with exclusive locks each node has one edge, and all cycles are short iff there is no ring of 50 |
| `Detection.Round` | TxFS_Mam/server/deadlock.c:275-322 | one round on the server: whoever is picked is in a ring of waits, is not the backup, and is woken by the machine's step `Victim`; with exclusive locks and fewer than 50 waiting, somebody is picked iff there is a ring of waits |
| `Detection.Detect` | TxFS_Mam/server/deadlock.c:275-301 | what the search lists, said of the server's transactions: only members of rings of waits, and with exclusive locks all of them unless the array runs over |
| `Detection.ReadHolders` | TxFS_Mam/server/deadlock.c:73-113 | following the lock list to the first record of the file, and from there the links of the group, gives the holders in the order of the list |
| `Detection.HoldersExact` | TxFS_Mam/server/deadlock.c:74-126 | the holders read are the owners of the records of the file |
| `Detection.HoldersShare` | TxFS_Mam/server/deadlock.c:106-119 | several holders all share the file |
| `Detection.HoldsIff` | TxFS_Mam/server/deadlock.c:86-126 | a transaction is among the holders read iff it has a lock of the file in the protocol machine |
| `Detection.ListsAreSound` | TxFS_Mam/server/deadlock.c:68-84 | what the detector relies on holds of the server's lists: every file waited for is locked, by one exclusive holder or by shared ones |
| `Detection.UnsignalledWaitForLocked` | TxFS_Mam/server/deadlock.c:74-79 | in every reachable state in which no sleeper has been signalled, whoever waits waits for a locked file |
| `Detection.DeadlocksAgree` | TxFS_Mam/server/deadlock.c:68-174 | the rings of waits among the lists are those of the protocol machine |
| `Detection.BackupInNone` | TxFS_Mam/server/backup_manager.c:343-352 | the backup is in no deadlock of a reachable state |
| `Detection.StuckInNone` | TxFS_Mam/server/deadlock.c:84-171 | a transaction that sleeps on its own lock is in no ring of waits |
| `Detection.StuckUnseen` | TxFS_Mam/server/deadlock.c:84-171 | nor is it on a cycle of the graph built of the server's lists |
| `DetectorRuns.MissedOnServer` | TxFS_Mam/server/deadlock.c:86-126 | by calls on a server just started two transactions come to be deadlocked, and a round of detection lists nothing |
| `DetectorRuns.OverrunOnServer` | TxFS_Mam/server/deadlock.c:200-231 | by calls on a server just started four transactions come to wait so that the search runs over its array |
| `DetectorRuns.Take` | TxFS_Mam/server/Lock_manager1.c:170-406 | a request that is granted puts the holder behind the others of the file and leaves all other holders and sleepers as they were |
| `DetectorRuns.Wait` | TxFS_Mam/server/Lock_manager1.c:276-526 | a request that goes to sleep leaves all holders as they were |
| `WaitEdges.Construct` | TxFS_Mam/server/deadlock.c:68-174 | the graph has exactly the edges the two scans find, in the order in which they are appended |
| `WaitEdges.EdgesOf` | TxFS_Mam/server/deadlock.c:84-171 | the edges of one waiting transaction, those to later ones first, each kind in the order of the holders |
| `WaitEdges.Scan` | TxFS_Mam/server/deadlock.c:86-126 | one scan goes on to the next holder only after finding the current one; appends the edges that this reaches, in the order of the holders |
| `WaitEdges.EdgeListFinds` | TxFS_Mam/server/deadlock.c:84-171 | there is an edge to a transaction iff the scans find it |
| `WaitEdges.GraphIsFound` | TxFS_Mam/server/deadlock.c:68-174 | the same for the whole graph |
| `WaitEdges.FoundAllIffWaitingFirst` | TxFS_Mam/server/deadlock.c:86-171 | the scans find every blocking transaction iff the holders that wait are recorded first, the later transactions before the earlier; one holder is always found |
| `WaitEdges.CyclesAreRings` | TxFS_Mam/server/deadlock.c:68-174 | cycles of the graph are rings of waits, and the other way round when the holders of every file waited for are recorded in the right order |
| `WaitEdges.Detected` | TxFS_Mam/server/deadlock.c:299-305 | a member of a list of cycle members is deadlocked; if the scans find everything, the list is empty iff nobody is |
| `WaitEdges.AllDetected` | TxFS_Mam/server/deadlock.c:299-305 | with exclusive locks the members of cycles are the deadlocked transactions |
| `DetectorLimits.DeadlockMissed` | TxFS_Mam/server/deadlock.c:86-126 | two deadlocked transactions for which the graph has no cycle |
| `DeadlockDetector.Detector.DetectCycles` | TxFS_Mam/server/deadlock.c:260-273 | meets exactly the back edges of the depth-first search, one iff the graph has a cycle; lists only members of cycles; a walk runs over its array iff there is a back edge whose walk does not come back in time; when each node has one edge that is iff there is a cycle of 50 nodes or more, and otherwise all members of cycles are listed |
| `DeadlockDetector.OverrunIffLong` | TxFS_Mam/server/deadlock.c:200-231 | when each node has one edge and the search has ended, it has run over its array iff some cycle has 50 nodes or more |
| `DeadlockDetector.ReturnsIffShort` | TxFS_Mam/server/deadlock.c:200-231 | when each node has one edge, the walk from a back edge goes round the cycle that the edge closes, and comes back in time iff that has fewer than 50 nodes |
| `DeadlockDetector.SmallGraph` | TxFS_Mam/server/deadlock.c:200-231 | fewer than 50 waiting transactions have no cycle of 50 |
| `DeadlockDetector.Detector.DfsVisit` | TxFS_Mam/server/deadlock.c:234-257 | a visit does to the colours and back edges what the search function says, finishes the node, and keeps the stack, order and list of the search sound |
| `DeadlockDetector.Detector.Cycle` | TxFS_Mam/server/deadlock.c:200-231 | comes back iff the first grey edges along the stack close in that way in fewer than 50 steps; lists exactly the nodes of the walk, all on cycles, and one cycle if it comes back |
| `DeadlockDetector.ClosesInTime` | TxFS_Mam/server/deadlock.c:200-231 | with fewer than 50 nodes on the stack a walk comes back before the array is full iff it comes back at all |
| `DeadlockDetector.FunctionalWalk` | TxFS_Mam/server/deadlock.c:200-231 | when each node has one edge every walk goes up the stack and from its top to the start |
| `DeadlockWalk.ReturnsIffCloses` | TxFS_Mam/server/deadlock.c:209-227 | the walk comes back to its start after some number of steps iff its hops close |
| `DeadlockWalk.ClosingWalk` | TxFS_Mam/server/deadlock.c:209-227 | where a walk that closes is after each number of steps |
| `DeadlockWalk.WalkReturns` | TxFS_Mam/server/deadlock.c:209-227 | it is back at its start after `Length` steps and at no earlier one |
| `DeadlockWalk.NeverReturns` | TxFS_Mam/server/deadlock.c:209-227 | a walk that does not close is never back at its start |
| `DeadlockWalk.BackEdgeSearched` | TxFS_Mam/server/deadlock.c:240-250 | at every back edge the first grey edge of each node of the stack leads at most one up the stack |
| `DeadlockWalk.EnterOrderly` | TxFS_Mam/server/deadlock.c:240-250 | entering a white node keeps what this rests on: the edges before the one taken lead down the stack or to finished nodes |
| `DetectorLimits.TrapGraph` | TxFS_Mam/server/deadlock.c:68-174 | four waiting transactions and the graph that is built of them |
| `DetectorLimits.TrapIsMet` | TxFS_Mam/server/deadlock.c:234-273 | the search of that graph meets a back edge from the last node of the stack to the third |
| `DetectorLimits.TrapNeverReturns` | TxFS_Mam/server/deadlock.c:200-231 | its walk never comes back to the third node |
| `DetectorLimits.DetectorOverruns` | TxFS_Mam/server/deadlock.c:275-301 | the detector, run on these transactions, runs over its array |
| `DeadlockDetector.WalkCloses` | TxFS_Mam/server/deadlock.c:210-227 | every grey node the walk comes to is on a cycle |
| `DeadlockDetector.FinishedCycles` | TxFS_Mam/server/deadlock.c:240-255 | finishing a node lists every cycle through it, when each node has one edge |
| `WaitForGraph.TopologicalIsAcyclic` | TxFS_Mam/server/deadlock.c:234-273 | if no grey node was met the finishing order rules out a cycle |
| `WaitForGraph.BackEdgeClosesCycle` | TxFS_Mam/server/deadlock.c:242-247 | a grey node at the end of an edge closes a cycle |

## Left out

- The sockets, argument marshalling, system-call interposition and trace scripts around the server.
- The superseded read and write overlay (`do_read_old`, `write_log`) and the pointer surgery inside the `delayed_*`
  functions; only the log offsets they seek to are modelled.
- The handshake in which a deadlock victim waits for the other sleepers to go back to sleep: `Protocol.Victim` is one
  step that leaves the other sleepers as they were. A broadcast or a new waiter in its middle can be absorbed by it.
  The detector thread is not started either: any sleeper may be picked at any time.
- Path resolution, symbolic links, `yaffsfs_FindDevice`: what the paths resolve to is a parameter.
- A forced unmount with several devices; create, unlink and rename while a backup runs.
- The live-transaction list as a linked list: the machine and `LockServer` keep it as a map, so its order does not
  appear, except in `WaitEdges`, where waiting transactions stand in a sequence.
- The record chain of a transaction as pointers: it is a sequence of references to the records of the linked list.
- Atomicity: setting `BACKUP`, logging and the list update at the start and end of a backup count as one step, and so
  does the release of all locks of one transaction, which holds `file_mutex` throughout.
- Truncation on open (`O_TRUNC`), which the lower layer does after the descriptor is set up.
- Closing and flushing the file of a released lock: its effect is that the private writes reach the disk at commit.
- Paths longer than 299 bytes and walks that would need more than 199 stack slots.
- WaitEdges.Construct: requires that every waiting transaction waits for a locked file, because the code follows a null
  pointer otherwise. `Detection.UnsignalledWaitForLocked` gives this when no sleeper has been signalled; a signalled
  one may be in state WAITING after its file has been released.
- Detection.Round: reading the lists and waking the transaction picked are one step; in the code `file_mutex` is free
  between them. The waiting transactions are a parameter, required to be those of the server in the order of their
  ids, which is that of the live-transaction list.
- Files of two visible names in the protocol machine, which marks every file on the walk once: `BackupWalk` says what
  becomes of their bits.
- DeadlockDetector.Detector.Cycle: is cut off where the array of 50 nodes would overflow and says so (`closed`); what
  happens then, and the overflow of the array that collects all members, is not modelled.
- ChunkedIO.OpenFile.ReadPieces: does not give up the lock and verify the handle again between pieces; nor does
  `WritePieces`.
- WaitList.WaitList.Insert: the wait list is a sequence of nodes, so the linking and unlinking by pointers is not
  covered; nor is it in `Leave`.
- LockServer.Server.GrantShared: never for the backup, which asks for exclusive locks only.
- BackupWalk.Walk.OnlineBackup: copies are events; their contents are part of the protocol machine.
- FileTable.Files.BreakDeviceHandles: one device only, because with several the code clears handles of all of them but
  descriptors of one.
- ChunkedIO.OpenFile.Read: the lower layer's transfer is a parameter that moves at most what is asked for.
