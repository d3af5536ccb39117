# ActionDB: proofs about its storage engine and its connection index

ActionDB is a small server over a vendored RocksDB 3.9. This project models the parts of it whose correctness
is hardest to see from the code, and proves what they are for. Each component stands in its own modules.

**Compaction** (`DbFormat`, `Compaction`, `CompactionReads`, `CompactionView`, `CompactionJob`). A compaction rewrites a
sorted run of versions, drops hidden versions and obsolete tombstones and zeroes sequence numbers. The survivors are
stated by a rule on an entry and its predecessor; the rule is proved to keep every read of every live reader, of one
that asks run after run as of one that merges all runs, and the loop with its cursors, snapshots and output files is
proved to compute the rule.

**Iterators** (`VisibleMap`, `DbIter`, `DbCursor`). The visible map at a sequence number is defined on its own, with
merge operands folded oldest first. `DBIter`, with its direction switches, reseeks and two ways of finding a value, is
proved to be a cursor over that map: any list of commands reads what an index into the sorted list of visible pairs
reads.

**Memtable lookups** (`MemTables`). A lookup through a stack of memtables with one shared merge context is one lookup in
a single table of all their entries, and agrees with the iterator.

**Connection index** (`RbSpec`, `RbTree`, `RbInsert`, `RbErase`, `RbRemove`, `Conn`). The red-black tree with parent
pointers is a heap of records changed in place. A zipper (the marked subtree and the path above it) says what the heap
spells, so each rebalancing turn is proved as a step on trees.

**Log files** (`LogFormat`, `LogWriter`, `LogSizes`, `LogReader`, `LogTail`). The writer's block layout, its bytes and
sizes in numbers, the reader on any truncation of it, and a reader that follows a growing file.

**Write path and recovery** (`Wal`, `WalInvariant`, `WalCommit`, `WalRuns`, `WalLoss`, `WalAsserts`, `WalLogs`,
`WalLower`, `WalProgress`, `WalRecovery`). Logging, memtable switches, flush jobs, commits, log deletion, crashes and
recovery as one step system over column families. The manifest record and the change in memory of a commit are separate
steps, and a crash may fall anywhere, also inside recovery.

**SuperVersion cache** (`SuperVersions`, `SuperVersionEnd`). The thread-local cache as interleaved atomic steps: swap,
compare, unref, lock, compare-and-swap, and an install that assigns the pointer, increments the number, numbers the new
object and scrapes the slots one by one.

**File deletion** (`Purge`, `PurgeTrace`), **manual compactions** (`Manual`), **universal picking** (`Universal`),
**completing a CompactFiles request** (`Sanitize`), **search hints between levels** (`FileIndexer`, `FileSearch`).

Step systems have the same form: `Enabled` says when the schedule may take a step, `Apply` what it does, and the main
lemmas speak of every finite run from an initial state: what always holds, what the steps alone say about the state, and
what can still be brought to an end from wherever it is. Where the code asserts something, the assertion is not assumed:
it is proved of every reachable state (`Asserted` in `SuperVersions` and `Manual`), or, where it can fail, the exact
condition is given with a schedule or an input on which it does (`WalAsserts.EditsRiseIff`, `FileSearch.HintsMeetIff`).

## Where the code does not meet what is expected of it

* **Prev from a merged value.** When the cursor moves forward, a folded merge leaves the inner iterator past the key,
  and `Prev` then need not go back. `DbIter.DBIter.Prev` states exactly when it moves to the greatest visible smaller
  key, and `DbIter.PrevAfterMerge` is a store on which it does not. `DbCursor.Run` covers every run of commands, with
  `Prev` on the stores whose folds stay on their key, among them all without merge entries; `DbCursor.Unfaithful` shows
  that on any other store two commands read something else.
* **Flushes after a failed flush.** `PickMemtablesToFlush` takes every memtable not in progress. After a rolled back
  flush these may lie around other memtables still being written; the edit then carries a log number past those, and a
  crash before their own commits loses their batches. `WalLoss.RunIsSafeIff` speaks of every run, whatever its flushes
  pick: a crash anywhere in it loses nothing if and only if none of its commits steps over a memtable with batches that
  the manifest has not. `WalLoss.CommitIsSafeIff` is the same for one commit, checkable before it, and
  `WalLoss.RollbackLosesABatch` a schedule that loses a batch. It cannot happen if flushes pick adjacent memtables
  (`WalLoss.AdjacentRecoversAll`), so not without rolled back flushes (`WalLoss.NoRollbackRecoversAll`).
* **An edit that lowers a log number.** `LogAndApply` asserts that an edit's log number is not below the family's. After
  a rolled back flush a commit may step over an empty memtable still being flushed. It loses nothing, but the later
  commit of that memtable carries a lower number (`WalLower.SkippedFlushLowersALog`). Over every run, whatever it picks
  and commits, the assertions hold throughout if and only if no commit comes when a memtable in the manifest has a next
  log number above that of the last one of its batch (`WalAsserts.EditsRiseIff`). Where the number is lowered, a log is
  held although everything in it is committed (`WalLower.SkippedFlushHoldsALog`); otherwise it may go
  (`WalLogs.OlderLogsGo`), and `WalLogs.CommitFreesIff` says for each commit what it frees.
* **Files of a flush that is finished and not committed.** A flush whose older neighbour is still being written returns
  without committing and gives up its place in `pending_outputs_`. If the older one then fails, the full scan that
  follows removes the finished file, which a later commit installs (`Purge.FailedFlushRemovesAFile`). In every run
  whatever, no file of a job still running is removed (`Purge.RunningJobsKeepTheirFiles`), and a live or wanted file can
  be removed exactly if some scan looked at it while it was wanted and every running job had begun after it was numbered
  (`Purge.RemovableIffExposed`). `Purge.RunIsSafeIff` gives the exact condition on the calls: each returns with its
  files installed, given up, or left to an older job still running.
* **The SuperVersion returned is the one published by number.** Between assigning `super_version_` and incrementing
  `super_version_number_` a whole call can return the old object (`SuperVersions.InstallWindow`, reached from the start
  by `SuperVersions.WindowIsReached`). `SuperVersions.ReturnsInstalledIff` states when what a call returns was
  `super_version_` at some instant of it: always, unless its two steps fall between those two assignments of one
  install.
* **Search hints with shared user keys.** Neighbouring files of a level may share a user key. The two-pointer loops
  advance both sides on a match, so that a key repeated among the upper bounds gets a wrong index if it occurs in the
  lower level. `FileIndexer.Indexer.UpdateIndex` states that the index is exact if and only if this does not occur. Not
  every wrong bound does harm: `FileSearch.FilePicker.Search` states which files a search for a key misses,
  `FileSearch.CompleteIff` that it misses none, whatever the sequence number, if and only if no hint for the key loses a
  file, and `FileSearch.SharedKeyIsMissed` is an input on which a file that may hold the key is missed. The bounds may
  also cross, against an assertion of the code (`FileSearch.HintsCross`): exactly if the file starts with the key and
  the files before it that do so, counted up to the next level's files that end with the key, and those after it,
  counted up to the files there that start with it, together outnumber the files there that hold it
  (`FileSearch.HintsMeetIff`).
* **freeConns with a duplicate descriptor.** `newConn` counts a descriptor that is already indexed, and `freeConns` then
  reads a null root. `Conn.ConnTree.FreeConns` states exactly when, and `Conn.DuplicateDescriptor` is an input.
* **The key comparison of the red-black tree** subtracts. `RbTree.DiffOrders` states for which 32-bit keys that orders
  them; descriptors are such keys.
* **The commit loop** compares the following memtables' file numbers with that of the committing thread, not of the
  batch being committed (rocksdb-3.9/db/memtable_list.cc:236-237). The model keeps this; leftovers of another thread's
  batch are committed by an empty edit (`WalCommit.LeftOver`), and `WalCommit.InstallDrops` shows the loop removes no
  memtable whose table is not in the manifest. Recovering the manifest ignores a log number that is not higher
  (rocksdb-3.9/db/version_set.cc:2014-2021), and so does the model of what is on disk.

## Hypotheses

* Compaction: snapshots are non-zero and ascending; LastSequence is positive and below the maximum; inputs are committed
  puts and deletions; data older than the inputs lies beyond the output level only (`CleanCut`). The size of an output
  file is a function of its entries, given as a parameter.
* Iterators: all keys parse; `max_skip_` is at least 1; the merge operator is a total function.
* Memtables: sequence numbers are given out in rising order starting at 1, so all of a newer memtable's are larger.
* Logs: a record once appended is on disk. The step of CRC-32C is a parameter; masking and the fold are modelled.
* Write path: batches are logged (no `disableWAL`), I/O other than writing a table succeeds, the set of column families
  is fixed. A memtable may be switched at any time: that the family has data is checked before the writer waits its
  turn, so it need not hold any more when the switch happens. The schedules with a failed flush need `paranoid_checks`
  off: with it on, as it is by default, the failure sets a background error (rocksdb-3.9/db/db_impl.cc:1091-1097), and
  only a background flush that had passed the check for it (1735-1737) before the failure still picks memtables, in its
  loop over them (1750-1759).
* Universal picking: the trigger is at least 1; level 0 has no file size limit
  (rocksdb-3.9/util/mutable_cf_options.cc:43-44), so a compaction leaves at most one output.
* FileIndexer and Sanitize: below level 0 files are in internal key order and neighbours may share a user key.

User keys are elements of a total order (`int`). Reference counts and file numbers are unbounded.

## Model

| member | source | states |
|---|---|---|
| `DbFormat.PackOrders` | rocksdb-3.9/db/dbformat.cc:18-22 | packing sequence number and type loses nothing and orders by sequence number, then type |
| `DbFormat.PackFields` | rocksdb-3.9/db/dbformat.cc:18-22 | a packed number has the type's code 0, 1 or 2 in its low byte and the sequence number above; it fits 64 bits exactly for sequence numbers of 56 |
| `CompactionReads.CompactionPreservesReads` | rocksdb-3.9/db/compaction_job.cc:531-818 | with any newer runs above and any clean-cut runs below, every key reads the same before and after compaction at every live snapshot and every sequence number at or above LastSequence |
| `CompactionView.CompactionPreservesView` | rocksdb-3.9/db/compaction_job.cc:531-818 | merging all runs by internal key, as an iterator does: with any newer entries above and clean-cut older ones below, of any kind, every key has the same visible value before and after at every live sequence number |
| `CompactionView.LookupsAgree` | rocksdb-3.9/db/version_set.cc:118-290 | on sorted runs of puts and tombstones, newest first, asking one run after the other gives the value that the merge of all runs shows |
| `CompactionView.WrittenIs` | rocksdb-3.9/db/compaction_job.cc:742-751 | an entry's sequence number becomes 0 exactly if the level is the bottommost and every live reader is past it; otherwise it is written as it is |
| `CompactionView.SurvivorIsWritten` | rocksdb-3.9/db/compaction_job.cc:736-778 | every surviving entry is written, in input order, in that form |
| `CompactionReads.HiddenIffUnseen` | rocksdb-3.9/db/compaction_job.cc:638-658 | rule (A) drops exactly the versions that no live reader can see |
| `Compaction.EarliestVisibleIsLeast` | rocksdb-3.9/db/compaction_job.cc:996-1017 | the snapshot a version belongs to is the least one that sees it |
| `Compaction.OutputOrigin` | rocksdb-3.9/db/compaction_job.cc:736-778 | every entry written is the written form of a surviving input entry |
| `Compaction.OutputSorted` | rocksdb-3.9/db/compaction_job.cc:736-811 | the output is strictly increasing in internal-key order, zeroed sequence numbers included |
| `CompactionReads.ZeroedVersions` | rocksdb-3.9/db/compaction_job.cc:742-751 | of each user key at most one version is zeroed, it is the last one written, and it is never a tombstone |
| `CompactionJob.FindEarliestVisibleSnapshot` | rocksdb-3.9/db/compaction_job.cc:996-1017 | the loop returns the least snapshot that sees the sequence number, and the greatest one below it |
| `CompactionJob.Cursors.KeyNotExistsBeyondOutputLevel` | rocksdb-3.9/db/compaction.cc:154-180 | for keys asked in nondecreasing order the moving cursors answer as a scan of every file beyond the output level |
| `CompactionJob.Cursors.AdvanceLevel` | rocksdb-3.9/db/compaction.cc:162-178 | one level's cursor stops at the first file not below the key, and the answer is whether that level covers it |
| `CompactionJob.Cursors.ShouldStopBefore` | rocksdb-3.9/db/compaction.cc:182-206 | the cut is made exactly when the grandparent bytes passed since the last cut exceed the limit, and the count restarts |
| `CompactionJob.Job.CutBefore` | rocksdb-3.9/db/compaction_job.cc:579-585 | the open file is closed before an entry exactly if the grandparents that end between the last stop and it are too large |
| `CompactionJob.StopIs` | rocksdb-3.9/db/compaction.cc:182-206 | the moving cursor and its running count say for each entry whether the grandparents passed since the last stop exceed the limit |
| `CompactionJob.Job.VisibleFor` | rocksdb-3.9/db/compaction_job.cc:640-648 | an entry's snapshot is the tip without snapshots and the earliest that sees it otherwise |
| `CompactionJob.Job.Drops` | rocksdb-3.9/db/compaction_job.cc:650-671 | an entry is dropped exactly when it is hidden or an obsolete tombstone; the cursors keep their order |
| `CompactionJob.Job.Add` | rocksdb-3.9/db/compaction_job.cc:757-787 | the entry is appended to the output; its file keeps exact key and sequence number bounds and is closed exactly when full |
| `CompactionJob.Job.ProcessEntry` | rocksdb-3.9/db/compaction_job.cc:531-811 | one turn extends the output by exactly what the rule keeps of the entry, into the open file or a new one as the stops and sizes say |
| `CompactionJob.Job.ProcessKeyValueCompaction` | rocksdb-3.9/db/compaction_job.cc:499-818 | the files written hold, in order, exactly the surviving entries; contents are sorted within and across files, each file's bounds enclose its contents, and a new file begins exactly after a full one or at a stop |
| `CompactionJob.FilesSeparated` | rocksdb-3.9/db/compaction_job.cc:766-778 | sorted contents cut into files: each recorded range encloses its file and ranges do not touch |
| `VisibleMap.ListingIsVisibleMap` | rocksdb-3.9/db/db_iter.cc:174-338 | the listing that scans are compared with is the visible map: ascending keys, exactly the visible ones, with their values |
| `VisibleMap.MergedValue` | rocksdb-3.9/db/db_iter.cc:280-338 | operands m1 to mn, oldest first, over a put of v show op(k, v, [m1..mn]); over a tombstone or the end of the key op(k, none, [m1..mn]); no operands show the put |
| `DbIter.DBIter.SeekToFirst` | rocksdb-3.9/db/db_iter.cc:604-623 | the cursor stands on the least visible key, or is invalid when there is none |
| `DbIter.DBIter.SeekToLast` | rocksdb-3.9/db/db_iter.cc:625-640 | the cursor stands on the greatest visible key, or is invalid when there is none |
| `DbIter.DBIter.Seek` | rocksdb-3.9/db/db_iter.cc:569-602 | the cursor stands on the least visible key at or after the target |
| `DbIter.DBIter.Next` | rocksdb-3.9/db/db_iter.cc:174-191 | from either direction the cursor moves to the least visible key above the current one |
| `DbIter.DBIter.Prev` | rocksdb-3.9/db/db_iter.cc:340-347 | the cursor moves to the greatest visible key below exactly when it was steady, or folded at the end of the store with nothing visible below; otherwise it does not get below the current key, or becomes invalid |
| `DbIter.PrevAfterMerge` | rocksdb-3.9/db/db_iter.cc:274-279 | a store on which Prev from a merged value does not reach the visible smaller key |
| `DbIter.DBIter.FindNextUserEntry` | rocksdb-3.9/db/db_iter.cc:207-272 | skipping, reseeking and folding lead to the first visible key of the range; a value counts as merged only if the key's newest visible version is a merge operand, and the inner iterator is then exactly where the fold left off |
| `DbIter.DBIter.MergeValuesNewToOld` | rocksdb-3.9/db/db_iter.cc:280-338 | the folded value is FullMerge of the base with the operands oldest first, and the iterator is past the key's entries that were used |
| `DbIter.DBIter.PrevInternal` | rocksdb-3.9/db/db_iter.cc:349-382 | the last visible key of the range is found; from a stray position the cursor cannot get below its key |
| `DbIter.DBIter.FindValueForCurrentKey` | rocksdb-3.9/db/db_iter.cc:386-457 | scanning a key from its oldest entry finds its visible value, and finds one exactly when the key is visible |
| `DbIter.DBIter.FindValueForCurrentKeyUsingSeek` | rocksdb-3.9/db/db_iter.cc:461-514 | seeking to the newest visible version gives the same answer as the scan: the visible value |
| `DbIter.DBIter.FindNextUserKey` | rocksdb-3.9/db/db_iter.cc:520-531 | the inner iterator is moved from just before the saved key onto its first entry; off the front of the store it stays there |
| `DbIter.DBIter.FindPrevUserKey` | rocksdb-3.9/db/db_iter.cc:534-556 | the inner iterator leaves the saved key's entries towards the front, with or without a reseek |
| `DbIter.DBIter.ScanForward` | rocksdb-3.9/db/db_iter.cc:174-338 | SeekToFirst and Next until invalid give the visible map in order |
| `DbIter.DBIter.ScanBackward` | rocksdb-3.9/db/db_iter.cc:340-514 | SeekToLast and Prev until invalid give the same list in the opposite order |
| `DbCursor.Run` | rocksdb-3.9/db/db_iter.cc:174-640 | any list of SeekToFirst, SeekToLast, Seek, Next and Prev, Next and Prev only while valid, reads after each command what a cursor over the sorted list of visible pairs reads; with Prev among them, on stores whose folds stay on their key |
| `DbCursor.Perform` | rocksdb-3.9/db/db_iter.cc:174-640 | one command takes the iterator where the reference cursor goes, across every change of direction |
| `DbCursor.WithoutMerges` | rocksdb-3.9/db/db_iter.cc:274-279 | on a store without merge entries every fold stays, and every valid cursor is steady |
| `DbCursor.Unfaithful` | rocksdb-3.9/db/db_iter.cc:274-347 | the condition is exact: on any other store the two commands Seek and Prev read something else than the cursor over the visible map |
| `MemTables.StackIsOneTable` | rocksdb-3.9/db/db_impl.cc:2319-2339 | for tables newest first, the stacked lookup finds the same value, deletion or pending operands as one lookup in any sorted table of all their entries |
| `MemTables.AnswerIsVisible` | rocksdb-3.9/db/memtable.cc:348-436 | a resolved lookup is the visible map's value of the key |
| `MemTables.StackedDecides` | rocksdb-3.9/db/memtable_list.cc:69-77 | the stacked lookup is decided by the visible versions of the key alone, newest first |
| `MemTables.LookupDecides` | rocksdb-3.9/db/memtable.cc:644-651 | the scan from the seek position meets exactly the visible versions of the key |
| `MemTables.LookupChain` | rocksdb-3.9/db/memtable.cc:348-436 | a lookup and the iterator's view of a key agree on base and operands |
| `MemTables.Reader.SaveValue` | rocksdb-3.9/db/memtable.cc:348-436 | one entry either decides the lookup, with the operands so far folded in, or adds the oldest operand, or ends the scan |
| `MemTables.MemTable.Add` | rocksdb-3.9/db/memtable.cc:287-327 | the entry joins in order and nothing else changes; the first sequence number is zero exactly while the table is empty |
| `MemTables.MemTable.Get` | rocksdb-3.9/db/memtable.cc:438-477 | the lookup so far is continued by this table's entries; the status says merge in progress exactly while operands are pending |
| `MemTables.Get` | rocksdb-3.9/db/db_impl.cc:2319-2339 | the active memtable and then the immutable ones give the stacked lookup |
| `MemTables.GetThenSeek` | rocksdb-3.9/db/db_impl.cc:2319-2339 | a get holds the stacked lookup of the key; when it resolves it, an iterator over all their entries that seeks to the key shows the same value, or is not on it when it is deleted |
| `RbTree.RbTree.RotateLeft` | net/rbtree.c:14-33 | the heap spells the same tree with the marked node rotated left, parent links included |
| `RbTree.RbTree.RotateRight` | net/rbtree.c:35-54 | the heap spells the same tree with the marked node rotated right, parent links included |
| `RbTree.DiffOrders` | net/rbtree.c:112 | on 32-bit keys the subtraction orders correctly exactly when it does not wrap, and never wraps on descriptors |
| `RbInsert.SearchAuxiliary` | net/rbtree.c:106-128 | the search stands at the key's node, or at the empty place and parent where it belongs, with smaller keys before and larger after |
| `RbInsert.InsertRebalance` | net/rbtree.c:56-104 | from one red-red violation the loop restores a valid red-black tree with the same items in order |
| `RbInsert.Insert` | net/rbtree.c:141-164 | the tree stays valid and its contents are the old map with the key added if absent; a present key changes nothing |
| `RbInsert.Search` | net/rbtree.c:166-168 | a node is found exactly when the key is in the map, with its data |
| `RbErase.EraseRebalance` | net/rbtree.c:170-247 | from one short path the loop restores a valid red-black tree with the same items in order |
| `RbRemove.Erase` | net/rbtree.c:249-334 | the tree stays valid and its contents are the old map without the key; an absent key changes nothing |
| `RbRemove.RemoveTwo` | net/rbtree.c:257-303 | a node with two children is replaced by its successor; the items lose exactly the erased one and the shortage, if any, is where rebalancing starts |
| `RbRemove.RemoveOne` | net/rbtree.c:304-327 | a node with at most one child is unlinked; the items lose exactly the erased one |
| `RbSpec.HeightBound` | net/rbtree.c:56-334 | the height of a red-black tree of n nodes is at most 2*log2(n+1) |
| `RbSpec.ItemsSize` | net/rbtree.c:56-334 | the items of a tree are as many as its nodes, so the bound speaks of the number of keys |
| `Conn.ConnTree.NewConn` | net/conn.c:51-74 | a new conn is live, indexed if its descriptor is new; the counter grows in any case |
| `Conn.ConnTree.FreeConn` | net/conn.c:76-100 | exactly the descriptor leaves the index, the counter falls with it, and -1 is returned exactly when the index empties before the counter; its conn is freed, and no other, except then |
| `Conn.ConnTree.FreeConns` | net/conn.c:101-106 | the index ends empty, and the null root is read exactly when the counter exceeds the number of indexed connections |
| `Conn.DuplicateDescriptor` | net/conn.c:51-74 | one descriptor registered twice makes freeConns read the null root |
| `LogSizes.ChecksumBytes` | rocksdb-3.9/util/crc32c.h:17-25 | checksums start from all ones, end complemented and extend byte by byte |
| `LogSizes.MaskBits` | rocksdb-3.9/util/crc32c.h:27-37 | masking puts the low 15 bits above the high 17 and adds 2726488792 modulo 2^32 |
| `LogSizes.MaskValues` | rocksdb-3.9/util/crc32c.h:27-37 | masks of single words, in numbers |
| `LogSizes.HeaderBytes` | rocksdb-3.9/db/log_writer.cc:80-105 | of any fragment: bytes 0 to 3 are the masked checksum of type and payload, 4 and 5 the length, low byte first, 6 the type 1 to 4, then the payload |
| `LogSizes.FirstRecord` | rocksdb-3.9/db/log_writer.cc:32-78 | a record of n bytes in an empty log makes a file of n bytes and 7 for each started 32761, so n + 7 exactly if n <= 32761; a longer one fills bytes 0 to 32767 and goes on with a header at byte 32768 |
| `LogSizes.AddedRecord` | rocksdb-3.9/db/log_writer.cc:41-77 | a record added to any log of m bytes: zeros for the last 32768 - m mod 32768 bytes if those are fewer than 7, then as much of it as fits into the block of 32768, whole or first, and the rest from the next multiple of 32768 |
| `LogFormat.ExtendValue` | rocksdb-3.9/util/crc32c.h:18-25 | extending the checksum of a by b is the checksum of a followed by b |
| `LogFormat.UnmaskMask` | rocksdb-3.9/util/crc32c.h:34-43 | unmasking undoes masking on every 32-bit word |
| `LogFormat.DecodeEncode32` | rocksdb-3.9/util/coding.h:74-83 | decoding undoes the little-endian encoding on every 32-bit word |
| `LogFormat.ImageParses` | rocksdb-3.9/db/log_writer.cc:80-105 | kind, length and payload can be read off a physical record, and its checksum agrees |
| `LogWriter.Writer.AddRecord` | rocksdb-3.9/db/log_writer.cc:32-78 | the file becomes the log of the old records and this one, empty records included |
| `LogWriter.Writer.AddFragment` | rocksdb-3.9/db/log_writer.cc:41-77 | one turn writes the trailer when the header does not fit, then as much as the block takes |
| `LogWriter.Writer.EmitPhysicalRecord` | rocksdb-3.9/db/log_writer.cc:80-105 | exactly the record's image is appended and the block offset follows |
| `LogReader.Reader.ReadRecord` | rocksdb-3.9/db/log_reader.cc:65-170 | on a prefix of a log the next record is returned exactly when its last fragment is present, and no corruption is reported |
| `LogReader.Reader.ReadPhysicalRecord` | rocksdb-3.9/db/log_reader.cc:250-335 | the next fragment is returned exactly when it is entirely present, across trailers and blocks; otherwise EOF without a report |
| `LogReader.Reader.ParseRecord` | rocksdb-3.9/db/log_reader.cc:278-335 | on any bytes, kind, payload, what stays buffered and the number of reports are those of the format |
| `LogReader.DeliversChecked` | rocksdb-3.9/db/log_reader.cc:278-335 | from any bytes, what is delivered is exactly the payload the header announces with its checksum agreeing; otherwise the rest of the buffer is dropped |
| `LogReader.DamageIsReported` | rocksdb-3.9/db/log_reader.cc:300-318 | damage to the type or payload of a written fragment that changes its checksum is reported, and nothing of the buffer is delivered |
| `LogReader.Reader.Refill` | rocksdb-3.9/db/log_reader.cc:250-268 | a trailer is skipped and the next block read without losing the position in the layout |
| `LogReader.Reader.UnmarkEOF` | rocksdb-3.9/db/log_reader.cc:176-237 | the rest of a partly read block is read in place, and everything written so far comes before the limit |
| `LogTail.RecoverTruncated` | rocksdb-3.9/db/log_reader.cc:65-170 | of any records and any byte-level truncation, the reader returns exactly the records entirely present, in order, with no corruption reported |
| `LogTail.SurvivesIffPresent` | rocksdb-3.9/db/log_reader.cc:65-170 | a record counts as present exactly when the log up to and including it fits |
| `LogTail.Tail.Append` | rocksdb-3.9/db/log_writer.cc:32-78 | a whole record appended while a reader follows the file becomes pending behind the others |
| `LogTail.Tail.Read` | rocksdb-3.9/db/log_reader.cc:65-170 | a read delivers the oldest pending record within reach, or changes nothing |
| `LogTail.Tail.Unmark` | rocksdb-3.9/db/log_reader.cc:176-237 | after UnmarkEOF every pending record is within reach |
| `LogTail.Tail.CatchUp` | rocksdb-3.9/db/log_reader.cc:176-237 | UnmarkEOF and reading to EOF deliver every record written, each once and in order, wherever the reader had stopped |
| `WalRuns.CrashRecoversAll` | rocksdb-3.9/db/db_impl.cc:3022-3094 | in every run whose commits step over no memtable with batches, wherever it stops, the tables in the manifest followed by what the surviving logs replay are every batch of the family ever logged, each once and in order |
| `WalRuns.ReplaysUnflushed` | rocksdb-3.9/db/db_impl.cc:3069-3088 | while running, what a family's logs at or above its persisted number would replay is exactly its unflushed batches in memtable order |
| `WalRuns.RecoveryCompletes` | rocksdb-3.9/db/db_impl.cc:941-988 | a family whose recovery edit is written has everything in its tables and nothing left to replay |
| `WalAsserts.EditsRiseIff` | rocksdb-3.9/db/version_set.cc:1834-1837 | over every run, whatever it picks and commits, no edit lowers a family's log number when it is written or applied, and none reaches next_file_number_, if and only if no commit comes when a memtable in the manifest has a next log number above that of the last one of its batch |
| `WalAsserts.StepAssertedIff` | rocksdb-3.9/db/version_set.cc:1772-1775 | at any step of a run in which no number was lowered so far, the assertions hold exactly under that condition, checkable before the commit |
| `WalAsserts.EditsRise` | rocksdb-3.9/db/version_set.cc:1834-1837 | in every run, also after a number was lowered, no edit reaches next_file_number_, and a commit under that condition lowers nothing |
| `WalLower.SkippedFlushLowersALog` | rocksdb-3.9/db/version_set.cc:1834-1837 | a schedule whose commits step over no batches, so that everything stays recoverable, and in which an edit lowers the log number |
| `WalLower.SkippedFlushHoldsALog` | rocksdb-3.9/db/db_impl.cc:412-446 | that schedule continued until everything is committed: a log older than the one in use may not be deleted |
| `WalRuns.StepKeeps` | rocksdb-3.9/db/db_impl.cc:2867-3094 | every step keeps the agreement of memory, manifest, logs and history, a commit if it steps over no memtable with batches |
| `WalRuns.KeepsWrite` | rocksdb-3.9/db/db_impl.cc:2902-2911 | a batch logged and not yet inserted is already replayable for exactly the families it updates |
| `WalRuns.KeepsInsert` | rocksdb-3.9/db/db_impl.cc:2925-2927 | inserting the logged batch moves it from the writer's hands to the memtables |
| `WalRuns.KeepsMakeLog` | rocksdb-3.9/db/db_impl.cc:3033-3048 | creating a log file changes no replay, also when a crash leaves it empty |
| `WalRuns.KeepsSwitch` | rocksdb-3.9/db/db_impl.cc:3069-3090 | switching a memtable, to a new log or to the empty current one, keeps the agreement for every family |
| `WalRuns.BumpAgrees` | rocksdb-3.9/db/db_impl.cc:3076-3085 | advancing the log number of an empty family in memory only skips no record of it |
| `WalLogs.SwitchMoves` | rocksdb-3.9/db/db_impl.cc:3069-3090 | a switch that made a log gives exactly the families with neither memtable data nor immutable memtables the new number; the others keep theirs, and the memtable switched out carries the new one |
| `WalLogs.OlderLogsGo` | rocksdb-3.9/db/db_impl.cc:3076-3085 | over runs: if only one family has data at such a switch, then once the memtables it has after it are committed, in turn, whatever happened meanwhile, every older log may be deleted |
| `WalLogs.CommitFreesIff` | rocksdb-3.9/db/memtable_list.cc:193-241 | in every run, a commit leaves its family without need of logs below a number if and only if a memtable of its batch was switched out with that number or a later one |
| `WalRuns.KeepsPick` | rocksdb-3.9/db/flush_job.cc:76-96 | whatever lies between the memtables picked, the first gets the edit that describes them all |
| `WalRuns.KeepsRollback` | rocksdb-3.9/db/memtable_list.cc:146-162 | a failed flush puts its memtables back without loss |
| `WalRuns.KeepsFinish` | rocksdb-3.9/db/memtable_list.cc:165-188 | finishing a flush starts a commit exactly when the oldest memtable is flushed and nobody is committing |
| `WalRuns.KeepsCommitWrite` | rocksdb-3.9/db/memtable_list.cc:193-207 | the manifest record of a commit that steps over nothing takes exactly its batches out of the replay |
| `WalCommit.RecordIsSafeIff` | rocksdb-3.9/db/memtable_list.cc:193-207 | the manifest record of the oldest memtable's batch, at whatever positions its memtables are, leaves the family recoverable if and only if no memtable with batches that the manifest has not lies before its last one |
| `WalRuns.KeepsCommitInstall` | rocksdb-3.9/db/memtable_list.cc:209-241 | removing committed memtables and setting the log number in memory keeps the agreement |
| `WalCommit.InstallDrops` | rocksdb-3.9/db/memtable_list.cc:214-237 | the removal loop takes a prefix of memtables that are all in the manifest, and what it leaves of the committing thread's is there too |
| `WalCommit.LeftOver` | rocksdb-3.9/db/memtable_list.cc:195-237 | a memtable left over from another thread's batch is already in the manifest and its edit is empty |
| `WalCommit.FirstBatch` | rocksdb-3.9/db/flush_job.cc:87-96 | the oldest memtable's edit carries the last log number and the contents of exactly its batch |
| `WalRuns.KeepsDelete` | rocksdb-3.9/db/db_impl.cc:1080-1090 | deleting a log below every family's number changes no replay, also where that number is not persisted |
| `WalRuns.KeepsRestart` | rocksdb-3.9/db/db_impl.cc:760-800 | recovery reads every log it needs, and new file numbers exceed every log on disk |
| `WalRuns.KeepsRecover` | rocksdb-3.9/db/db_impl.cc:941-988 | writing one family's recovery edit keeps every other family recoverable, so recovery may itself crash |
| `WalRuns.KeepsOpen` | rocksdb-3.9/db/db_impl.cc:3549-3597 | a reopened database agrees with its logs from its first step |
| `WalRecovery.RecoverLogFiles` | rocksdb-3.9/db/db_impl.cc:816-969 | the loops over logs and records, with memtables flushed whenever they fill, give each family exactly its replay |
| `WalProgress.FlushesEnd` | rocksdb-3.9/db/memtable_list.cc:129-241 | from every reachable state of a running database, all memtables of a family can be flushed and committed |
| `WalProgress.Reopens` | rocksdb-3.9/db/db_impl.cc:760-988 | from every reachable state, running or recovering, a crash is followed by a recovery that opens all families with empty memtables |
| `WalProgress.RestartNumbers` | rocksdb-3.9/db/db_impl.cc:760-988 | after a restart file numbers go on from the least one above the manifest's and above every log read, and a recovery edit carries the least log number above all logs |
| `WalProgress.WritesGo` | rocksdb-3.9/db/db_impl.cc:2867-2930 | from every state of a running database whose commits stepped over no batches, a batch can be written: it is the last in its families' memtables, and recovery would find it after all the earlier ones |
| `WalProgress.LogGoes` | rocksdb-3.9/db/db_impl.cc:412-446 | a log below every family's number is deleted, and no other with it |
| `WalLoss.RunIsSafeIff` | rocksdb-3.9/db/memtable_list.cc:129-241 | over every run of the code as it stands: a crash at any point loses nothing and replays nothing twice if and only if none of its commits steps over a memtable with batches that the manifest has not |
| `WalLoss.CommitIsSafeIff` | rocksdb-3.9/db/memtable_list.cc:193-207 | at any commit of a run safe so far, whatever was picked: all families stay recoverable if and only if the batch steps over no memtable with batches that the manifest has not |
| `WalLoss.AdjacentRecoversAll` | rocksdb-3.9/db/memtable_list.cc:129-144 | if flushes pick adjacent memtables recovery is exact, and no edit lowers the log number in memory or reaches next_file_number_ |
| `WalLoss.NoRollbackIsAdjacent` | rocksdb-3.9/db/memtable_list.cc:129-144 | as long as no flush is rolled back every pick is of adjacent memtables |
| `WalLoss.NoRollbackRecoversAll` | rocksdb-3.9/db/db_impl.cc:3022-3094 | without rolled back flushes recovery is exact in every run of the code as it stands |
| `WalLoss.RollbackLosesABatch` | rocksdb-3.9/db/memtable_list.cc:146-162 | a schedule, of switches that the code makes, with one rolled back flush after which a commit makes a logged batch unrecoverable |
| `SuperVersions.RefsCountHolders` | rocksdb-3.9/db/column_family.cc:461-594 | in every interleaving refs is the number of places holding the pointer (installed, predecessor of an install, slots, calls, users, scraped); it is zero exactly when Cleanup was called or exactly one place is about to; no holder has a cleaned-up one |
| `SuperVersions.RunAsserted` | rocksdb-3.9/db/column_family.cc:472-594 | no assertion fails, no step touches a cleaned-up SuperVersion, Cleanup happens once and at count zero, and the Unref of a thread exit, of a scrape and of GetReferencedSuperVersion is never the last |
| `SuperVersions.NoStaleSlot` | rocksdb-3.9/db/column_family.cc:552-594 | outside an install a slot caches only super_version_; during one, only its predecessor and only before its scrape |
| `SuperVersions.ReturnsPublished` | rocksdb-3.9/db/column_family.cc:472-516 | the call returns the only SuperVersion carrying the current number at the deciding step; it is super_version_ then exactly outside the window between pointer and number, and always when taken under the mutex |
| `SuperVersions.ReturnsInstalledIff` | rocksdb-3.9/db/column_family.cc:472-516 | over every run, a call that reuses its cached SuperVersion returns one that was super_version_ at some instant of the call exactly if it was at the swap or the comparison falls outside that window; it fails exactly if swap and comparison lie in the same window |
| `SuperVersions.InstallWindow` | rocksdb-3.9/db/column_family.cc:564-567 | a call made inside that window returns the cached predecessor, which is super_version_ at none of its instants |
| `SuperVersions.FirstReadRuns` | rocksdb-3.9/db/column_family.cc:472-534 | a first read caches what it took under the mutex: a reachable state in which that can happen |
| `SuperVersions.WindowIsReached` | rocksdb-3.9/db/column_family.cc:472-567 | one run from the initial state in which a whole call returns what is super_version_ at no instant of it |
| `SuperVersions.StepKeeps` | rocksdb-3.9/db/column_family.cc:472-594 | every atomic step keeps counts, slots, version numbers, mutex and cleanup duty consistent |
| `SuperVersions.StepAsserted` | rocksdb-3.9/db/column_family.cc:171-208 | in a consistent state every enabled step meets its assertions |
| `SuperVersionEnd.NothingLeaks` | rocksdb-3.9/db/column_family.cc:171-208 | from every reachable state the install in progress, every call and every user can finish and every thread exit; then every SuperVersion but the installed one is cleaned up, and that one has one reference |
| `SuperVersionEnd.NumberCounts` | rocksdb-3.9/db/column_family.cc:564-566 | super_version_number_ counts the installs |
| `SuperVersionEnd.GetsReference` | rocksdb-3.9/db/column_family.cc:461-534 | a thread's first call takes the installed SuperVersion under the mutex, hands a second reference to a user and caches it |
| `Purge.RunningJobsKeepTheirFiles` | rocksdb-3.9/db/db_impl.cc:412-640 | in every interleaving whatever, no file numbered since a running job began is removed, so none whose own job still runs, and pending_outputs_ stays sorted |
| `Purge.RemovableIffExposed` | rocksdb-3.9/db/db_impl.cc:412-640 | in every interleaving whatever, a live or wanted file can be removed exactly if some scan looked at it while it was wanted and every running job had begun after it was numbered, and no other is gone |
| `Purge.RunIsSafeIff` | rocksdb-3.9/db/db_impl.cc:1777-1820 | over every interleaving, live and wanted files are spared throughout, whatever happens before the next return, if and only if every call returns with its files installed, given up or left to an older job still running |
| `Purge.ReturnIsSafeIff` | rocksdb-3.9/db/db_impl.cc:1803-1807 | one return is safe until the next if and only if each file it leaves behind has an older job still running |
| `Purge.FinishedCallsAreSafe` | rocksdb-3.9/db/db_impl.cc:1850-1883 | if every call installs or gives up its own files before it returns, no needed file is ever removed |
| `Purge.FrontIsLeast` | rocksdb-3.9/db/db_impl.cc:455-457 | the front of pending_outputs_ alone decides whether some running job began before a number |
| `PurgeTrace.RemovableIffListed` | rocksdb-3.9/db/db_impl.cc:455-461 | over every run and for every file, needed or not: a scan has it removed if and only if it listed the file when that was in no version and no running job had begun before it was numbered |
| `PurgeTrace.ObsoleteGoes` | rocksdb-3.9/db/db_impl.cc:581-586 | a file in no version that no running job shields is removed by the next full scan |
| `PurgeTrace.StateIsItsSteps` | rocksdb-3.9/db/db_impl.cc:412-640 | the files there, in versions, written and not installed, the running jobs and the next number are what the steps alone say |
| `PurgeTrace.EnabledIff` | rocksdb-3.9/db/db_impl.cc:412-640 | each step can be taken exactly if the steps before it allow it |
| `Purge.FailedFlushRemovesAFile` | rocksdb-3.9/db/db_impl.cc:1768-1815 | a schedule in which a failed older flush gets a younger one's finished file removed before it is installed |
| `Manual.ManualExcludesAutomatic` | rocksdb-3.9/db/db_impl.cc:1537-1618 | for any number of callers, while a request is posted or any caller is past draining, no automatic compaction is scheduled or running, and exactly one job works, for the posted request, while there is one |
| `Manual.RunAsserted` | rocksdb-3.9/db/db_impl.cc:1932-1962 | the job scheduled for a posting is the one that takes it, none finds a request already taken, and a caller leaves with each posting taken exactly once |
| `Manual.CallersReturn` | rocksdb-3.9/db/db_impl.cc:2139-2155 | over every run, a caller can return if and only if a take of its request ended with the whole range compacted or with an error; after a take that left part of the range it can only post again |
| `Manual.ReturnedWhole` | rocksdb-3.9/db/db_impl.cc:1588-1618 | no caller returns before a take of its request has ended so |
| `Manual.EnabledIff` | rocksdb-3.9/db/db_impl.cc:1537-1618 | each step can be taken exactly as the lives of its caller and its job, told from their own steps alone, say |
| `Manual.StepKeeps` | rocksdb-3.9/db/db_impl.cc:1665-1714 | every step keeps counters, jobs and requests consistent |
| `Universal.Picker.Pick` | rocksdb-3.9/db/compaction_picker.cc:856-941 | what is picked joins the runs in progress: disjoint, contiguous, at least two files each. It is everything from the first idle file under size amplification, else the first run the size ratio admits, else the first run of any sizes of no more files than exceed the trigger; nothing is picked exactly if there is none of these |
| `Universal.Picker.SizeAmp` | rocksdb-3.9/db/compaction_picker.cc:1142-1250 | everything from the first idle file on is picked exactly when it is idle up to the last file and outweighs that file; the pick contains no file being compacted, although the mark of the last is never read |
| `Universal.LastIsIdle` | rocksdb-3.9/db/compaction_picker.cc:1184-1206 | a compaction that owns the last file owns the one before it |
| `Universal.Picker.ReadAmp` | rocksdb-3.9/db/compaction_picker.cc:978-1132 | the pick is the whole run of the first idle file whose run of fitting files is long enough, or nothing when there is none; it is idle, within the merge widths and at least two files wide |
| `Universal.Picker.Extend` | rocksdb-3.9/db/compaction_picker.cc:1032-1066 | the candidates from an idle file are the greatest run within the width in which each file is idle and fits the total of those before it, or its neighbour under the similar-size rule |
| `Universal.RunIsGreatest` | rocksdb-3.9/db/compaction_picker.cc:1032-1066 | that run is unique, and it is the one the loop computes |
| `Universal.LastAdmits` | rocksdb-3.9/db/compaction_picker.cc:896-900 | in the last attempt, which passes UINT_MAX for the ratio, an idle file joins whatever is at least a 42949673th of it |
| `Universal.Picker.Register` | rocksdb-3.9/db/compaction.cc:209-217 | marking the picked files makes the new compaction own exactly them |
| `Universal.Picker.Flush` | rocksdb-3.9/db/flush_job.cc:181-201 | the file a flush adds to level 0 goes in front, and every run in progress stays contiguous |
| `Universal.Picker.Finish` | rocksdb-3.9/db/compaction_picker.cc:89-95 | the output takes the place of the inputs; the other runs stay contiguous and time order is kept |
| `Universal.Picker.Release` | rocksdb-3.9/db/compaction_picker.cc:89-95 | a failed compaction leaves exactly its files idle |
| `Universal.InputsDisjoint` | rocksdb-3.9/db/compaction_picker.cc:856-941 | two compactions in progress share no input |
| `Sanitize.SanitizeForAllLevels` | rocksdb-3.9/db/compaction_picker.cc:479-609 | on success the result contains the request, is one run per level, shares no boundary key below level 0, contains every deeper file meeting the range of the picks above, holds nothing being compacted, and is the least such set; otherwise every such set holds a file being compacted |
| `Sanitize.OverlapIff` | rocksdb-3.9/db/compaction_picker.cc:454-476 | the nested comparisons are true exactly when the ranges meet |
| `Sanitize.TakeRun` | rocksdb-3.9/db/compaction_picker.cc:508-585 | the run of a level joins with its key range, and every complete set has it; abort means every complete set is blocked |
| `Sanitize.Expand` | rocksdb-3.9/db/compaction_picker.cc:530-551 | the run is extended exactly as long as neighbours share a boundary key |
| `Sanitize.IncludeBelow` | rocksdb-3.9/db/compaction_picker.cc:587-606 | deeper files join exactly when they meet the range, and every complete set has them |
| `Sanitize.LeastClosed` | rocksdb-3.9/db/compaction_picker.cc:479-609 | a larger set has a larger range and contains what a smaller range forces |
| `Sanitize.AllIsComplete` | rocksdb-3.9/db/compaction_picker.cc:479-609 | there is always a complete set, so the failure clause is not empty |
| `FileIndexer.CalculateLB` | rocksdb-3.9/db/file_indexer.cc:135-171 | each upper file's index is the number of smaller lower keys, plus one for each earlier upper file with the same key as long as lower ones have it too; so it is the leftmost lower file whose key is not smaller if and only if its key does not repeat its left neighbour's while occurring in the lower level |
| `FileIndexer.CalculateRB` | rocksdb-3.9/db/file_indexer.cc:173-208 | the same from the right: the index is the rightmost lower file whose key is not larger, or -1, if and only if its key does not repeat its right neighbour's while occurring in the lower level |
| `FileIndexer.Indexer.UpdateIndex` | rocksdb-3.9/db/file_indexer.cc:71-133 | all four bounds of every file of the levels from 1 to the last but one are exact if and only if no bound repeated within a level occurs among the next level's |
| `FileIndexer.DistinctIsPlain` | rocksdb-3.9/db/file_indexer.cc:71-133 | that holds if no two files of a level have the same smallest key or the same largest |
| `FileIndexer.Indexer.GetNextLevelIndex` | rocksdb-3.9/db/file_indexer.cc:26-69 | the hint is taken from the bounds by the comparison of the key with the file; with an exact index no next-level file holding the key lies outside it, with 0 <= left <= right + 1 and right within the level |
| `FileSearch.FindFileInRange` | rocksdb-3.9/db/version_set.cc:54-73 | the first file of the range that reaches the internal key, or the end of the range |
| `FileSearch.FilePicker.Search` | rocksdb-3.9/db/version_set.cc:118-290 | on any sorted levels with the index built for them: up to the first level into which a hint loses files, only files whose range holds the key are looked into and every one that may hold a visible version is; in that level all but the lost ones are |
| `FileSearch.HintGuards` | rocksdb-3.9/db/file_indexer.cc:26-69 | the hint of the file at which a search leaves a level keeps every file that holds the key but the first of those that end with it: as many as there are upper files sharing the bound, less one |
| `FileSearch.CompleteIff` | rocksdb-3.9/db/version_set.cc:118-290 | the hinted search misses nothing, whatever the sequence number, if and only if no hint for the key loses a file |
| `FileSearch.PlainLosesNothing` | rocksdb-3.9/db/version_set.cc:118-290 | with an exact index nothing is missed for any key |
| `FileSearch.SharedKeyIsMissed` | rocksdb-3.9/db/version_set.cc:118-290 | sorted levels with a shared key on which the search misses a file that may hold it |
| `FileSearch.HintsMeetIff` | rocksdb-3.9/db/file_indexer.cc:64-68 | for a file whose left neighbour does not end after the key, the assertion that the bounds meet holds if and only if not: the file starts with the key, and the files before it that do so (at most as many as lower files end with the key) with those after it (at most as many as lower files start with it) outnumber the lower files that hold the key |
| `FileSearch.HintsCross` | rocksdb-3.9/db/file_indexer.cc:64-68 | sorted levels on which the bounds that the code asserts to meet are 1 and -1 |
| `FileSearch.FilePicker.SearchLevel` | rocksdb-3.9/db/version_set.cc:226-285 | with any bounds in range one level is searched within it; where they lose only some files that end with the key, everything else is looked into, and from bounds that lose nothing the bounds for the next level lose exactly what its hint does |

## Left out

- Compaction filters (both versions), merge entries inside compactions, and BuildTable's purge of memtable entries: user
  callbacks and a helper that is not modelled.
- DBIter's iterate_upper_bound_, prefix extractors, corrupted keys and a missing merge operator.
- LogReader: non-zero initial offsets, LastRecordOffset and read errors of the file; corrupted bytes within one buffer
  only.
- CRC-32C itself: its step function is a parameter.
- Memtable bloom filters, in-place updates, arenas and the decision when a memtable is full.
- Write path: writes without the log, unsynced log tails, creating and dropping column families, group commit, write
  stalls, and a manifest write that fails. A flush that fails while its table is written is modelled (`Rollback`).
- Purge: CompactFiles and recovery, which do not capture a file number before allocating, and log, manifest and
  temporary files.
- Manual compactions during shutdown, and how the range of a request shrinks between its postings.
- SuperVersions: 32-bit wrap-around of refs, the destruction of a column family, and the weak memory order of the
  atomics; steps are sequentially consistent.
- Universal.Picker.Extend: compares sizes exactly where the code uses floating point; compression, path choice and
  manual compactions of the universal style are not modelled.
- Level compaction picking (ExpandWhileOverlapping, SetupOtherInputs), trivial moves and FIFO picking: which files they
  prefer is a matter of policy; completing a set of inputs so that no overlapping file is left out is modelled in
  `Sanitize`.
- FileSearch.FilePicker.Search: says nothing of the levels after the first into which a hint loses files; level 0, which
  has no hints, and the order in which files are returned are not modelled.
- SanitizeCompactionInputFiles: the argument checks around the modelled function.
- The server's codec, sockets, event loop, timers and threads; forward_iterator.cc; options, statistics, file naming and
  the C binding.
- RbTree: node memory is a map from ids to records, and `free` is removal from it; keys are descriptors (non-negative
  32-bit).
