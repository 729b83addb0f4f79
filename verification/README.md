# Ev6 in Dafny

Ev6 is xv6 extended with object-level recovery from uncorrectable memory errors. This project
models the parts of it whose correctness spans many functions, many processes or a crash, and
proves what they promise. Each file is one module:

- `Params`, `Sequences`: the kernel's sizes and shared helpers.
- `DiskLog`, `BufferCache`, `WriteAheadLog`, `BlockOps`: the disk as a map of atomically written
  blocks, the buffer cache, commit and recovery over the cache, and the block map that a
  file-system operation sees.
- `LogProtocol`: many processes in begin_op, log_write, end_op and commit, with a power failure
  allowed anywhere.
- `LogShadow`: the shadow copy of the log header and its rebuilding after a memory error.
- `FsBytes`, `FsState`, `FsSpace`, `FsLogs`, `FileSystem`, `FsTight`: bitmap, block mapping, truncation,
  readi, writei, filewrite; how many blocks a write takes and which ones it logs.
- `PageTable`, `PageWalk`, `PtRecords`, `PtRebuild`: Sv39 page tables (section 4.4 of the RISC-V
  Privileged Architecture), their duplicate PTDUP, and the recovery of a broken table of each level.
- `Umalloc`: the user allocator, after section 8.7 of The C Programming Language, 2nd edition.
- `SleepLock`: sleeplocks over sleep, wakeup and the scheduler's lock hand-over.
- `ShellGrammar`, `ShellParser`, `ShellSyntax`: the shell's parser and its in-place termination of
  strings; and the lines it accepts, described without it.
- `Grep`: the matcher and the streaming of lines.
- `Rcs`: recovery critical sections.
- `FreeList`, `Ring`: the free-page list with its M-List mirror, and the ring of buffers.

Where the C code works on fields, loops and buffers the model is a class or a method with loops,
tied by its contract to a value-level state, and the theorems are lemmas about that state. C
integers are unbounded here except where wrap-around matters, and there it is written out: the
reference counts of buffers, the range checks of readi and writei, the shifts of the page-table
records, the int argument of sbrk. A panic is a result `ok == false`.

Some promises of the code's comments do not hold of the code; the model follows the code.

- mkfs makes `nlog` equal to LOGSIZE, which leaves 29 log blocks. Three operations within their
  budget then reach the panic of log_write, and since its guard is read before the lock is taken
  they can even list one block more than the log has (`LogProtocol.SmallLogOverflows`).
- Even in a large enough log, log_write panics on a block it would only absorb once LOGSIZE blocks
  are listed (`LogProtocol.FullMeansSpent`). Three operations that list ten blocks each get there,
  and the one that then changes a listed block again can neither log it nor end
  (`LogProtocol.FullReachable`).
- Boot recovery unpins buffers that nobody pinned: every listed block's count ends at 2^32 - 1,
  and a header that lists NBUF blocks ends in "bget: no buffers"
  (`WriteAheadLog.Log.RecoverFromLog`). The next write to such a block is listed but not pinned, and
  can be recycled away before any commit (`WriteAheadLog.Log.BootLosesChange`); the accounting that
  rules this out holds after boot exactly when there was nothing to recover (`BlockOps.Boot`).
- A rebuild of the log never closes the transaction it found open. The next finished log_write
  disappears at the next rebuild (`LogShadow.Log.LosesWrite`), and so do all operations begun
  since (`LogShadow.Log.ForgetsOps`).
- The log's handler takes an interrupted begin_op out of the count even if it had not counted
  itself yet, and an interrupted end_op once more (`LogShadow.Log.Recover`).
- malloc of more than 2^31 - 32 bytes asks sbrk for the wrong number of bytes, at most one header,
  unless a free block fits (`Umalloc.Allocator.Malloc`).
- uvmalloc's recorder leaves out the page that breaks a run of two or more, and a page that
  stands alone between two breaks (`PtRecords.Record`).
- The size of a run has nine bits: from 512 pages on, the record reads back too short, and from
  1024 on as ascending even if the run descends (`PtRecords.SizeExact`). Every page of a run is
  recorded exactly when the recorder never counts to 512 (`PtRecords.Record`).
- A run that crosses into the next 2 MiB region is written past the rebuilt table, and one that
  starts just there is put over this region's entries: the table is sure to be safe exactly when
  the page above the region is in no run (`PtRebuild.Recover`).
- The address that recovery_L0 computes is right for the first two L1 tables only
  (`PageWalk.ShiftExact`). Tables 2 and 3 of every four, among them the one with the trampoline,
  come back empty; table 4 gets the records of table 0 (`PageWalk.PageTables.RecoverL0`).
- recovery_L2 renews idx_ptdup up to index NPROC, and there is one index more: a process under it
  stays registered with the broken table (`PageWalk.PageTables.RecoverL2`).
- The last buffer and the first file share a recovery flag (`Rcs.SharedFlag`), leaving all
  critical sections also lowers the counter of flag 0 (`Rcs.Sections.ExitAll`), and a process that
  enters and leaves a section whose recovery lock it holds leaves the counter one too low
  (`Rcs.Sections.EnterAndExit`).
- my_kalloc with nothing to avoid, as all single-page handlers call it, follows a null pointer
  when the free list is empty, so their null checks never help (`FreeList.Memory.MyKalloc`); kfree
  panics when run_list is full, but not on a page that is free already, which leaves a free list
  without an end (`FreeList.Memory.Kfree`).
- The rebuilt free list has lost a page that run_list still names, and with fewer than three pages
  registered it starts at whatever the header of run_list holds (`FreeList.Memory.RecoverKmem`).
- The replacement of a broken buffer trusts links of buffers replaced before; two errors right
  after boot leave the head pointing to the broken one (`Ring.TwoErrors`).

## Model

| member | source | states |
|---|---|---|
| DiskLog.CrashAtomicity | kernel/log.c:215-226 | Commit cut off after any number of block writes, followed by any number of recoveries cut off anywhere, then one full recovery: all home blocks are old if the first header write had not reached the disk, all are new if it had |
| DiskLog.CommitCrash | kernel/log.c:199-226 | At every crash point inside commit the disk means the old blocks or the new ones, never a mixture; the header write is the switch |
| DiskLog.CrashesPreserve | kernel/log.c:124-132 | Any number of aborted recoveries leave the committed content of every home block as it was |
| DiskLog.RecoveryInstalls | kernel/log.c:66-82 | Finished recovery puts every committed content in its home block and empties the log, whatever crashes came before |
| DiskLog.RecoveryStep | kernel/log.c:124-132 | One recovery attempt keeps the meaning at every crash point |
| DiskLog.HeaderWords | kernel/log.c:85-96 | The header block says in word 0 how many blocks are listed and in the words behind it which |
| BufferCache.Cache.constructor | kernel/bio.c:34-57 | binit: NBUF buffers that cache nothing, in most-recently-used order |
| BufferCache.Cache.FindCached | kernel/bio.c:70-80 | The forward scan finds a buffer exactly when the block is cached, and there is only one |
| BufferCache.Cache.FindIdle | kernel/bio.c:82-95 | The backward scan finds an unreferenced buffer exactly when there is one, and then the least recently used: every buffer behind it in the list is in use |
| BufferCache.Cache.Bget | kernel/bio.c:61-97 | Panics exactly when the block is not cached and every buffer is referenced; a block not cached gets the least recently used unreferenced buffer; recycling loses no change, since the cache-over-disk view stays the same |
| BufferCache.Cache.Recycle | kernel/bio.c:84-90 | Giving an unreferenced buffer to another block keeps one buffer per block and the view |
| BufferCache.Cache.Bread | kernel/bio.c:99-110 | The returned buffer holds the view's content of the block |
| BufferCache.Cache.Bwrite | kernel/bio.c:112-119 | One atomic block write of the view's content; the view does not change |
| BufferCache.Cache.Bpin | kernel/bio.c:149-154 | One more reference, same view |
| BufferCache.Cache.Bunpin | kernel/bio.c:156-161 | One reference less modulo 2^32, same view |
| BufferCache.Cache.Brelse | kernel/bio.c:121-147 | The reference goes, the view stays, and a buffer that became unreferenced is then the first in the list, the others in their order behind it |
| BufferCache.Modulo | kernel/bio.c:149-161 | Counts go up and down modulo 2^32 |
| BufferCache.Cache.SetData | kernel/fs.c:55-63 | A holder's change of the data changes the view at that block only |
| WriteAheadLog.Log.LogWrite | kernel/log.c:237-269 | Panics exactly when a size guard fires or no operation runs; otherwise the block is listed once and pinned when newly listed, and the view is unchanged |
| WriteAheadLog.Log.WriteLog | kernel/log.c:199-213 | The block writes are those of write_log, in order, from the view |
| WriteAheadLog.Log.WriteHead | kernel/log.c:106-122 | One block write that stores exactly the in-memory header |
| WriteAheadLog.Log.ReadHead | kernel/log.c:84-104 | The in-memory header becomes exactly the one on disk |
| WriteAheadLog.Log.InstallTrans | kernel/log.c:66-82 | Copies each log block to its home block, in order, and unpins each once |
| WriteAheadLog.Log.Commit | kernel/log.c:215-226 | What reaches the disk is a prefix of commit's writes, all of them if one buffer is idle; afterwards the log is empty and every pin is gone |
| WriteAheadLog.Log.RecoverFromLog | kernel/log.c:124-132 | Succeeds exactly when the header lists fewer than NBUF blocks; performs exactly the recovery writes; leaves the listed counts one below zero |
| WriteAheadLog.Log.LosesChange | kernel/log.c:237-269 | With a count of 2^32 - 1 and no idle buffer: a block that is read, changed, passed to log_write and released is listed, but its buffer is as good as idle (`mid`); the next bread of another block takes it, and the listed block reads as on disk again |
| WriteAheadLog.Log.BootLosesChange | kernel/log.c:124-132 | Boot that recovers block b, then reads of other blocks until every buffer is held (`full`, with just these counts): a logged change of b is overtaken by one more read, and every block reads as recovery left it |
| BlockOps.Boot | kernel/log.c:124-132 | After boot the accounting of users and pins that all later block operations keep holds exactly when recovery found an empty header |
| WriteAheadLog.TooManyCached | kernel/bio.c:81-96 | Distinct cached blocks are at most NBUF, so recovery of NBUF listed blocks cannot also cache their log blocks |
| BlockOps.Blocks.Read | kernel/bio.c:99-110 | bread of a block: the data is the plain block map's content; it can fail only with no idle buffer |
| BlockOps.Blocks.Change | kernel/log.c:228-236 | Changing held data updates the map at that block |
| BlockOps.Blocks.LogWrite | kernel/log.c:237-269 | Panics exactly when a size guard fires or no operation runs; otherwise the change is logged, the map stands, the accounting of users, pins and unlogged changes is kept |
| BlockOps.Blocks.Release | kernel/bio.c:121-147 | Releasing never lets a change be recycled away: the map stands |
| BlockOps.Blocks.Commit | kernel/log.c:215-226 | Stopped anywhere, and after any failed recoveries, recovery gives all old or all new home blocks; finished, the map is unchanged and the log is empty |
| BlockOps.CommitStopped | kernel/log.c:215-226 | The crash guarantee, for the writes that reached the disk through the cache |
| BlockOps.CommitDone | kernel/log.c:67-82 | After commit nothing is listed, every pin is gone, and cache and disk agree on every block again |
| LogProtocol.StepKeeps | kernel/log.c:134-197 | Every step of every process keeps the reservation bound (listed blocks and unused budgets within LOGSIZE) and the agreement of log, view and disk |
| LogProtocol.RunKeeps | kernel/log.c:134-269 | Both invariants hold in every state of every run, and what is durable is the view of some earlier state with no operation running |
| LogProtocol.CrashAnywhere | kernel/log.c:134-226 | Power failing in any state of any run, then any failed recoveries: recovery restores exactly the view at a commit point of that run, with no operation half in |
| LogProtocol.NothingPending | kernel/log.c:183-196 | When no operation runs and no commit is under way, recovery restores the current view |
| LogProtocol.CommitterIsAlone | kernel/log.c:171-187 | commit runs with no operation outstanding and no other commit |
| LogProtocol.NoPanic | kernel/log.c:169-170 | With room for LOGSIZE blocks, "log->committing" is unreachable and log_write within budget never panics nor overfills the header |
| LogProtocol.FullMeansSpent | kernel/log.c:244-245 | The size guard fires exactly when LOGSIZE blocks are listed, and then no operation has budget left |
| LogProtocol.FullReachable | kernel/log.c:244-248 | Such a full log with three operations inside is reachable, and the operation that changed a listed block once more can neither log it nor end |
| LogProtocol.SleeperHasWaker | kernel/log.c:141-151 | A process asleep in begin_op has a live operation or commit that will wake it, and ending one that leaves no commit behind wakes everybody |
| LogProtocol.Admission | kernel/log.c:139-154 | In every run, for every size of log: begin_op lets a process in exactly when no process is committing and the blocks listed leave room for MAXOPBLOCKS more of every process inside and of this one; otherwise it sleeps; nothing else changes |
| LogProtocol.Leaving | kernel/log.c:159-187 | A process leaves its operation exactly when it has logged all it changed; the last one inside commits, any other wakes all sleepers |
| LogProtocol.Logging | kernel/log.c:244-248 | log_write of a home block gets past its guards exactly while fewer than LOGSIZE blocks are listed, a share being needed only for a new block |
| LogProtocol.Listing | kernel/log.c:250-269 | Past the guards the block is listed once, at the end, and there is room for it whatever happened in between |
| LogProtocol.CommitGoesOn | kernel/log.c:215-226 | A commit in any reachable state can go on, by a block write or by emptying the log |
| LogProtocol.Changing | kernel/log.c:228-236 | An operation may change any home block at any time; a sleeper does nothing by itself |
| LogProtocol.SmallLogOverflows | kernel/log.c:244-265 | For every smaller log there are runs within budget that panic, and runs that list more blocks than the log area has |
| LogShadow.Log.Rebuild | kernel/recovery_handler_log.c:125-130 | The rebuilt header and outstanding count are the snapshot inside a transaction and the shadow copy outside |
| LogShadow.Log.LogWrite | kernel/log.c:257-265 | Cut off between any two statements, from any state that earlier rebuilds leave: the rebuild gives the log before or after, exactly when no transaction was open, or the cut comes after both snapshots, or the old snapshot agrees; a finished update outlives a rebuild exactly when no transaction was open or nothing was new |
| LogShadow.Log.BeginOp | kernel/log.c:148-149 | The rebuild gives the log before or after exactly when no transaction is open or its snapshot, count included, says one of the two |
| LogShadow.Log.EndOp | kernel/log.c:166-167 | The same for end_op |
| LogShadow.Log.Clear | kernel/log.c:222-223 | The same for clearing the header |
| LogShadow.Log.RunThenError | kernel/trans.c:231-245 | Any run of updates with the error in the last: the rebuilt log is the one just before or just after it |
| LogShadow.Log.RunWithErrors | kernel/trans.c:231-245 | Any run of updates with any number of errors and rebuilds, as long as none leaves a transaction open: the log is what the updates make of it that were finished, and of each interrupted one all or nothing |
| LogShadow.Log.Recover | kernel/recovery_handler_log.c:125-148 | From any state that earlier rebuilds leave: the count after the handler's own correction is one below the one rebuilt, never below 0; with no transaction open that is the count of the other operations exactly when an interrupted begin_op had counted itself, or an interrupted end_op had not yet, or nobody else runs, and always for log_write; the blocks listed are those before or after the call exactly when no transaction was open, or log_write had taken its snapshot, or the old snapshot agrees |
| LogShadow.Log.LosesWrite | kernel/trans.c:231-245 | log_write of a new block is cut off inside its transaction, a rebuild follows, log_write of another block runs to its end and lists it, another rebuild follows: the log is as it was, without that block |
| LogShadow.Log.ForgetsOps | kernel/trans.c:231-245 | The same with any number of begin_ops in place of the second log_write: each is counted, and after the next rebuild none |
| FsState.AllocEffect | kernel/fs.c:68-89 | Allocating disturbs no pointer, no other data block and no other bit, and nothing points to the new block |
| FsState.AttachDirect | kernel/fs.c:389-401 | Storing an unowned used block in an empty slot keeps ownership |
| FsState.AttachEntry | kernel/fs.c:402-407 | The same for an entry of the indirect block |
| FsState.PutData | kernel/fs.c:506-513 | Overwriting a file's data block changes no pointer and no bit |
| FsState.FreeBits | kernel/fs.c:92-106 | Clearing one bit frees exactly that block |
| FsState.StoreEffect | kernel/fs.c:225-241 | iupdate makes the disk's copy of the inode the in-memory one and disturbs no other inode, pointer, bit or data block |
| FsState.ByteExact | kernel/fs.c:384-411 | Byte x of a file lies in the block of its address for the first twelve blocks, and else in the one that the little-endian word of the indirect block names |
| FsState.UsedExact | kernel/fs.c:75-79 | A block is in use exactly if its bit of its byte of its bitmap block is set |
| FsBytes.WordBytes | kernel/fs.c:403-407 | Words are little-endian, and storing one changes its four bytes alone |
| FsBytes.BitByte | kernel/fs.c:76-79 | Bits count from the low end of each byte; setting or clearing one changes that byte by its weight alone |
| FileSystem.Volume.Iupdate | kernel/fs.c:225-241 | One inode block is logged: of its words just the size and the thirteen addresses of this inode become the in-memory ones, and every other word, type and link count included, stays |
| FileSystem.Volume.Balloc | kernel/fs.c:67-89 | The lowest free block, marked and zeroed; panics exactly when all are used |
| FileSystem.Volume.Bfree | kernel/fs.c:92-106 | Panics exactly on a free block; otherwise frees that block |
| FileSystem.Volume.Bmap | kernel/fs.c:383-413 | The block that holds a file block, allocated with the indirect block if missing; panics exactly beyond MAXFILE or with fewer free blocks than are missing; keeps every pointer, size and data block; which blocks it passes to log_write |
| FileSystem.Volume.Readi | kernel/fs.c:467-488 | -1 beyond the end or on a wrapping range, otherwise exactly the file's bytes clamped at its end; nothing is allocated or logged |
| FileSystem.Volume.Writei | kernel/fs.c:494-526 | -1 without effect exactly on a bad range; on any other it panics exactly when fewer blocks are free than the range lacks, and otherwise the file's bytes are spliced, no byte of any other file changes, the inode's size and addresses are written through to disk and no other inode's copy there changes; the blocks logged are exactly those of the range and the inode block, at most MAXOPBLOCKS for a chunk |
| FileSystem.Volume.Itrunc | kernel/fs.c:420-449 | Frees exactly the blocks the inode owned, never a free one, empties the file, on disk too, and leaves all others |
| FileSystem.Volume.Filewrite | kernel/file.c:204-234 | The data goes in by chunks, each a transaction of at most MAXOPBLOCKS blocks; how many bytes are written before a chunk is refused, with -1; it panics exactly when fewer blocks are free than these bytes lack; never "short filewrite"; inodes stay written through |
| FileSystem.WritingStep | kernel/fs.c:505-514 | One block of writei's loop extends the part of the splice done so far |
| FileSystem.WritingDone | kernel/fs.c:516-524 | After the loop and the new size the content is the splice, there is no hole, other files are untouched |
| FsLogs.LogsStep | kernel/file.c:204-212 | One round of writei's loop adds to the blocks logged exactly what the next block calls for: itself, its bitmap block if it was missing, the indirect block with it, and that one's bitmap block the first time |
| FsLogs.LogsChunk | kernel/file.c:204-212 | The exact set of blocks a chunk logs, inode block included, has at most MAXOPBLOCKS elements, whatever bitmap blocks there are |
| FsTight.FullTransaction | kernel/file.c:204-212 | On a given volume, writei of one chunk logs exactly MAXOPBLOCKS blocks, so the bound is met |
| FsTight.LogsTen | kernel/file.c:204-212 | Whatever blocks the allocator gives there, the blocks logged are ten |
| FsSpace.LacksNext | kernel/fs.c:384-411 | What bmap takes for the next block of a range is what the range lacks next, the indirect block counted once |
| FsSpace.LackingIs | kernel/fs.c:384-411 | What a range lacks is its missing data blocks, and the indirect block if it is missing and the range gets to it |
| FsSpace.MappedTogether | kernel/file.c:204-234 | Two ranges mapped one after the other are one range mapped: every missing block is now one that was free, every other pointer as it was, and as many blocks are gone as were missing |
| FileSystem.TruncateDone | kernel/fs.c:420-449 | Freeing every slot once frees exactly the owned blocks |
| PageTable.WalkExact | kernel/vm.c:80-114 | The leaf of an address is what the hardware's walk finds: nine bits of the address at each level, valid entries, physical page numbers |
| PageTable.WalkAddrExact | kernel/vm.c:116-138 | walkaddr gives the page of a leaf with PTE_V and PTE_U, and 0 for every other address and beyond MAXVA |
| PageTable.MapThenWalk | kernel/vm.c:174-195 | After mappages with PTE_U walkaddr gives the pages of the range in order, without PTE_U none of them |
| PageTable.SwapTop | kernel/recovery_handler_pagetable.c:100-123 | An L2 table taken from PTDUP looks the same at every level, and the duplicate is in step |
| PageTable.SwapMid | kernel/recovery_handler_pagetable.c:155-171 | The same for an L1 table relinked in the live L2 table and its duplicate |
| PageTable.SwapLow | kernel/recovery_handler_pagetable.c:300-308 | A replaced L0 table changes the entries of that table only |
| PageTable.OneLow | kernel/recovery_handler_pagetable.c:274-290 | A table is pointed to from one place only, so the search finds the broken table's place |
| PageWalk.PageTables.constructor | kernel/ptdup.c:24-62 | A new process's zeroed L2 table and blank duplicate: valid, in step, nothing mapped |
| PageWalk.PageTables.Create | kernel/ptdup.c:24-62 | uvmcreate and ptdup_init: fails exactly without a free index or five free pages; otherwise the first free index manages the new table and PTDUP is in step |
| PageWalk.PageTables.Walk | kernel/vm.c:80-114 | Without alloc, 0 exactly when there is no L0 table; with it the table is made if memory lasts; no translation changes; PTDUP stays equal to the live tables when nextpid exceeds 2, and otherwise exactly if nothing was allocated |
| PageWalk.PageTables.Mappages | kernel/vm.c:174-195 | Each address of the range, no page of which was mapped before, gets a leaf with PTE_V, exactly the other flags of perm and the physical page in its order; no other leaf changes; -1 with a mapped prefix when memory runs out; PTDUP stays in step; it panics only for a range that leaves MAXVA, a page of it that was mapped already, or, past nextpid 2, with PTDUP in step, when there is no page for the duplicate of a new table |
| PageWalk.PageTables.PtdupCreateL1 | kernel/ptdup.c:65-99 | The new L1 table gets a blank duplicate under its own index and PTDUP is in step again |
| PageWalk.PageTables.PtdupUpdate | kernel/ptdup.c:173-209 | The one entry that was behind is copied; a panic changes nothing |
| PageWalk.PageTables.RecoverL2 | kernel/recovery_handler_pagetable.c:100-123 | Without reading the broken table, every leaf is as before and PTDUP agrees with the live tables; it can be found for the next error exactly when the process's index is at most NPROC, and under the last index idx_ptdup goes on naming the broken table |
| PageWalk.PageTables.RecoverL1 | kernel/recovery_handler_pagetable.c:126-175 | The same for a broken L1 table |
| PageWalk.PageTables.RecoverL0 | kernel/recovery_handler_pagetable.c:264-312 | For a table behind any L1 table: every other leaf and PTDUP's agreement stand, the table holds what the records of the computed address give, it is killed exactly when two records meet; behind the first two L1 tables, if the records agree with the live table but for A, D and G and no run reaches the next region, every address translates as before unless no record covers it; the records agree with the new table again, so a second error is covered |
| PageWalk.ShiftExact | kernel/recovery_handler_pagetable.c:293 | The address of the broken table is computed right exactly for L2 index 0 or 1; otherwise it is that of an index four times k lower, or one sign-extended beyond every record |
| PageWalk.TranslationAfterL0 | kernel/vm.c:116-138 | For every address: a table given by agreeing records that fit makes walkaddr give the same page for recorded leaves and none, never a wrong one, for the others |
| PageWalk.NothingThere | kernel/recovery_handler_pagetable.c:188-246 | For a sign-extended address no record applies and the table stays empty |
| PtRecords.FieldsAt | kernel/ptdup.h:5-49 | Where the fields of both kinds of record are |
| PtRecords.PtdsRoundTrip | kernel/ptdup.h:33-42 | Every field of a packed run record reads back, for va and pa below 2^38 |
| PtRecords.PtedRoundTrip | kernel/ptdup.h:44-49 | Every field of a packed single-page record reads back |
| PtRecords.SizeExact | kernel/ptdup.h:38-42 | The packed size reads back exactly below 512 pages; otherwise as its remainder, with the order bit set from 1024 on |
| PtRecords.RunGrows | kernel/vm.c:303-312 | A run of distinct pages can never flip its direction |
| PtRecords.Round | kernel/vm.c:303-327 | One turn of the recorder keeps records sound and maximal and the account of recorded pages exact |
| PtRecords.Record | kernel/vm.c:272-337 | For any distinct pages in any order, exactly which pages the records name and that none is named twice; they name every page of a run of two or more, and by itself every page that is alone and not skipped, exactly when the recorder never counts to 512, and then each record names pages as mapped; one shorter run is recorded whole |
| PtRecords.ToldExact | kernel/vm.c:303-337 | The records' reach is the whole of every run exactly when no run is counted to 512 |
| PtRecords.ThreePages | kernel/vm.c:303-333 | Of three pages, two in a row and another, the other is in no record; one and two in a row are recorded by themselves |
| PtRecords.MarkedSize | kernel/vm.c:318 | Whatever the number of pages put into a record, its size field reads back that number modulo 512 |
| PtRecords.MarkedVa | kernel/vm.c:318 | And its address field stays right |
| PtRebuild.FillRun | kernel/recovery_handler_pagetable.c:199-219 | The pages of a run fill its empty entries; an entry already taken is reported; exactly a run that does not end in the table is written past it |
| PtRebuild.Rebuild | kernel/recovery_handler_pagetable.c:178-261 | Each entry is what the one record put there gives, and empty without one; it fails exactly when two records are put at one entry, and writes past the table exactly when a run does not end in it |
| PtRebuild.FitsExact | kernel/recovery_handler_pagetable.c:192-197 | No run is put outside its own entries exactly when none covers the page above the region |
| PtRebuild.RebuiltAlike | kernel/recovery_handler_pagetable.c:206 | If records fit and agree, an entry exists exactly if it is recorded, and is the live one up to A, D and G, and dirty |
| PtRebuild.AgreesAgain | kernel/recovery_handler_pagetable.c:178-261 | The records agree with the rebuilt table |
| PtRebuild.RecordsAgree | kernel/vm.c:303-337 | After any number of uvmalloc calls the list's records say of each page what the live table says, whatever A and D bits it has |
| PtRebuild.RecordsOnce | kernel/vm.c:316-333 | After any number of calls no entry is recorded twice |
| PtRebuild.RecordAll | kernel/vm.c:303-337 | The lists of any number of calls hold, for each page, just what the recorder makes of its call |
| PtRebuild.RebuiltAsMapped | kernel/recovery_handler_pagetable.c:178-261 | Each page of those calls is in the rebuilt table, as mapped and dirty, unless the recorder skipped it or its run begins below the region |
| PtRebuild.NotClearWrong | kernel/recovery_handler_pagetable.c:197 | A run that starts just above the region gives address sva the page of the next region |
| PtRebuild.Recover | kernel/recovery_handler_pagetable.c:264-295 | uvmalloc any number of times, then the rebuild of any region's table: no write outside, no failure and no wrong page exactly when the page above the region is in no run; then every page comes back but the skipped ones and the rest of runs from below |
| PtRebuild.WholeTable | kernel/vm.c:303-337 | If each call got one run and none reaches in from below, the whole table comes back, dirty |
| Umalloc.Allocator.Free | user/umalloc.c:24-44 | The search ends; the block leaves the allocated ones and joins the address-sorted ring, merged with both neighbours it touches; no byte is lost |
| Umalloc.Allocator.Morecore | user/umalloc.c:46-61 | sbrk is asked for the bytes needed exactly as far as its int argument holds them; then a block of at least the units asked for joins the free ones, or nothing changes |
| Umalloc.Allocator.Malloc | user/umalloc.c:63-90 | For every request: the search ends; sbrk is asked for too little exactly when no free block fits and the request is above MAXREQUEST; otherwise 0 exactly when no free block fits and sbrk has nothing, or a block of exactly the units needed, apart from every other, with sbrk called at most once |
| Umalloc.Released | user/umalloc.c:33-43 | free's relinking keeps the ring sorted with one wrap, leaves no two free blocks touching and conserves every byte |
| Umalloc.LookOn | user/umalloc.c:74-89 | malloc's search sees every free block before it comes around |
| Umalloc.SearchStep | user/umalloc.c:30-32 | free's search stops exactly at the block's predecessor in address order |
| Umalloc.Cut | user/umalloc.c:78-82 | Splitting allocates the tail and keeps the ring and the bytes |
| Umalloc.Taken | user/umalloc.c:76-77 | Taking a whole block keeps the ring and the bytes |
| Umalloc.OneBlock | user/umalloc.c:11-22 | No byte lies in two blocks, and every byte of a block came from sbrk |
| Umalloc.SbrkExact | user/umalloc.c:54 | sbrk is asked for the bytes needed exactly up to MAXREQUEST, and beyond for one header at most |
| Umalloc.UnitsExact | user/umalloc.c:69 | No fewer units hold a header and the bytes asked for |
| SleepLock.StepKeeps | kernel/proc.c:571-616 | Every step of acquiresleep, releasesleep, sleep, wakeup, swtch and scheduler keeps the lock, ownership and wakeup invariants |
| SleepLock.RunKeeps | kernel/sleeplock.c:27-47 | They hold in every reachable state, for any number of processes and sleeplocks |
| SleepLock.MutualExclusion | kernel/sleeplock.c:27-37 | At most one process holds a sleeplock, the one its pid names |
| SleepLock.HoldingSleepExact | kernel/sleeplock.c:49-58 | holdingsleep is true exactly for the holder |
| SleepLock.NoLostWakeup | kernel/proc.c:571-616 | A process asleep on a sleeplock waits for a held one, or for a waker that has yet to visit it |
| SleepLock.WokenExactly | kernel/proc.c:604-616 | No step but kill wakes a sleeper, other than the visit of a waker that names the channel it sleeps on; and that visit does |
| SleepLock.TakenExactly | kernel/sleeplock.c:27-47 | acquiresleep takes the lock exactly when it finds it free, releasesleep always frees it, no other step does either |
| SleepLock.NobodyStuck | kernel/proc.c:571-616 | No deadlock in the lock and scheduler code: in every reachable state with a process in it that is not asleep, some process can go on |
| ShellSyntax.Exact | user/sh.c:267-448 | The parser accepts exactly the lines that spell a pipeline syntax with redirections by <, > or >> anywhere among the arguments, any white space and parentheses only where written, and gives the tree that syntax stands for |
| ShellSyntax.TokenOf | user/sh.c:267-310 | A word, a symbol or >>, with white space around it, is the token that it looks like |
| ShellSyntax.IntoFile | user/sh.c:376-399 | A command with > or >> and a file behind it gives the same tree |
| ShellSyntax.MissingFile | user/sh.c:383-385 | A redirection at the start without a word behind it: "missing file for redirection" |
| ShellSyntax.MissingFileLater | user/sh.c:383-385 | The same behind any number of arguments |
| ShellSyntax.TooMany | user/sh.c:438-442 | A tenth argument: "too many args" |
| ShellSyntax.StrayParen | user/sh.c:436-437 | A parenthesis among the arguments: "syntax" |
| ShellSyntax.Unclosed | user/sh.c:409-410 | A parenthesis that does not close: "syntax - missing )" |
| ShellSyntax.Leftover | user/sh.c:338-341 | A parenthesis that was not opened behind a line: "syntax" |
| ShellGrammar.RoundTrip | user/sh.c:330-448 | A command tree written out with symbols and parentheses parses as the same tree |
| ShellGrammar.WrittenParses | user/sh.c:346-448 | A written command parses as itself up to the end or the next closing parenthesis |
| ShellParser.Gettoken | user/sh.c:267-310 | On the characters of the line past white space: >> is one token and > another, each other symbol its own, a word goes on to the next white space or symbol, and the white space behind is skipped; and this is the token of the grammar |
| ShellParser.PeekAt | user/sh.c:312-322 | Whether the next character is among the given ones, past white space |
| ShellParser.ParseRedirs | user/sh.c:376-399 | Wraps the command in the redirections that follow, or fails on a missing file |
| ShellParser.ParseSimple | user/sh.c:428-447 | Arguments and redirections in any order; fewer than MAXARGS arguments |
| ShellParser.ParseBlock | user/sh.c:401-415 | A line in parentheses with redirections behind it |
| ShellParser.ParsePipe | user/sh.c:363-374 | A pipeline, associated to the right |
| ShellParser.ParseLine | user/sh.c:346-361 | Background marks and lists; every parser ends on every line |
| ShellParser.Nulterminate | user/sh.c:450-495 | A NUL at the end of every string of the tree and no other change |
| ShellParser.ParseCmd | user/sh.c:329-344 | The tree or the message that the grammar gives, on every line; then every string of the tree reads as exactly its word |
| ShellParser.TreeKept | user/sh.c:464-494 | No terminator lands inside another word of the tree |
| Grep.MatchHere | user/grep.c:83-95 | True exactly when the items of the pattern match a prefix of the text |
| Grep.MatchStar | user/grep.c:97-105 | True exactly when some number of the character, then the pattern, match |
| Grep.Match | user/grep.c:71-81 | Agrees with the meaning of ^ . * $ on every pattern and text |
| Grep.BeginsStar | user/grep.c:97-105 | The declarative meaning of a starred character, as a split of the text |
| Grep.MeansPiece | user/grep.c:71-105 | The meaning on the characters of the pattern: some piece of the text is matched in full by the pattern without its anchors, and ^ and a last $ hold the piece to the ends of the text |
| Grep.AtTheEnd | user/grep.c:90-91 | With a $ at its end a pattern matches from the start exactly if without it it can match all of the text |
| Grep.AnyChar | user/grep.c:92-93 | A leading . takes any one character |
| Grep.ThisChar | user/grep.c:92-93 | Any other leading character that no * follows takes itself, ^ and an inner $ included |
| Grep.ManyChars | user/grep.c:97-105 | A leading c* takes any number of c, and .* of anything |
| Grep.AnyPlace | user/grep.c:76-80 | Without ^ a pattern matches wherever it would with one |
| Grep.PlainMeans | user/grep.c:71-95 | A pattern without special characters matches as a part, a beginning, an end or the whole of the text, as its anchors say |
| Grep.SelectedLines | user/grep.c:20-28 | What grep selects of any lines and a rest without one is the matching lines, each with its newline, in order |
| Grep.InputLines | user/grep.c:10-34 | Every input is such lines and such a rest |
| Grep.Run | user/grep.c:10-34 | However read splits an input without NUL, the output is exactly the matching lines, up to the first line the buffer cannot hold |
| Grep.Lines | user/grep.c:20-28 | The inner loop writes each whole line in the buffer that matches |
| Rcs.SharedFlag | kernel/recovery_locking.c:54-70 | The flag of each node, and that two nodes share one exactly when they are the last buffer and the first file |
| Rcs.Add | kernel/recovery_locking.c:124-147 | The history stays a gap-free stack with the flag on top; a full one is unchanged |
| Rcs.Del | kernel/recovery_locking.c:149-178 | The last occurrence goes and the rest closes up in order; if the flag is absent a full history loses its top |
| Rcs.EnterThenExit | kernel/recovery_locking.c:228-308 | Leaving the section entered last restores the history |
| Rcs.Sections.constructor | kernel/recovery_locking.c:75-84 | At boot no process is known and every counter matches the empty histories |
| Rcs.Sections.Do | kernel/recovery_locking.c:227-423 | The exact effect of one event on counters, lock holders and histories, and a panic exactly for an unknown process, a pid in use, a recovery lock the caller holds already, or one it does not hold |
| Rcs.StepBalances | kernel/recovery_locking.c:227-423 | That effect leaves the counters matching the histories exactly when the event is orderly: an entry is both counted and recorded or neither, what is left was entered, a process that ends is in no section |
| Rcs.RunBalances | kernel/recovery_locking.c:227-423 | Every run of orderly events, of any processes in any order, recovery locks included, keeps each counter the number of times processes are inside |
| Rcs.Sections.Run | kernel/recovery_locking.c:227-423 | A run of any events panics exactly when one of them does where it happens, ends as the effects of all of them add up, and keeps the counters matching if each was orderly |
| Rcs.Sections.EnterAndExit | kernel/recovery_locking.c:228-304 | Entering and leaving restores histories, and the counter unless the process holds the flag's recovery lock; then it is one too low |
| Rcs.Sections.End | kernel/recovery_locking.c:180-203 | The entry of an ended process is emptied; the counters still match exactly if it was in no section |
| Rcs.Sections.Enter | kernel/recovery_locking.c:229-264 | No other process raises the counter while the recovery lock is held; the flag's counter matches the histories afterwards exactly when the caller held the lock if and only if its history was full |
| Rcs.Sections.Exit | kernel/recovery_locking.c:280-307 | All counters keep matching the histories when the flag was entered; when it was not, this flag's counter no longer does |
| Rcs.Sections.ExitAll | kernel/recovery_locking.c:319-345 | Gives back exactly one process's share of every counter but flag 0's |
| FreeList.Memory.InitRunList | kernel/mlist.c:126-149 | run_list names every free page but the last, in order, the pages taken for its own nodes excluded |
| FreeList.Memory.Kalloc | kernel/kalloc.c:77-99 | The first page leaves both lists; they keep naming the same pages in the same order |
| FreeList.Memory.Kfree | kernel/kalloc.c:46-72 | The page goes to the front of both; panics exactly on an address that is no page of the heap, or when run_list is full and does not name it; the free list is a list again exactly if the page was not free before |
| FreeList.NoEnd | kernel/kalloc.c:63-64 | Linking in a page that is on the list already leaves one that never ends |
| FreeList.Memory.MyKalloc | kernel/mlist.c:243-292 | The first page that is not the one to avoid leaves both lists; with nothing to avoid it never returns 0, and an empty list makes it follow a null pointer |
| FreeList.Memory.RegisterMemobj | kernel/mlist.c:152-190 | The address goes to the front, unless it is met before the first empty slot; with neither found the list would have to grow under kmem->lock, a panic |
| FreeList.Memory.DeleteMemobj | kernel/mlist.c:198-221 | The first occurrence leaves, the others keep their order |
| FreeList.Memory.RecoverKmem | kernel/recovery_handlers_MM.c:112-135 | The new free list is the old one from its third page on, without the page reused for kmem; run_list keeps one page more; with fewer than three pages registered the free list starts at the header's own field |
| Ring.Ring.constructor | kernel/bio.c:34-57 | binit makes one ring of all buffers |
| Ring.Ring.ToFront | kernel/bio.c:133-142 | brelse's relinking keeps one ring, in which the buffer is the first and the others keep their order, as the cache model says |
| Ring.Ring.FindNeighbours | kernel/recovery_handler_buf.c:262-274 | The search yields the last of the head and the static array to point to the broken buffer, each way |
| Ring.Ring.Replace | kernel/recovery_handler_buf.c:262-296 | The exact links afterwards; the others keep their order and the new buffer is the least recent one exactly when both neighbours are in the static array and no later buffer there, replaced ones and the broken one included, points to the broken one; a null pointer is followed exactly when nothing there does |
| Ring.NothingStale | kernel/recovery_handler_buf.c:262-274 | If only buffers of the ring point to the broken one, that holds exactly if both neighbours are the head or in the static array |
| Ring.WrongRing | kernel/recovery_handler_buf.c:276-278 | Joining any other two nodes leaves no ring |
| Ring.TwoErrors | kernel/recovery_handler_buf.c:262-296 | After binit the first buffer is replaced by exactly this surgery, which leaves a whole ring (`one`); then the second by the same, where the search takes the buffer that left the ring for the neighbour: the head goes on pointing to the broken buffer, and the ring is broken |
| Ring.Bypass | kernel/recovery_handler_buf.c:276-278 | Joining the neighbours leaves the broken node out, and its lost links do not matter to the ring that remains |

## Left out

- Hardware: boot code, registers, interrupts, the UART and the virtio driver; a disk is a map of blocks with atomic one-block writes.
- Call-stack scanning, the choice of what happens to the process after a recovery, and the NMI queue.
- The recovery handlers of file, inode, pipe, spinlock and console objects; recovery_handler_run.
- PTDS_delete, PTDS_decompose_clear and uvmcopy's copy of the recorder: the first two do not compute a truncation that could be stated; the third repeats uvmalloc's.
- Directories, path names, inode allocation, pipes, the console, copyin and copyout: easy members; the copies of readi and writei succeed.
- BufferCache.Cache.Bget: buffers of one device, kept in a sequence in list order rather than as linked nodes (Ring has the links); sleeplocks are in SleepLock, so a buffer is simply held here.
- BlockOps.Blocks.Read: calls of different processes are whole steps; interleaving inside log.c is in LogProtocol, over the view instead of the buffers.
- WriteAheadLog.Log.Commit: the reference count of the header block and of pinned blocks is assumed below 2^32 - 1, as it is with NPROC processes.
- LogProtocol.NoPanic: states its no-panic half for logs that hold LOGSIZE blocks, which mkfs does not make; an operation is assumed to log at most MAXOPBLOCKS new blocks, which FileSystem proves of writei.
- LogProtocol.SleeperHasWaker: a process asleep has somebody to wake it; that processes are eventually scheduled is not modelled.
- LogShadow.Log.LogWrite: a rolled-back log_write may leave its pin behind; only the header and the outstanding count are modelled, and the transaction counter of one process. The guards before the update are in WriteAheadLog.Log.LogWrite.
- FileSystem.Volume.Writei: of an inode the size and the addresses; type, device numbers and link count, and reading an inode in (ilock), are left out.
- FileSystem.Volume.Itrunc: the inode's pointers are cleared by one assignment after the last bfree, not one by one.
- PageWalk.PageTables.Walk: one process's tables; the table of indexes holds the others' as numbers. The guarantee about PTDUP starts from a duplicate that is in step.
- PageWalk.PageTables.RecoverL0: what is written past the page when a run does not end in the table is not followed further, nor is the table of a process that is killed.
- PtRecords.Record: the success path of uvmalloc with distinct pages. Which physical pages the record of a run of 512 pages or more names is left out, but for the address and the number. Records are appended in the order of the calls; the search for a free slot in a list page is not modelled, nor the full page, where the code overwrites the first slot.
- PtRebuild.Rebuild: the ring of list pages is one sequence of slots; what the rest of an interrupted fill does to the memory behind the table is left out.
- PtRebuild.Recover: lists that only uvmalloc has filled, with calls at separate addresses and pages; after deletions the lists are left out.
- Umalloc.Allocator.Malloc: what becomes of the memory once sbrk was asked for too little is left out, so sbrk never shrinks the process.
- SleepLock.StepKeeps: other channels and preemption outside the lock code are left out; kill's wakeup is in.
- ShellGrammar.RoundTrip: > and >> open a file alike in the code, so the tree has one output redirection.
- ShellParser.ParseCmd: allocation of tree nodes succeeds.
- Grep.Run: inputs without NUL.
- Rcs.Sections.Enter: calls during boot, without a process, are left out, and the flag is within the array; the guard in the code admits one more.
- Rcs.Sections.Do: a process that arrives has a new pid, as allocpid gives it; another counts as a panic.
- Rcs.Sections.Run: a process is the holder of a recovery lock, where the code asks for the processor; fork's exception flag is left out.
- FreeList.Memory.Kfree: what the allocator does with a free list that never ends is left out, and so is the memory fault of an address the model does not know.
- FreeList.Memory.RecoverKmem: what the header of run_list holds as its own address is not fixed; no code sets it.
- FreeList.Memory.RegisterMemobj: on run_list, where its callers hold kmem->lock; growth of the other lists and multi-page my_kalloc are left out.
- Ring.Ring.Replace: of a wrong ring it is stated only that it is no ring of the expected buffers.
