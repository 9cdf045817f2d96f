# xv6e, modelled and proved in Dafny

This project models the parts of xv6e that carry its promises: the crash-safe file system, the
memory allocators, the page tables, the process protocols, pipes and the shell's parser. What the C
code changes in place is a class or an array here, and its loops are loops; each such method is
proved to compute a function on values, and the promises are proved about those functions, over all
inputs, all runs or all reachable states. `dafny verify dfyconfig.toml` checks everything.

- **Blocks**, **RedoLog**: block writes, and the on-disk redo log. A commit cut at any write, and
  recoveries cut any number of times, end all old or all new.
- **LogReservation**: how concurrent calls share the log, as a machine of steps for any number of
  processes and any log size.
- **BufferCache**, **Bio**: the buffer cache as a machine of steps, and bio.c on its doubly linked
  list. Callers of bread see the last contents stored, whatever was recycled.
- **CacheRuns**: whole runs of the cache. Buffers are recycled least recently used first, and
  references and locks add up.
- **LogDriver**: log.c running on bio.c. The writes that really reach the disk are the crash-atomic
  ones; when a commit can get its buffers is stated exactly.
- **LogSystem**: cache, counters and log together over time. After any run with any number of
  transactions, readers and crashes, a crash leaves the last committed contents.
- **LogLimits**: runs from boot to the limits of log and cache, and what an overrun commit destroys.
- **Fs**, **FileWrite**, **FsDriver**: bitmap, block map, inodes, and the chunked filewrite. Files
  are flat byte sequences, every block has one owner, and every chunk fits the log reservation.
- **FsRoom**: when bmap, writei and filewrite run out of blocks, counted from the bitmap.
- **FsDisk**, **FsLog**: bitmap and inodes in their blocks, and the file system on the log. After any
  run of chunks and power failures a consistent file system is mounted, each chunk in it or not.
- **Directory**: dirlookup and dirlink on top of readi and writei, as a finite map.
- **Regions**, **Kheap**, **Umalloc**: sorted coalescing free lists, the page-range allocator of the
  kernel heap with the metadata slots its list nodes live in, and the user-level malloc.
- **Liballoc**, **LiballocBest**, **LiballocDriver**: the kernel heap's malloc and free on majors and
  minors, its best bet, and the records and pointers they are made of.
- **Vm**: page tables and the physical page allocator. Every frame has exactly one use after every
  operation, and operations fail exactly when there are too few frames.
- **SleepWakeup**, **ExitWait**: the sleep/wakeup and fork/exit/wait protocols as machines of steps,
  and the table scans of proc.c. No wakeup is lost, and no sleeper and no zombie is stuck.
- **Pipe**: the ring buffer with counters that wrap.
- **Shell**: the parser, proved to accept exactly its grammar, and the in-place termination of words.

## Where the code and a promise part

Each of these is a property the code is meant to have, does not have in general, and has exactly
under the condition the lemma states.

- The guard of log_write reads the counters without log.lock. With the LOGSIZE log blocks that
  mkfs.c:33 makes, a call within its reservation can be stopped by the guard, and two calls can pass
  it together and overrun the log. Both are impossible exactly for a log of more than LOGSIZE
  blocks (`ReservationSufficesIff`, `AlwaysFitsIff`). A run from boot gets there, and the commit then
  destroys the block behind the log (`OverrunReached`, `OverrunTearsIff`, `OverrunLoses`).
- The guard comes before absorption, so a transaction at its limit rejects a block it already holds.
  Re-logging is always safe only in a log too small to hold anything; in a given state it passes
  exactly while lh.n is below both limits (`AbsorptionSafeIff`, `RelogPassesIff`).
- NBUF and LOGSIZE are both 30. A commit with no reader about finds buffers exactly when its
  transaction has fewer than NBUF blocks; a run from boot ends in one with NBUF, where every buffer
  is dirty and bget panics (`CommitFindsIff`, `CommitStart`, `CommitCanRunOut`).
- A file system without free blocks panics. bmap, writei and filewrite do so exactly when the bitmap
  has fewer clear bits than the blocks they lack (`BmapRoom`, `WriteiRoom`, `FilewriteRoom`).
- The chunk size of filewrite is right because files have no holes: ten blocks are reached, and eleven
  would be if the unaligned first block of a chunk were missing (`BoundIsTight`, `HoleOverruns`).
- The metadata pages under the kernel heap hand out the slot their counter names and only count
  down when a slot is recycled, as the comment at vm/kheap.c:62-64 says. The heap stays partitioned
  exactly as long as no call is handed a slot that is still on the free list (`PartitionIff`); the
  counters name unused slots exactly as long as every recycled slot is the top one of its page
  (`TidyIff`). Allocating one page and freeing it, twice, already destroys the list (`FourCalls`).
- kill() does not look at the state of a slot, and allocproc does not clear the mark it leaves. It
  marks a process exactly when one has the pid, and a later process is born marked only after a kill
  of a pid that no process has, or a fork given up after a kill (`KillReaches`, `UnmarkedIff`,
  `KilledIff`, `KillZero`, `KilledEmbryo`).
- Rounding a request up wraps at 2^32 in umalloc.c:69 and vm/liballoc.c:192-193, and the argument
  of sbrk is a signed 32-bit number (`RoomIff`, `PagesForIff`, `SbrkArgIff`).
- The inode number of a directory entry has 16 bits, and 0 marks an empty entry (`InumKept`).
- The comment at vm/liballoc.c:90 calls l_bestBet the major with the most free memory. The search
  compares majors before the request is placed, and a free looks at one major only, so three requests
  already leave it elsewhere (`BestBetStale`). Before each call the free bytes of the majors decide
  whether it is right afterwards (`FreeMostFreeIff`, `RequestMostFreeIff`).
- sh.c:388-393 treats `>>` like `>`: the file is not appended to, and a line means the same with `>`
  for every `>>` (`AppendIsTruncate`). A command after `&` needs a `;` in between; the grammar the
  parser accepts, and no more, is the one stated in Shell.dfy (`LanguageIff`).

## Model

| member | source | states |
|---|---|---|
| `Blocks.WordRoundTrip` | log.c:86-113 | A 4-byte word stored in a block reads back, and no other word of the block changes. |
| `Blocks.ApplyDistinct` | log.c:70-82 | After a run of block writes a block holds what the last write to it carried. |
| `RedoLog.HeadRoundTrip` | log.c:86-113 | The block numbers that write_head puts into the header block are the ones read_head takes out of it. |
| `RedoLog.InstallKeeps` | log.c:70-82 | Any prefix of the writes of install_trans leaves the log area and what the log still owes as they were, so installing can be repeated. |
| `RedoLog.InstallPays` | log.c:70-82 | All of the writes of install_trans bring every logged block home. |
| `RedoLog.ClearKeeps` | log.c:116-122 | Clearing the header of a fully installed log leaves nothing owed. |
| `RedoLog.CutKeepsPromise` | log.c:116-122 | A recovery cut after any number of its writes still owes, or has delivered, the same contents. |
| `RedoLog.RecoverDelivers` | log.c:116-122 | A recovery that completes delivers exactly the promised home blocks and leaves an empty log. |
| `RedoLog.PromiseSurvives` | log.c:116-122 | However many recoveries are cut short, the one that completes delivers the promise. |
| `RedoLog.LogWritesEffect` | log.c:178-190 | Any prefix of write_log changes only log blocks behind the header, and those hold the cached data. |
| `RedoLog.BeforeCommitPoint` | log.c:193-202 | Until the header is written the disk promises the old contents. |
| `RedoLog.AtCommitPoint` | log.c:193-202 | The header write turns the promise into the new contents, in one block write. |
| `RedoLog.CommitShape` | log.c:193-202 | commit() is write_log, one header write, and then the very writes of a recovery. |
| `RedoLog.CommitPrefix` | log.c:193-202 | The disk after the first k writes of commit(), for every k: a prefix of write_log, or the commit point followed by a prefix of a recovery. |
| `RedoLog.CrashAtomicity` | log.c:193-202 | Stop commit() after any number of block writes and cut any number of recoveries anywhere: the recovery that completes leaves all home blocks old if the first header write had not reached the disk, and all new otherwise, with an empty log. |
| `RedoLog.CommitCompletes` | log.c:193-202 | An uninterrupted commit installs the whole transaction and empties the log. |
| `LogReservation.InitialInv` | log.c:54-66 | The log starts idle and empty with nothing reserved. |
| `LogReservation.EndKeepsInv` | log.c:146-174 | end_op hands the log over to one committer exactly when the last call leaves, and keeps the accounting. |
| `LogReservation.AppendKeepsInv` | log.c:214-233 | log_write absorbs a logged block or appends a new one at the cost of one unit of the caller's reservation; logged numbers stay distinct. |
| `LogReservation.StepKeepsInv` | log.c:125-233 | Every step of begin_op, log_write, end_op and commit keeps: lh.n plus all unspent reservations at most LOGSIZE, logged blocks distinct, committing implies outstanding == 0, and an idle log is empty. |
| `LogReservation.RunKeepsInv` | log.c:125-233 | The same over every run. |
| `LogReservation.ReachableInv` | log.c:125-233 | The same in every reachable state, for any number of processes and any log size. |
| `LogReservation.BeginIff` | log.c:126-141 | In every reachable state begin_op lets a call in exactly when nobody commits and the logged blocks, ten for every call under way and ten more are at most LOGSIZE; it then adds that one call and changes nothing else. |
| `LogReservation.EndNeverPanics` | log.c:146-174 | The panic of end_op about log.committing can never happen. |
| `LogReservation.WaitersGetIn` | log.c:126-141 | From every state with no log_write half done there is a run of end_op and commit steps after which a waiting begin_op is admitted. |
| `LogReservation.Race` | log.c:214-220 | For every log of 2 to LOGSIZE blocks, two calls that read the guard of log_write before either takes the lock overrun the log area by one block. |
| `LogReservation.AlwaysFitsIff` | log.c:214-220 | The transaction always fits behind the header exactly when the log area has more than LOGSIZE blocks, or a single one (nothing can be logged). |
| `LogReservation.ReservationSufficesIff` | log.c:214-220 | A call with reservation left is never stopped by "too big a transaction" exactly when the log area has more than LOGSIZE blocks; mkfs makes it LOGSIZE. |
| `LogReservation.AbsorptionCanPanic` | log.c:214-230 | In every log that can hold a block, three calls within their reservations reach a state in which re-logging a logged block is stopped by the guard, which precedes absorption. |
| `LogReservation.AbsorptionSafeIff` | log.c:214-230 | Re-logging a logged block always passes the guard exactly in a log of at most one block, where nothing is ever logged. |
| `LogReservation.RelogPassesIff` | log.c:214-230 | In every reachable state a re-log passes exactly while lh.n is below LOGSIZE and below log.size - 1; in a log of more than LOGSIZE blocks, a reservation left to any call is enough. |
| `BufferCache.FindFrom` | bio.c:69-76 | A buffer with the tag, or none when no buffer of the list has it. |
| `BufferCache.FindFirst` | bio.c:69-76 | The buffer found is the first one in list order with the tag. |
| `BufferCache.VictimAmong` | bio.c:81-91 | A buffer that is neither referenced nor dirty, or none when there is none. |
| `BufferCache.VictimLast` | bio.c:81-91 | The buffer recycled is the least recently released one: every buffer behind it in the list is referenced or dirty. |
| `BufferCache.GetKeepsInv` | bio.c:62-93 | bget keeps at most one buffer for each block of a real device and recycles only a clean, unreferenced buffer. |
| `BufferCache.BwriteKeepsInv` | bio.c:110-116 | bwrite keeps the invariant: a clean valid buffer agrees with the disk. |
| `BufferCache.ReleaseKeepsInv` | bio.c:121-141 | brelse keeps the invariant and the list a permutation of the buffers. |
| `BufferCache.ReleaseOrder` | bio.c:128-139 | A release of the last reference puts the buffer at the front of the list and keeps the order of all others; any other release leaves the list as it was. |
| `BufferCache.StepKeepsInv` | bio.c:61-141 | Every step of bget, bread, log_write, bwrite and brelse keeps the cache invariant. |
| `BufferCache.HolderSeesView` | bio.c:97-106 | What bread hands out is the current contents of the block. |
| `BufferCache.StepView` | bio.c:61-141 | Only a holder's own change alters what any block shows; filling, logging, writing back, releasing and recycling are invisible. |
| `BufferCache.StepMem` | bio.c:61-141 | The same for all blocks at once. |
| `BufferCache.Transparent` | bio.c:61-141 | After any interleaving in which changed buffers are logged or written before release, each block shows the last contents stored for it, whatever was recycled. |
| `BufferCache.DirtyStays` | bio.c:81-91 | A dirty buffer keeps its block and its flag through every step but its own bwrite: it is never recycled. |
| `CacheRuns.RecentFirst` | bio.c:128-139 | After any run, of two buffers the one nearer to the front of the list was released later; buffers never released keep their first order behind the others. |
| `CacheRuns.VictimOldest` | bio.c:78-91 | After any run a block that is not cached gets, of the buffers nobody refers to and that are not dirty, the one released longest ago; it gets none exactly when there is no such buffer. |
| `CacheRuns.RefsAddUp` | bio.c:62-141 | Over any run a buffer is referred to once for every bget that ended at it and has not been released. |
| `CacheRuns.LocksAddUp` | bio.c:62-141 | Over any run the sleep lock of a buffer is held exactly when it was taken once more than it was released, and never twice. |
| `Bio.Unlink` | bio.c:132-133 | Unhooking a buffer from the doubly linked list leaves the links of the remaining list right, in both directions. |
| `Bio.InsertFront` | bio.c:134-137 | Hooking a buffer in at the head keeps both link directions right. |
| `Bio.BreadEffect` | bio.c:97-106 | bget, the sleep lock and a read of a buffer not yet valid give a locked, valid buffer with the current contents of the block, and change no other buffer and no contents. |
| `Bio.BCache.constructor` | bio.c:39-56 | binit builds a list of all NBUF buffers, none tagged, referenced or dirty, that shows the disk found at boot. |
| `Bio.BCache.InsertHead` | bio.c:134-137 | The links describe the list with the buffer in front. |
| `Bio.BCache.Remove` | bio.c:132-133 | The links describe the list without the buffer. |
| `Bio.BCache.Bget` | bio.c:62-93 | The two list walks find the tagged buffer, or else the least recently released free clean one, or none (the panic), and update just that buffer. |
| `Bio.BCache.Lookup` | bio.c:69-76 | The first walk, from the head, ends at the first buffer tagged with the block, or at the list head. |
| `Bio.BCache.Victim` | bio.c:81-91 | The second walk, from the tail, ends at the first buffer that is unreferenced and clean, or at the list head. |
| `Bio.BCache.ReadBlock` | memide.c:39-60 | A read fills the buffer from the disk and sets B_VALID. |
| `Bio.BCache.WriteBlock` | bio.c:110-116 | bwrite puts the buffer on disk as one more write of the trace, clears B_DIRTY and keeps the cache valid. |
| `Bio.BCache.MarkDirty` | log.c:231 | log_write pins the buffer by B_DIRTY. |
| `Bio.BCache.Brelse` | bio.c:121-141 | brelse unlocks and drops one reference; a buffer left without any comes to the front of the list and the others keep their order; otherwise the list is as it was. |
| `Bio.BCache.Bread` | bio.c:97-106 | The buffer comes back locked and valid with the block's current contents, its reference count one higher, everything else unchanged. |
| `LogDriver.PinnedCount` | log.c:193-202 | With the transaction's blocks pinned in the cache, the dirty buffers are no more than those blocks. |
| `LogDriver.PickSucceeds` | bio.c:81-92 | bget finds a buffer whenever fewer than NBUF are dirty or held. |
| `LogDriver.PinnedExactly` | log.c:193-202 | One dirty buffer for each block of the transaction, no more and no fewer. |
| `LogDriver.CommitFindsIff` | log.c:178-190 | When commit() starts with nobody holding a buffer, bread of a log block finds one exactly when the transaction has fewer blocks than the cache has buffers. |
| `LogDriver.TransferEffect` | log.c:74-81 | memmove, bwrite and the two brelse calls of a copy change exactly the destination block and leave both buffers released and clean. |
| `LogDriver.CopyBlock` | log.c:70-82 | One round of install_trans or write_log puts the contents of one block into another, on disk and in what the cache shows, as one disk write, when a buffer can be had. |
| `LogDriver.LogNth` | log.c:178-190 | No round of write_log disturbs what a later round reads. |
| `LogDriver.InstallNth` | log.c:70-82 | No round of install_trans disturbs what a later round reads. |
| `LogDriver.CommitComposes` | log.c:193-202 | The writes the code makes through the cache in its four phases are the write sequence analysed for crashes. |
| `LogDriver.TraceSurvives` | log.c:193-202 | Cut the disk writes of a run that ends in a commit anywhere inside that commit, and recover any number of times: the outcome is all old or all new. |
| `LogDriver.Log.WriteHead` | log.c:102-113 | write_head makes one disk write, of the header block with lh, and keeps the pins. |
| `LogDriver.Log.FillHead` | log.c:102-113 | The copying loop produces the encoded header. |
| `LogDriver.Log.WriteLog` | log.c:178-190 | write_log makes exactly the log writes of the transaction, in order. |
| `LogDriver.Log.CopyHome` | log.c:74-81 | One round of install_trans writes one home block from its log block and unpins it. |
| `LogDriver.Log.InstallTrans` | log.c:70-82 | install_trans makes exactly the install writes, in commit and in recovery, and leaves nothing pinned. |
| `LogDriver.Log.Commit` | log.c:193-202 | commit() leaves every home block as the transaction has it, an empty log and no pinned buffer. |
| `LogDriver.Log.CommitAtomically` | log.c:193-202 | The disk writes that commit() really makes through the buffer cache are crash atomic: every cut, followed by any number of cut recoveries, ends all old or all new. |
| `LogDriver.Log.ReadHead` | log.c:86-96 | read_head leaves in lh the block numbers the header block names. |
| `LogDriver.Log.RecoverFromLog` | log.c:116-122 | Recovery installs what the header on disk names and clears it. |
| `LogDriver.Log.TryBegin` | log.c:126-141 | begin_op admits exactly when no commit runs and lh.n and ten blocks for each outstanding call and one more fit LOGSIZE, and then counts the call; this is the step of the reservation machine. |
| `LogDriver.Log.PassesGuard` | log.c:214-220 | The guard of log_write passes exactly when lh.n is below LOGSIZE and below the log size less one and a call is outstanding; this is the step of the reservation machine. |
| `LogDriver.Log.Append` | log.c:223-232 | A block that is logged already leaves lh as it is and another one goes to its end; this is the step of the reservation machine. |
| `LogDriver.Log.End` | log.c:146-174 | end_op gives up one call, and the last one out is told to commit and sets committing; this is the step of the reservation machine. |
| `LogSystem.NextWriteIs` | log.c:178-202 | What each round of commit() copies out of the cache is the next write of the sequence analysed for crashes. |
| `LogSystem.RecoveredDelivers` | log.c:116-122 | However often recovery is cut short, the one that completes delivers the promise and empties the log. |
| `LogSystem.TouchPinned` | bio.c:62-141 | Nothing a reader or a call does in the cache unpins a logged block or pins another one. |
| `LogSystem.EndReady` | log.c:146-174 | When the last call ends, nothing in the cache is unsaved, the cache differs from the disk only at the logged blocks, and the log can hold them. |
| `LogSystem.EndFits` | log.c:146-174 | In a log of more than LOGSIZE blocks the transaction of every run fits when the last call ends. |
| `LogSystem.FlushKeeps` | log.c:178-202 | Every write of commit() keeps the correspondence of disk, cache and pins with the first k writes, while readers go on. |
| `LogSystem.PromisedNow` | log.c:193-202 | At every moment the disk promises the saved contents. |
| `LogSystem.CrashNow` | log.c:116-122 | A crash at any moment, with any recoveries cut short, ends with the saved contents and an empty log. |
| `LogSystem.StepKeeps` | log.c:116-233 | Every step of calls, readers, the committer and a crash keeps the invariant of cache, counters and log. |
| `LogSystem.CrashSafe` | log.c:116-233 | After any run from boot, with any number of transactions, processes, readers and earlier crashes, a crash leaves exactly the contents of the last transaction whose header was written; with no call active and no commit running these are all changes made. |
| `LogSystem.CommitStart` | log.c:193-202 | In every run a commit starts with exactly the logged blocks pinned and an empty log on disk; with no reader about it finds buffers exactly when the transaction is smaller than the cache. |
| `LogLimits.CommitCanRunOut` | log.c:178-190 | NBUF equals LOGSIZE: with a log of more than LOGSIZE blocks a run from boot, of three calls within their reservations, ends in a commit of NBUF blocks whose first bread of a log block finds no buffer. |
| `LogLimits.LogOne` | log.c:215-233 | An active call with reservation left can log a new block whenever the pinned buffers do not fill the cache, and only that changes. |
| `LogLimits.CommitFinishes` | log.c:178-202 | From any reachable state with a commit under way, no reader about and a transaction smaller than the cache, some steps finish the commit and open the log; then the disk holds outside the log what the cache showed when the commit began. |
| `LogLimits.OverrunReached` | log.c:219-230 | In a log of 2 to LOGSIZE blocks a run from boot, in which two calls pass the guard together, ends before a commit of as many blocks as the log area has, one more than fit. |
| `LogLimits.SpillsOver` | log.c:178-190 | Once the commit of an overrun has made as many writes as the log area has blocks, the block behind the area holds the contents of a logged block. |
| `LogLimits.NeverRepaired` | log.c:70-122 | Recoveries, cut short any number of times, leave a block that the header does not name as they find it. |
| `LogLimits.OverrunTearsIff` | log.c:178-202 | After the commit of an overrun is cut anywhere and recovered, the block behind the log area has the contents that are both old and new exactly when fewer writes than the area has blocks were made, or the spilled contents are the same. |
| `LogLimits.OverrunLoses` | mkfs.c:33-33 | With the log mkfs makes, and whatever the block behind it holds, a run from boot ends before a commit that replaces it by any given contents for good. |
| `Fs.FirstFree` | fs.c:57-78 | The lowest clear bit of the bitmap, or none. |
| `Fs.BmapEffect` | fs.c:373-400 | bmap returns the block of that file slot, owned by it alone; every file keeps its blocks and contents. |
| `Fs.BmapAllocates` | fs.c:373-400 | bmap allocates nothing when the block is there; otherwise it takes one free block, zeroed, and one more for a missing indirect block, and changes no other bit. |
| `FsRoom.BmapRoom` | fs.c:373-400 | bmap panics exactly when the bitmap has fewer clear bits than the blocks it must allocate: none, one for the block, or two with its indirect block; otherwise it uses up exactly that many. |
| `FsRoom.WriteiRoom` | fs.c:482-511 | writei panics exactly when it accepts the call and the clear bits are fewer than the missing blocks of the range and a missing indirect block; otherwise it uses up exactly those. |
| `FsRoom.FilewriteRoom` | file.c:118-156 | filewrite panics exactly when the clear bits are fewer than the missing blocks of what it gets to, which is all of the buffer or the whole chunks that end below the largest file; otherwise it writes exactly that much. |
| `Fs.StoreEffect` | fs.c:499-503 | Storing into a file block changes those bytes of that file and nothing else. |
| `Fs.WriteLoopEffect` | fs.c:498-504 | The loop of writei puts the bytes at the offset across direct and indirect blocks, keeps the rest of the file and all other files, keeps one-to-one ownership and leaves no hole. |
| `Fs.InsideWrite` | fs.c:498-509 | A write inside the file maps nothing new, so leaving out iupdate loses no block. |
| `Fs.WriteiSplices` | fs.c:482-511 | writei rejects exactly offsets past the end and files past MAXFILE blocks, changing nothing; otherwise it splices the n bytes in at the offset, grows the file, changes no other file, and keeps ownership, the absence of holes and the on-disk inodes. |
| `Fs.ReadLoopEffect` | fs.c:469-474 | The loop of readi returns the bytes of the file at the offset and allocates nothing. |
| `Fs.ReadiSlices` | fs.c:453-476 | readi returns the slice asked for, cut at the end of the file, rejects exactly offsets past the end or wrapping, and changes nothing. |
| `Fs.ReadAfterWrite` | fs.c:453-511 | What writei stored is what readi returns. |
| `Fs.FreeEntriesEffect` | fs.c:424-427 | The loop over the indirect block frees each block it names once. |
| `Fs.TruncDirectEffect` | fs.c:414-419 | The loop over the direct blocks frees each of them once. |
| `Fs.TruncIndirectEffect` | fs.c:421-431 | The indirect block and all it names are freed once. |
| `Fs.ItruncEffect` | fs.c:408-435 | itrunc never hits "freeing free block"; it clears exactly the bits of the blocks the file owned, empties it in memory and on disk, and keeps every other file and the ownership. |
| `FileWrite.RoundLogged` | fs.c:498-504 | A round of writei dirties at most a data block, a bitmap block and, once, the indirect block and its bitmap block. |
| `FileWrite.ChunkFits` | file.c:133-152 | Every chunk of filewrite, at any offset of any file and wherever its blocks get allocated, dirties at most MAXOPBLOCKS blocks. |
| `FileWrite.ChunkBound` | file.c:133-152 | In any state, holes or not, a chunk dirties at most MAXOPBLOCKS blocks, and one more only when its unaligned first block is missing. |
| `FileWrite.BoundIsTight` | file.c:133-152 | In a state with one owner for every block and no holes, some chunk dirties exactly MAXOPBLOCKS blocks. |
| `FileWrite.HoleOverruns` | file.c:133-152 | With one owner for every block and only the unaligned first block of the chunk missing, some chunk dirties MAXOPBLOCKS + 1 blocks: the bound relies on files having no holes. |
| `FileWrite.ChunkLands` | file.c:139-143 | A chunk that fits below MAXFILE blocks is spliced in whole. |
| `FileWrite.FilewriteEffect` | file.c:118-156 | What filewrite gets into the file is a prefix of the buffer, spliced in at the offset, with no other file changed; it returns n exactly when the whole buffer fits below MAXFILE blocks. |
| `FsDisk.BitRoundTrip` | fs.c:63-73 | The bit that balloc tests in a bitmap block is the one the bitmap has for the block. |
| `FsDisk.DinodeRoundTrip` | fs.c:220-236 | The addresses and sizes iupdate puts into an inode block are the ones ilock takes out of it. |
| `FsDisk.WriteTracks` | fs.c:477-512 | writei logs every block of the disk that it changes: data, indirect, bitmap and inode blocks. |
| `FsDisk.TruncTracks` | fs.c:408-436 | itrunc logs every block of the disk that it changes. |
| `FsDisk.ImageFrame` | fs.c:477-512 | A block of the disk that was not logged is the same before and after. |
| `FsDisk.WritePlaced` | fs.c:477-512 | Everything writei logs is an inode block, a bitmap block or a data block, never the boot block, the super block or the log. |
| `FsDisk.MountImage` | fs.c:288-312 | Mounting the disk that a consistent file system makes gives back its bitmap, inodes and data. |
| `FsDisk.AlikeInv` | fs.c:288-312 | What was mounted meets the invariant and has the same files, byte for byte. |
| `FsLog.ChunkLoggable` | file.c:133-152 | The log can take the transaction of every chunk of filewrite. |
| `FsLog.PutGood` | file.c:140-145 | A chunk that commits leaves its file system on the disk and an empty log. |
| `FsLog.ChunkAtomic` | file.c:140-145 | Power fails after any write of the commit of a chunk, and recovery is cut short any number of times: what is mounted is consistent and has every file as before the chunk if its header was not written, and as after it otherwise. |
| `FsLog.CrashKeepsFiles` | log.c:116-122 | A power failure between transactions changes no file. |
| `FsLog.RunGood` | file.c:135-152 | After any run of chunks, commits cut short and power failures, the disk holds a file system in which every block has one owner and no file has holes, and the log is empty. |
| `FsLog.CutWriteLands` | file.c:118-156 | A filewrite that loses power leaves in the file a prefix of its bytes that ends where a chunk ends, and no other change. |
| `FsLog.MountsConsistent` | log.c:116-233 | In any run of the logging system with concurrent calls, if the calls of each transaction leave a consistent file system in the cache, a power failure at any point leaves a disk that mounts to a consistent one. |
| `FsLog.BlankGood` | mkfs.c:28-33 | The empty file system of mkfs, of any size that has room for a data block, is where such runs can start. |
| `FsLog.CanPutIff` | file.c:140-145 | A chunk can be written exactly when writei rejects it or the bitmap has a clear bit for every block it lacks. |
| `FsLog.FirstChunk` | file.c:140-145 | On the empty file system of mkfs the first chunk of any file can be written exactly when there are as many data blocks as it needs. |
| `FsDriver.FileSystem.constructor` | fs.c:172-186 | The object starts from the given file system. |
| `FsDriver.FileSystem.Balloc` | fs.c:57-78 | The block-wise bitmap scan takes the lowest free block, marks it and zeroes it, or panics when there is none. |
| `FsDriver.FileSystem.Bfree` | fs.c:82-95 | Clears the bit of a block in use; a clear bit is the panic. |
| `FsDriver.FileSystem.MapAddr` | fs.c:376-398 | One address of an inode or its indirect block is found or allocated, as the slot map says. |
| `FsDriver.FileSystem.MapBlock` | fs.c:373-400 | bmap on direct and indirect blocks gives the block the slot map gives. |
| `FsDriver.FileSystem.WriteBytes` | fs.c:498-504 | The loop of writei computes the block-by-block write whose effect is the splice. |
| `FsDriver.FileSystem.WriteInode` | fs.c:482-511 | writei, with its 32-bit checks, computes the function whose effect is the splice. |
| `FsDriver.FileSystem.ReadInode` | fs.c:453-476 | readi, with its 32-bit checks, computes the function whose result is the slice. |
| `FsDriver.FileSystem.ReadBytes` | fs.c:469-474 | The loop of readi. |
| `FsDriver.FileSystem.FreeDirect` | fs.c:414-419 | The first loop of itrunc. |
| `FsDriver.FileSystem.FreeIndirect` | fs.c:424-427 | The second loop of itrunc. |
| `FsDriver.FileSystem.Truncate` | fs.c:408-435 | itrunc computes the function whose effect is the truncation. |
| `FsDriver.FileSystem.WriteChunk` | file.c:139-142 | One transaction of filewrite starts with an empty log share. |
| `FsDriver.FileSystem.WriteFile` | file.c:118-156 | The chunk loop of filewrite computes the function whose effect is the landed prefix; the result is n or -1. |
| `Directory.PadRoundTrip` | string.c:69-79 | A name stored in an entry reads back cut at DIRSIZ bytes. |
| `Directory.Strncmp` | string.c:59-66 | The comparison is zero exactly when the name, cut at DIRSIZ bytes, is the one in the entry. |
| `Directory.Strncpy` | string.c:69-79 | The field is the name cut at DIRSIZ bytes and padded with zeros. |
| `Directory.DecodeEncode` | fs.c:572-573 | An entry reads back with its name cut at DIRSIZ bytes and its inode number cut at 16 bits. |
| `Directory.InumKept` | fs.c:572-573 | An entry is live with the given inode number exactly when that number is not zero and fits 16 bits. |
| `Directory.HitMap` | fs.c:525-548 | With unique names, a live entry is the map's value for its name. |
| `Directory.MissMap` | fs.c:525-548 | A name without a live entry is not in the map. |
| `Directory.LinkMap` | fs.c:552-578 | Reusing an empty slot and appending both add just that name to the map (or nothing for inode number 0) and keep names unique. |
| `Directory.SpliceEntry` | fs.c:572-575 | The write of one entry changes that entry only. |
| `Directory.ReadsEntry` | fs.c:533-535 | The readi of an entry gives that entry and changes nothing. |
| `Directory.WritesEntry` | fs.c:572-575 | The writei of an entry makes the directory's map gain the name, and changes no other file. |
| `Directory.ReuseWorks` | fs.c:572-575 | Writing over an entry that is there never fails. |
| `Directory.Dirlookup` | fs.c:525-548 | dirlookup answers as the finite map from cut names to inode numbers does, with the offset of the live entry, and changes nothing. |
| `Directory.FindEmpty` | fs.c:565-570 | The offset of the first empty entry, or of the end. |
| `Directory.Dirlink` | fs.c:552-578 | dirlink returns -1 and changes nothing when the cut name is there; otherwise the map gains the name with the low 16 bits of the inode number, other names and all other files are untouched; the panic happens exactly when no entry is empty and the directory is at the largest size or the bitmap has too few clear bits for the blocks it lacks. |
| `Regions.InsertKeeps` | vm/kheap.c:162-213 | Inserting a region that overlaps none keeps the free list ordered, disjoint and fully coalesced, and adds exactly its size. |
| `Regions.InsertCovers` | vm/kheap.c:162-213 | Afterwards the list covers what it covered before and the new region, nothing else. |
| `Regions.TakeKeeps` | vm/kheap.c:104-124 | Taking n units off a region keeps the list ordered, disjoint and coalesced and removes exactly n. |
| `Regions.TakeCovers` | vm/kheap.c:104-124 | What the list covered is covered by the new list and the region handed out, disjointly. |
| `Regions.InsertHere` | vm/kheap.c:174-210 | Insertion at a position: the region below is extended, or a new one is placed; either swallows the one above when they touch. |
| `Regions.FirstFit` | vm/kheap.c:103-104 | The first region that is large enough, or none. |
| `Regions.FailsIff` | vm/kheap.c:95-152 | The search fails exactly when no region is large enough. |
| `Regions.AllocateKeeps` | umalloc.c:64-90 | An allocation keeps free and used regions disjoint, covering exactly what was obtained, with sizes adding up. |
| `Regions.ReleaseKeeps` | umalloc.c:25-44 | A release keeps the same. |
| `Regions.GrowKeeps` | umalloc.c:47-61 | Obtaining a new region keeps the same. |
| `Regions.RunKeeps` | umalloc.c:25-90 | Any run of allocations, releases and new regions keeps the same. |
| `Regions.Partition` | umalloc.c:25-90 | Every unit obtained is free or in use, never both, and no other unit is either. |
| `Kheap.TakeAt` | vm/kheap.c:108-124 | Taking pages by position: the node goes when it is used up, or its front is carved off. |
| `Kheap.NewSlotKeeps` | vm/kheap.c:11-47 | Handing out an unused slot keeps every counter equal to the number of live slots of its page. |
| `Kheap.RecycleKeeps` | vm/kheap.c:54-86 | Recycling a live slot keeps the same, and a page is given back only when none of its slots is live. |
| `Kheap.AllocEncodes` | vm/kheap.c:105-124 | The pointer writes of an allocation leave a linked list that is the free list with the pages taken. |
| `Kheap.FreeEncodes` | vm/kheap.c:174-210 | The pointer writes of a free leave a linked list that is the free list with the range inserted, when the node handed out is unused. |
| `Kheap.FreeLoses` | vm/kheap.c:188-199 | When the node handed out is one of the list, no walk of the list meets the pages of its old range any more. |
| `Kheap.KHeap.constructor` | vm/kheap.c:232-252 | One free range covers the kernel heap, with its node in slot 0 of the first metadata page. |
| `Kheap.KHeap.GetRegion` | vm/kheap.c:11-47 | The slot that the counter of the first metadata page with room names, or slot 0 of a new page. |
| `Kheap.KHeap.Recycle` | vm/kheap.c:54-86 | The counter goes down, and the page goes when it reaches 0. |
| `Kheap.KHeap.Alloc` | vm/kheap.c:95-152 | First fit over the linked list in memory: the front of the first range that is large enough, its node recycled when used up; or 0 with nothing changed when there is none. |
| `Kheap.KHeap.MergeNext` | vm/kheap.c:204-210 | A range swallows the next one exactly when they touch, and the node is recycled. |
| `Kheap.KHeap.Find` | vm/kheap.c:174-180 | The address-sorted position of the freed range. |
| `Kheap.KHeap.Release` | vm/kheap.c:162-213 | The memory it writes, for every call; the list becomes the free list with the range inserted and coalesced on both sides unless the node handed out is in use; null or zero pages give -1 and change nothing. |
| `Kheap.ClashTears` | vm/kheap.c:188-199 | A call that is handed a node in use destroys the partition of the heap. |
| `Kheap.PartitionIff` | vm/kheap.c:95-252 | Over every run from kheap_init, every page is on the list or handed out, not both, exactly when no call that links a new node in finds the slot its counter names on the free list. |
| `Kheap.TidyIff` | vm/kheap.c:11-86 | Over every run the live slots of each page are its first ones exactly when every recycled slot is the top one of its page, and then no call is handed a node in use. |
| `Kheap.FourCalls` | vm/kheap.c:95-213 | Allocating one page and freeing it, twice, leaves a list of one page that points at itself, so a search for two pages never ends. |
| `Kheap.HeapRun` | vm/kheap.c:95-252 | As long as no call is handed a node in use, free ranges are ordered with a gap between neighbours, the sizes add up, and every counter of a metadata page is the number of its live slots. |
| `Umalloc.LinkUpPath` | umalloc.c:33-37 | The first half of free() makes the block head the blocks above it, swallowing the first when they touch. |
| `Umalloc.PointDown` | umalloc.c:38-42 | The second half links the block behind the one below it. |
| `Umalloc.SwallowDown` | umalloc.c:38-40 | Or the block below swallows it. |
| `Umalloc.FreeRing` | umalloc.c:25-44 | free() leaves one ring through base and the free blocks in address order, with the block inserted and coalesced on both sides, and freep in the ring. |
| `Umalloc.StopsIff` | umalloc.c:30-32 | The search of free() stops at a header exactly when the block belongs right after it. |
| `Umalloc.FindPlace` | umalloc.c:30-32 | The search of free() ends, from wherever freep is, at the header after which the block belongs. |
| `Umalloc.TakeWhole` | umalloc.c:76-77 | A block handed out whole leaves the ring. |
| `Umalloc.TakeTail` | umalloc.c:78-82 | Otherwise its tail is handed out with a header of its own and the rest stays in the ring. |
| `Umalloc.CarveRing` | umalloc.c:75-85 | Either way the ring is the free list without the units handed out. |
| `Umalloc.NextFitNone` | umalloc.c:74-89 | The search of malloc fails exactly when every block is too small. |
| `Umalloc.Search` | umalloc.c:74-89 | One trip round the ring finds the first block after freep that is large enough and the header before it, or tells that there is none. |
| `Umalloc.RoomIff` | umalloc.c:69 | The units computed hold nbytes after the header exactly when nbytes is at most 2^32 - 8, and then no fewer would; otherwise they hold the header only. |
| `Umalloc.SbrkArgIff` | umalloc.c:54 | The argument of sbrk is the size asked for exactly when fewer than 2^28 units are wanted. |
| `Umalloc.FreeThreads` | umalloc.c:25-44 | free() of a block in use keeps the ring, the headers of all other blocks in use, and the partition of what sbrk gave. |
| `Umalloc.CarveThreads` | umalloc.c:75-85 | malloc keeps the same. |
| `Umalloc.GrowThreads` | umalloc.c:47-61 | morecore keeps the same. |
| `Umalloc.GrownFits` | umalloc.c:86-88 | After morecore some block is large enough, so malloc calls it at most once and its loop ends. |
| `Umalloc.GrownUses` | umalloc.c:64-90 | When no block was large enough before morecore, the search then ends at the block that holds the new memory. |
| `Umalloc.UHeap.constructor` | umalloc.c:21-22 | Before the first malloc nothing is obtained. |
| `Umalloc.UHeap.Relink` | umalloc.c:33-42 | The assignments of free() in place. |
| `Umalloc.UHeap.Free` | umalloc.c:25-44 | The block is released and coalesced, freep is left at the free block below it or at base, and the heap stays valid. |
| `Umalloc.UHeap.Morecore` | umalloc.c:47-61 | At least 4096 units are obtained and freed into the ring, or 0 is returned and nothing changes. |
| `Umalloc.UHeap.TakeBlock` | umalloc.c:75-85 | The units found are handed out from the tail of the block. |
| `Umalloc.UHeap.Malloc` | umalloc.c:64-90 | The first block after freep that is large enough gives its tail; when there is none, morecore is asked once and the block its memory is in gives its tail; 0 exactly when there is none and sbrk fails; freep is left before the block used. |
| `Liballoc.FirstGapIs` | vm/liballoc.c:413-540 | The first head, middle or tail gap that is large enough, or none. |
| `Liballoc.GapBound` | vm/liballoc.c:329-346 | No gap of a major is larger than its free bytes. |
| `Liballoc.PlaceKeeps` | vm/liballoc.c:379-535 | A minor placed in a gap that is large enough keeps the minors ordered, disjoint and inside the major, and adds its size and header to the usage. |
| `Liballoc.CutKeeps` | vm/liballoc.c:672-683 | Unlinking a minor keeps them ordered, disjoint and inside, and takes its size and header off the usage. |
| `Liballoc.PtrInside` | vm/liballoc.c:21-36 | The pointer is 16-aligned; it, the requested bytes and the offset byte lie inside the minor and do not overlap; the offset fits a char and passes the test of UNALIGN. |
| `Liballoc.UnalignedPtr` | vm/liballoc.c:37-45 | UNALIGN leads from the pointer handed out back to its minor. |
| `Liballoc.FilledGood` | vm/liballoc.c:377-540 | A major with a minor added in its first large enough gap is well formed. |
| `Liballoc.PutKeeps` | vm/liballoc.c:377-540 | Adding a minor keeps: minors ordered, disjoint and inside majors, usage and both totals true sums, the words of every live minor intact, l_bestBet null or live. |
| `Liballoc.GrownKeeps` | vm/liballoc.c:186-236 | Adding a new major keeps the same. |
| `Liballoc.DropKeeps` | vm/liballoc.c:672-708 | Freeing a live minor, and releasing a major left empty, keeps the same. |
| `Liballoc.Skip` | vm/liballoc.c:342-373 | A major with too few free bytes has no gap that is large enough, so passing over it misses nothing. |
| `Liballoc.FirstFitting` | vm/liballoc.c:329-568 | The first major from a position on with a gap that is large enough, or none. |
| `Liballoc.ChoiceNone` | vm/liballoc.c:312-568 | A new major is asked for exactly when no head, middle or tail gap of any major is large enough, wherever the search starts. |
| `Liballoc.ServesChoice` | vm/liballoc.c:312-340 | A request goes into the first major with a large enough gap, counted from l_bestBet on and round again when that has more than enough free bytes, and from the root otherwise; into a new one exactly when no major has such a gap. |
| `Liballoc.PagesForIff` | vm/liballoc.c:191-204 | The pages asked for hold both headers and the block exactly when the 32-bit sum does not wrap; they are then the fewest that do, but at least 16. |
| `Liballoc.FreshFits` | vm/liballoc.c:186-236 | A new major has room for the request that caused it. |
| `Liballoc.MagicIsLive` | vm/liballoc.c:617-662 | A header word that reads the magic number belongs to a live minor. |
| `Liballoc.BytesApart` | vm/liballoc.c:242-585 | Two live allocations never share a byte and their pointers are 16-aligned. |
| `Liballoc.FreeUndoesMalloc` | vm/liballoc.c:595-718 | Freeing what malloc just returned gives back the majors and totals it started from. |
| `Liballoc.DoubleFree` | vm/liballoc.c:617-662 | A second free of a pointer meets the dead magic number, unless the whole major was given back. |
| `Liballoc.BetterRoom` | vm/liballoc.c:699-708 | After a free the best bet has at least the free bytes of the best bet before and of the major freed into. |
| `Liballoc.SearchTrue` | vm/liballoc.c:312-340 | The search leaves l_bestBet null or at a live major, and before the request is placed no major it visited has more free bytes. |
| `Liballoc.BestLive` | vm/liballoc.c:242-585 | After every kheap_malloc l_bestBet is null or a live major. |
| `LiballocBest.BeatsIff` | vm/liballoc.c:312-340 | The search ends with l_bestBet at the major it found exactly when that major has more free bytes than every other one compared, or as many and was the best bet already. |
| `LiballocBest.FreeMostFreeIff` | vm/liballoc.c:688-709 | After a free l_bestBet is the major with the most free memory exactly when there is a best bet before and no other major has more free bytes than both it and the major freed into will have; or, when the major goes back, exactly when it is the only one, or it is not the best bet and none of the others has more than that. |
| `LiballocBest.RequestMostFreeIff` | vm/liballoc.c:312-585 | After a request l_bestBet is the major with the most free memory exactly under a condition on the free bytes before it: of the major that will serve it, of those compared on the way and of the others, or of the new pages. |
| `LiballocBest.BestBetStale` | vm/liballoc.c:90-90 | Three requests from an empty heap leave l_bestBet at a major with 400 free bytes beside one with 5456; a fourth looks at both and leaves it at one with 100 beside one with 400. |
| `Liballoc.MallocSettles` | vm/liballoc.c:242-585 | Every kheap_malloc keeps the heap well formed. |
| `Liballoc.NextSettles` | vm/liballoc.c:242-718 | Every malloc and every free of a live pointer keeps the heap well formed. |
| `Liballoc.RunSettles` | vm/liballoc.c:242-718 | The same over every run. |
| `Liballoc.SettledSound` | vm/liballoc.c:242-718 | The same properties of any one heap between calls. |
| `Liballoc.HeapRun` | vm/liballoc.c:242-718 | In every reachable heap the minors of each major are ordered, disjoint and inside it, usage and both totals are true sums, l_bestBet is null or live, and every live pointer is 16-aligned, has its bytes inside its own minor and leads back to it by UNALIGN. |
| `LiballocDriver.HookLinked` | vm/liballoc.c:379-535 | A record hooked in between two others leaves a doubly linked list with it in that place. |
| `LiballocDriver.UnhookLinked` | vm/liballoc.c:676-693 | A record unhooked leaves the doubly linked list without it. |
| `LiballocDriver.LinkShows` | vm/liballoc.c:379-535 | The pointer and count writes of malloc make memory show the heap with the minor in the first large enough gap. |
| `LiballocDriver.UnlinkShows` | vm/liballoc.c:672-680 | The pointer and count writes of free make memory show the heap without the minor. |
| `LiballocDriver.GrownShows` | vm/liballoc.c:186-236 | A new major appended by its pointers shows at the end of the list. |
| `LiballocDriver.DroppedShows` | vm/liballoc.c:686-695 | An empty major unlinked and given back leaves the list of the others. |
| `LiballocDriver.KernelHeap.constructor` | vm/liballoc.c:89-96 | The heap starts without majors. |
| `LiballocDriver.KernelHeap.PlaceFront` | vm/liballoc.c:379-427 | CASES 2 and 3: the assignments put the minor in front. |
| `LiballocDriver.KernelHeap.PlaceAfter` | vm/liballoc.c:456-520 | CASES 4.1 and 4.2: the assignments put the minor after another one. |
| `LiballocDriver.KernelHeap.Squeeze` | vm/liballoc.c:377-540 | On one major: the minor goes into the first large enough gap, or nothing changes when there is none. |
| `LiballocDriver.KernelHeap.Look` | vm/liballoc.c:329-540 | One trip around the loop: l_bestBet moves to a major with more free bytes, and a major with too few is passed over without missing a gap. |
| `LiballocDriver.KernelHeap.Pass` | vm/liballoc.c:329-569 | One walk along the next pointers ends at the first major with a large enough gap, or at the last major. |
| `LiballocDriver.KernelHeap.Search` | vm/liballoc.c:312-569 | From l_bestBet or the root to the end, and from the root again after a start at l_bestBet. |
| `LiballocDriver.KernelHeap.NewMajor` | vm/liballoc.c:186-236 | A new major is appended, or one more warning is counted. |
| `LiballocDriver.KernelHeap.Malloc` | vm/liballoc.c:242-585 | The block goes into the first large enough gap of the major chosen, or into a new major when there is none, or NULL is returned; memory, totals and l_bestBet show exactly that heap. |
| `LiballocDriver.KernelHeap.TakeOut` | vm/liballoc.c:664-680 | The minor leaves its major: totals, magic number and the pointers around it. |
| `LiballocDriver.KernelHeap.GiveBack` | vm/liballoc.c:684-697 | The empty major leaves the list, l_memRoot and l_bestBet let go of it, and its range is given back. |
| `LiballocDriver.KernelHeap.Free` | vm/liballoc.c:595-718 | A null pointer counts a warning and a header without the magic number an error, and a possible overrun exactly when its lowest byte is right, changing nothing else; otherwise exactly that minor is freed and a major left empty is given back. |
| `Vm.KallocKeeps` | vm/kalloc.c:83-95 | Taking a page keeps every frame in exactly one use. |
| `Vm.KfreeKeeps` | vm/kalloc.c:60-77 | Giving a page back keeps every frame in exactly one use. |
| `Vm.AddTableKeeps` | vm/vm.c:45-54 | A new zeroed page table keeps every frame in exactly one use and changes no mapping. |
| `Vm.MapKeeps` | vm/vm.c:62-81 | Entering a user page keeps every frame in exactly one use. |
| `Vm.UnmapStep` | vm/vm.c:343-350 | Freeing and clearing one entry unmaps that page only and keeps every frame in exactly one use. |
| `Vm.SetEntryWalk` | vm/vm.c:37-56 | A write to a table entry is seen by just the one virtual page that walks to it. |
| `Vm.VpnWalk` | vm/vm.c:37-56 | A user page is mapped at the address its table and directory positions give. |
| `Vm.WalkVpn` | vm/vm.c:37-56 | A mapped user address leads to a frame that belongs to it alone. |
| `Vm.FreedSkip` | vm/vm.c:340-342 | Passing over a whole absent page table gives what the page-by-page loop gives. |
| `Vm.FreedOne` | vm/vm.c:343-350 | One round of deallocuvm frees and unmaps one page and keeps all else. |
| `Vm.UndoKept` | vm/vm.c:309-320 | deallocuvm over the whole range after a partial allocuvm brings back all mappings. |
| `Vm.AllGone` | vm/vm.c:358-372 | freevm frees every frame of the address space, once, and nothing else. |
| `Vm.GoneRestores` | vm/vm.c:416-418 | Building part of an address space and freeing it restores the use of every frame, every user page and every mapping. |
| `Vm.CopiesStep` | vm/vm.c:399-413 | A round of copyuvm adds a page with equal contents and flags in another frame. |
| `Vm.Machine.constructor` | vm/kalloc.c:32-44 | No page has been given to the allocator. |
| `Vm.Machine.Freerange` | vm/kalloc.c:47-53 | Every page of the range becomes free. |
| `Vm.Machine.Kalloc` | vm/kalloc.c:83-95 | The head of the free list, or failure exactly when it is empty. |
| `Vm.Machine.Kfree` | vm/kalloc.c:60-77 | The page goes to the head of the free list, filled with the byte 1. |
| `Vm.Machine.WalkPgdir` | vm/vm.c:37-56 | The table that holds the entry, created empty when asked for; no mapping changes; a new directory entry has PTE_P, PTE_W and PTE_U; failure exactly when the table is missing and no page is left. |
| `Vm.Machine.MapPage` | vm/vm.c:62-81 | Just that page gets mapped, to the frame given and with every bit of perm and PTE_P, or nothing changes but perhaps a new empty table. |
| `Vm.Machine.UnmapRange` | vm/vm.c:338-351 | The loop with its 4 MB skip frees and unmaps exactly the mapped pages of the range. |
| `Vm.Machine.DeallocUvm` | vm/vm.c:330-353 | The user pages from newsz to oldsz are freed and unmapped and nothing else changes; newsz at or above oldsz does nothing. |
| `Vm.Machine.AllocUvm` | vm/vm.c:296-323 | It succeeds exactly when there are frames for the pages and for the missing page tables; then the pages from oldsz to newsz are new, all zero, and have exactly the flags PTE_P, PTE_W and PTE_U; on failure no mapping of any process has changed; every frame still has exactly one use. |
| `Vm.Machine.FreeTables` | vm/vm.c:365-370 | Every page table of the directory is freed once. |
| `Vm.Machine.FreeVm` | vm/vm.c:358-372 | Every frame of the address space is free again; other address spaces are untouched. |
| `Vm.Machine.MapKernel` | vm/vm.c:62-81 | mappages over a kernel range maps each page to the frame as far behind phys as it is behind virt, with the bits of perm and PTE_P. |
| `Vm.Machine.SetupKvm` | vm/vm.c:193-210 | A directory that maps each page of each kernel range to its frame, with the bits of perm and PTE_P, and nothing else, or, exactly when there are too few frames for it and its page tables, every frame taken is given back. |
| `Vm.Machine.CopyUvm` | vm/vm.c:390-419 | It succeeds exactly when there are frames for the directory, the pages and the page tables; then the child has equal contents and equal flags in other frames and the parent is unchanged; on failure every frame has the use it had before, and all user pages and mappings are as before. |
| `SleepWakeup.StepLocks` | proc.c:418-474 | All locks are always held by exactly the process that took them. |
| `SleepWakeup.StepSettled` | proc.c:418-441 | A process on its way to sleep, asleep or coming back owes no wakeup. |
| `SleepWakeup.StepChecked` | proc.c:418-441 | Between a sleeper's check and its giving up lk, nobody can make the condition true. |
| `SleepWakeup.StepOwes` | proc.c:458-474 | A wakeup that is owed to a sleeper stays owed until it reaches the sleeper's slot. |
| `SleepWakeup.StepKeeps` | proc.c:418-474 | Every step of sleep, wakeup and kill keeps: a process asleep, or holding only ptable.lock on its way to sleep, while its condition is true has a wakeup coming. |
| `SleepWakeup.RunKeeps` | proc.c:418-474 | The same over every run. |
| `SleepWakeup.NoLostWakeup` | proc.c:418-474 | In every reachable state, for any number of processes, channels and locks and any sharing of locks by channels, if a process sleeps on a channel whose condition is true, some process that is not asleep is still between making it true and reaching the sleeper in wakeup. |
| `SleepWakeup.Quiescent` | proc.c:418-474 | Once every wakeup owed on a channel is done, nobody sleeps there unless the condition is false. |
| `SleepWakeup.CanBeWoken` | proc.c:418-474 | In every reachable state a process asleep on a channel whose condition is true can still be woken: some steps of the others end with it runnable. |
| `SleepWakeup.CanSleep` | proc.c:418-450 | A process that has seen its condition false under its lock and owes no wakeup can always get to sleep. |
| `SleepWakeup.CanResume` | proc.c:440-450 | A process that was woken can always come back to where it takes its lock again. |
| `ExitWait.FirstZombie` | proc.c:283-301 | The first zombie child in table order, or none. |
| `ExitWait.FirstUnused` | proc.c:81-83 | The first unused slot, or none. |
| `ExitWait.Ptable.Wakeup1` | proc.c:458-465 | Exactly the processes sleeping on the channel become runnable; state, pid, parent, channel and mark of every other slot, and all but the state of these, are as before. |
| `ExitWait.Ptable.Exit` | proc.c:250-265 | The parent is woken, every child passes to init, init is woken if it inherits a zombie, and the caller becomes a zombie; no pid, channel or mark and no other parent or state changes. |
| `ExitWait.Ptable.WaitRound` | proc.c:273-312 | A zombie child is collected and its pid returned; -1 without children or when killed; otherwise the caller sleeps on itself. |
| `ExitWait.Ptable.AllocSlot` | proc.c:79-92 | The first unused slot becomes an embryo with the next pid, or nothing changes. |
| `ExitWait.Ptable.Kill` | proc.c:480-497 | The first slot with the pid is marked killed and woken, or -1 when there is none. |
| `ExitWait.ForkFamily` | proc.c:181-222 | No step of fork, locked or not, gives a process a dead parent. |
| `ExitWait.ExitFamily` | proc.c:250-265 | After exit nobody has the zombie as parent. |
| `ExitWait.ExitChannels` | proc.c:250-265 | After exit nobody sleeps in wait() with a zombie child. |
| `ExitWait.ExitKeeps` | proc.c:228-268 | exit keeps the whole invariant. |
| `ExitWait.ReapKeeps` | proc.c:287-300 | Collecting a zombie keeps the whole invariant. |
| `ExitWait.StepWaitSleep` | proc.c:303-310 | Going to sleep in wait() keeps the whole invariant. |
| `ExitWait.StepKeeps` | proc.c:74-497 | Every step of fork, exit, wait, kill and scheduling keeps the invariant. |
| `ExitWait.RunKeeps` | proc.c:74-497 | The same over every run. |
| `ExitWait.ZombieSeen` | proc.c:273-312 | A zombie has a live parent, and that parent is not asleep in wait(). |
| `ExitWait.ExitWaitSafe` | proc.c:180-312 | In every reachable state recorded parents are neither unused nor zombies, no process sleeps in wait() with a zombie child, and no pid is returned by two waits. |
| `ExitWait.CanBeReaped` | proc.c:271-312 | In every reachable state every zombie can be collected: some steps end with its slot unused and its pid returned by wait(). |
| `ExitWait.Lifecycle` | proc.c:74-497 | The state of a slot changes only along the ways of the process states, by the step and the process that may; pids come with allocproc and go with wait, parents are set by the fork in charge, passed to init by exit or cleared by wait. |
| `ExitWait.KillReaches` | proc.c:480-497 | In every reachable state kill(pid) marks a process exactly when some process has that pid, and then that one only. |
| `ExitWait.UnmarkedIff` | proc.c:480-497 | Unused slots stay unmarked exactly when no kill names a pid that only an unused slot has and no fork gives up a killed embryo. |
| `ExitWait.BornMarked` | proc.c:74-92 | allocproc does not clear the mark: a new process is marked exactly when its slot was. |
| `ExitWait.KillZero` | proc.c:480-497 | On a fresh table kill(0) marks an unused slot. |
| `ExitWait.KilledEmbryo` | proc.c:186-196 | In a run from boot an embryo is killed and its fork given up; the next process made in the slot is killed before it runs. |
| `ExitWait.KilledIff` | proc.c:480-497 | In every reachable state a process is marked killed exactly when some step was a kill of its pid, or it was made in a slot that was marked already. |
| `Pipe.Occupancy` | pipe.c:86-115 | The counters tell a full and an empty ring apart, also when one has wrapped at 2^32 and the other has not. |
| `Pipe.PutKeeps` | pipe.c:94 | A byte stored in a ring that is not full overwrites no byte still to be delivered. |
| `Pipe.GetKeeps` | pipe.c:117 | The byte read is the oldest one not yet delivered. |
| `Pipe.StepKeeps` | pipe.c:86-118 | Every byte stored or delivered keeps the ring a window of the stored bytes that starts right after the delivered ones. |
| `Pipe.Fifo` | pipe.c:80-122 | Over any interleaving of readers and writers, however long, what was delivered is a prefix of what was stored in store order, and at most PIPESIZE bytes are in between. |
| `Pipe.PipeBuf.constructor` | pipe.c:24-58 | A new pipe is empty, with both ends open. |
| `Pipe.PipeBuf.Close` | pipe.c:60-76 | One end is closed, and the pipe goes when both are. |
| `Pipe.PipeBuf.Write` | pipe.c:80-99 | Bytes go in in order; n is returned when all are in; with the ring full the call gives up with -1 when the reader is gone or the caller is killed, and sleeps otherwise. |
| `Pipe.PipeBuf.Read` | pipe.c:101-122 | The call waits, or gives up with -1 when killed, exactly while the ring is empty and a writer is left; then the oldest bytes come out in order, fewer than asked for only when the ring is then empty. |
| `Shell.Skip` | sh.c:271-273 | The next position that holds no white space. |
| `Shell.WordEnd` | sh.c:296-298 | The end of a run of word characters. |
| `Shell.ReadToken` | sh.c:266-308 | gettoken returns the token, its span and the position after it and the white space. |
| `Shell.PeekAhead` | sh.c:311-320 | peek skips white space and tells whether one of the characters follows. |
| `Shell.ParseLine` | sh.c:345-359 | parseline ends on every input and never moves back or past the end. |
| `Shell.ParsePipe` | sh.c:362-372 | The same for parsepipe. |
| `Shell.ParseRedirs` | sh.c:375-397 | parseredirs ends, and what follows is no redirection. |
| `Shell.ParseBlock` | sh.c:400-413 | The same for parseblock as for parseline. |
| `Shell.ParseExec` | sh.c:416-446 | The same for parseexec as for parseline. |
| `Shell.TakesRedirs` | sh.c:375-397 | The loop of parseredirs computes the redirections of the recursive description, or the panic. |
| `Shell.TakesArgs` | sh.c:428-442 | The loop of parseexec computes the arguments and redirections of the recursive description, or the panic. |
| `Shell.TakesBacks` | sh.c:350-353 | The loop over ampersands in parseline computes the background nodes of the recursive description. |
| `Shell.TakesLine` | sh.c:345-359 | parseline as code, with its loops and recursive calls, computes the recursive description. |
| `Shell.LineSpans` | sh.c:345-446 | Every word of every parsed tree is a maximal run of word characters, and no command has MAXARGS arguments. |
| `Shell.LineAgrees` | sh.c:345-446 | The parser on the buffer does what the parser on its tokens does. |
| `Shell.LineParses` | sh.c:345-446 | Every derivation of the grammar is parsed to its meaning: pipes and lists nest to the right, redirections go around the command in the order written, wherever they stand among the words. |
| `Shell.LineSound` | sh.c:345-446 | Everything parsed has a derivation. |
| `Shell.ParsesIff` | sh.c:328-446 | parsecmd accepts exactly the texts whose tokens have a derivation, with the meaning of that derivation. |
| `Shell.LexSpell` | sh.c:266-308 | However tokens are spaced out, gettoken reads them back. |
| `Shell.LexCovers` | sh.c:266-308 | Every text is its tokens and the white space around them. |
| `Shell.LanguageIff` | sh.c:328-446 | A text parses to a command exactly when it is some spelling of a derivation that means the command. |
| `Shell.LineCutSame` | sh.c:388-393 | A derivation with every appending redirection replaced by an overwriting one has the same meaning. |
| `Shell.AppendIsTruncate` | sh.c:388-393 | A line and the same line with > for every >>, each with any white space, parse to one command. |
| `Shell.SpellingParses` | sh.c:328-446 | A derivation written out with any white space parses to its meaning. |
| `Shell.RoundTrip` | sh.c:328-446 | Every command tree with non-empty plain words and at most nine arguments, written with parentheses only where they are needed and with any white space, is returned unchanged by parsecmd. |
| `Shell.NulTerminate` | sh.c:450-493 | A NUL is written just past every word of the tree and nowhere else. |
| `Shell.ReadsBack` | sh.c:450-493 | After nulterminate every argument and file name reads as a C string that is exactly its token. |
| `Shell.Parse` | sh.c:328-342 | parsecmd returns the tree of the text and leaves every word of it terminated; on a syntax error the buffer is unchanged. |

## Left out

- Hardware, boot, interrupts, devices, the console, memory ordering and spinlock internals: a lock is taken and released in one step and the disk writes one block at a time.
- Device inodes: readi and writei are modelled for files and directories.
- The inode cache, reference counts, ialloc, path walking and the file table.
- Type, device numbers and link count of an inode: in FsDisk these words of an inode block stay as they are.
- Calls other than filewrite on the disk of FsLog, and chunks that overlap in time, except as MountsConsistent states it.
- Running out of disk blocks or buffers is a panic in the code and a terminal outcome here; when it happens is stated.
- The order of the physical pages behind kernel-heap ranges, and the visibility of those mappings in process page tables.
- kheap_calloc and kheap_realloc.
- inituvm, loaduvm, clearpteu, copyout, switching of address spaces, and growproc.
- The scheduler's choice of process, kernel stacks and context switches: any runnable process may run next.
- The calls of wakeup in pipe.c: the pipe model is about which bytes come out, and SleepWakeup about channels that share a lock.
- Execution of parsed commands, system call arguments, ELF loading and the user programs.
- Bio.BCache.Bread: states the case in which nobody holds the block and a buffer is free; waiting for a sleep lock is a step of the machine in BufferCache, and no free buffer is the panic.
- LogDriver.CopyBlock: states copies for which a buffer can be had; the other case is the panic of bget.
- LogDriver.Log.Commit: states transactions of fewer than NBUF blocks, which is exactly when a commit finds buffers (CommitFindsIff), with no reader holding a buffer.
- LogDriver.Log.CommitAtomically: states the same; LogSystem.CrashSafe covers readers and all transactions.
- LogSystem.CrashSafe: a run ends where a transaction does not fit the log, which happens only in a log of at most LOGSIZE blocks (EndFits; OverrunTearsIff states what the commit does then), and calls log a buffer they have changed before they release it or end.
- Kheap.KHeap.Alloc: does not model the mapping of physical pages, whose failure is a panic.
- Kheap.KHeap.Release: does not model the unmapping of physical pages, or kalloc having no page for a new metadata page, which is a panic; the range must be outstanding.
- Kheap.PartitionIff: a run ends with the first call that is handed a node in use; what the code does with the torn list after that is shown for one run only (FourCalls).
- Umalloc.UHeap.Malloc: takes the answer of sbrk as a region of the size wanted, which the argument of sbrk asks for exactly below 2^28 units (SbrkArgIff).
- Umalloc.UHeap.Free: states frees of blocks in use; the bytes users write into their blocks are not modelled.
- LiballocDriver.KernelHeap.Malloc: states requests below 2^32 - 80 bytes, where no sum wraps (PagesForIff).
- LiballocDriver.KernelHeap.Free: does not model bytes that users write over headers; pointers must be null or into mapped heap memory, as the code reads there.
- Vm.Machine.MapPage: states pages not mapped yet; the other case is the panic "remap".
- Vm.Machine.AllocUvm: states ranges not mapped yet, for the same reason.
- Vm.Machine.DeallocUvm: states sizes up to KERNBASE; above it addresses wrap.
- Vm.Machine.CopyUvm: states a parent whose pages are all mapped; the other case is a panic.
- Vm.Machine.SetupKvm: takes the table of kernel ranges as a parameter, in pages.
- ExitWait.ExitWaitSafe: does not model the wrap of nextpid at 2^31.
- ExitWait.Ptable.Exit: states callers other than init, whose exit is a panic.
- SleepWakeup.NoLostWakeup: a sleeper checks its condition under the lock it passes to sleep, and whoever makes a condition true calls wakeup later and before going to sleep; the case where that lock is ptable.lock itself is wait(), in ExitWait.
- Directory.Dirlink: states directories of whole entries with unique names.
- FsLog.RunGood: the sizes and starts of the areas are given; reading the superblock is not modelled.
- FsDriver.FileSystem.constructor: takes the state as given; reading the superblock is not modelled.
