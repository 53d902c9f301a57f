# Linux 0.11: memory, buffers, files, tasks

A model of the mechanisms of Linux 0.11 whose correctness spans several functions and a state that
they share, with proofs about every run. Table sizes (pages, buffers, hash buckets, requests, tasks,
zones, inodes, screen and video memory) are parameters wherever the kernel's code does not depend on
their values.

Most parts have three layers. A *specification* gives each operation as a function on values. *Lemmas*
prove what the operations keep and what whole runs of them do. A *class* has the kernel's arrays,
pointers and globals; its methods are the kernel's loops and assignments, proved to compute those
functions in place.

| files | what they model |
|---|---|
| Memory, PageLedger, MemoryAccounting, Shortage, MemoryManager | `mm/memory.c`: mem_map, page directory, page tables; who uses each page; when memory is out |
| Processes, CopyOnWrite, Boot, ProcessTable | the memory side of fork and exit; the refinement of eager copying |
| SleepQueue | `sleep_on` and `wake_up`: the queue that lives in local variables |
| Queues, BufferIndex, FlatDisk, BufferCache | `fs/buffer.c`: free list and hash chains; cache and disk as one disk; getblk, bread and sync_dev beside other tasks |
| Elevator, RequestQueue | the request table and the elevator |
| Zones, FileBytes, FileSystem | bitmap, block tree, truncate; files as sequences of bytes |
| FreePages, BucketPool, KernelHeap | `lib/malloc.c`: the pool of buckets, and the words of memory that show it |
| ExecArgs, ExecStack | the argument stack of `do_execve` and the `#!` line |
| Terminal, Sequences, Console | the console as a screen, what each character and sequence shows, and video memory |
| Scheduler | `schedule` and the counter part of `do_timer` |
| PipeRing | pipes |
| References, OpenFiles | file table, descriptors and the inode counts they are due |
| InodeTable | the inode table beside other tasks |
| Basics, Bytes, Wrappers | what several of them need |

**Other tasks.** Where a task can sleep, everything that others may do is one arbitrary function or
script of steps, known only to keep the invariant and to respect what the sleeping task holds
(`Rely`). Each method proves that what its own task does between two sleeps is of that kind
(`Guarantee`), and a lemma shows that one task's guarantee is any other's rely. `patience` is how often
the task is woken again: a method that returns `awake == false` is asleep for ever with its patience
at 0, and little but the invariant is claimed of it.

**Panics** are results: `None`, `Panic`, `panicked`, or `ok == false`. Theorems about runs say they are
not reached.

## Model

| member | source | states |
|---|---|---|
| MemoryManager.PhysicalMemory.MemInit | mm/memory.c:575-587 | mem_init leaves every page of the byte map USED except those of main memory |
| MemoryManager.PhysicalMemory.GetFreePage | mm/memory.c:95-115 | the backward scan of mem_map is GetFree: it finds the last free page, counts it once and clears it, or changes nothing and returns 0 |
| MemoryAccounting.LemmaGetFree | mm/memory.c:95-115 | a page that get_free_page returns is the last free one of mem_map, had no user at all, now counts 1 for its one holder and is zero; it returns 0 only when every page is in use |
| MemoryManager.PhysicalMemory.FreePage | mm/memory.c:129-139 | free_page ignores low memory, panics on a page beyond memory or one that is free, and otherwise takes one off its count byte |
| MemoryAccounting.LemmaFreePage | mm/memory.c:129-139 | freeing a page that somebody holds never panics, and the counts go on equalling the number of users |
| MemoryManager.PhysicalMemory.FreePageTables | mm/memory.c:155-199 | free_page_tables, for every start and size: its panics exactly, and the table entries, directory entries and counts it leaves |
| MemoryAccounting.LemmaFreeTables | mm/memory.c:155-199 | on directory entries of task slots it never reaches the panic about free pages, unmaps exactly that range and keeps every page's count equal to its users |
| MemoryAccounting.LemmaFreeEntry | mm/memory.c:186-192 | one round of the inner loop empties that one entry, drops one reference and cannot panic |
| MemoryManager.PhysicalMemory.CopyTableEntry | mm/memory.c:268-278 | one round of the inner loop of copy_page_tables, with the count byte going up modulo 256 |
| MemoryManager.PhysicalMemory.CopyPageTables | mm/memory.c:232-282 | copy_page_tables: its panics, its -1, and every table it leaves, also when it stops for want of a page |
| MemoryAccounting.LemmaCopyEntry | mm/memory.c:265-278 | one entry, on the table words and the count byte: the page gets one user more, both entries lose the right to write, and the byte does not wrap |
| PageLedger.LemmaShare | mm/memory.c:270-277 | on the ledger of users and counts that LemmaCopyEntry ties to the words: a second user of a page keeps counts, privacy of tables and exclusive writing, and the count is below the number of task slots |
| PageLedger.LemmaFewUsers | mm/memory.c:258-278 | a page at or above LOW_MEM has at most one user per task slot, so its count byte cannot wrap |
| MemoryAccounting.LemmaCopyTables | mm/memory.c:232-282 | a copy between task slots never panics, keeps all counts, leaves nothing else changed, and when it completes the target has the source's pages entry for entry |
| MemoryAccounting.LemmaCopyUndone | kernel/fork.c:56-59 | a copy that runs out of memory midway and is undone by free_page_tables leaves mem_map exactly as it was and every user's bytes as they were |
| MemoryManager.PhysicalMemory.PutPage | mm/memory.c:299-321 | put_page of a page of memory: the page at its address, with a new table if there was none, or 0 for want of one |
| MemoryAccounting.LemmaPutPage | mm/memory.c:299-321 | mapping a fresh page, with a new table if need be, turns its holder into its one user: that linear page reads it and no other changes; for want of a table nothing changes |
| MemoryManager.PhysicalMemory.UnWpPage | mm/memory.c:329-347 | un_wp_page computes UnWp: the entry becomes writable in place for a sole user, or is moved to a fresh copy, or there is no memory |
| MemoryAccounting.LemmaUnWp | mm/memory.c:329-347 | un_wp_page of a user's page never panics, makes it writable for that user alone unless memory is out, keeps counts, and no user anywhere reads a different byte; out of memory changes nothing |
| Shortage.LemmaUnWpShort | mm/memory.c:329-347 | un_wp_page is out of memory exactly if no byte of mem_map is 0 and the place is not the only user of a page at or above LOW_MEM; the only user gets that very page writable and no count changes |
| Shortage.LemmaTaken | mm/memory.c:95-115 | get_free_page returns 0 exactly if no byte of mem_map is 0, and otherwise there is one such byte less, that of its page |
| Shortage.LemmaPutShort | mm/memory.c:299-321 | put_page fails exactly if the place has no table and no byte of mem_map is 0 |
| Shortage.LemmaEmptyShort | mm/memory.c:402-410 | get_empty_page is out of memory exactly if fewer bytes of mem_map are 0 than it needs, one or, without a table, two; it never panics |
| Shortage.LemmaCopyShort | mm/memory.c:232-282 | a copy of page tables between task slots is out of memory exactly if fewer bytes of mem_map are 0 than the source has tables |
| MemoryManager.PhysicalMemory.DoWpPage | mm/memory.c:364-376 | do_wp_page resolves the fault on the entry of its address |
| MemoryManager.PhysicalMemory.WriteVerify | mm/memory.c:383-395 | write_verify resolves the entry of its address if it is present and read-only, and does nothing otherwise |
| MemoryManager.PhysicalMemory.GetEmptyPage | mm/memory.c:402-410 | get_empty_page computes GetEmpty; out of memory gives its page back |
| MemoryAccounting.LemmaGetEmpty | mm/memory.c:402-410 | a zero page for an unmapped place of a task: that place reads zeros, nobody else's bytes change, counts are kept; out of memory leaves mem_map as it was |
| MemoryAccounting.LemmaCountsDetermined | mm/memory.c:95-139 | which pages are mapped and held determines mem_map: two states with the same users have the same counts |
| ProcessTable.TaskTable.VerifyArea | kernel/fork.c:24-37 | verify_area makes every page of the area, from the page its start is in, writable in turn |
| MemoryAccounting.LemmaVerifyPages | kernel/fork.c:24-37 | after it every mapped page of the area is the task's own to write, and no user's bytes have changed |
| ProcessTable.LemmaArea | kernel/fork.c:24-37 | for every byte of the area: its page, if mapped, is then the task's own to write, no user's bytes have changed, and memory was out only with no page free and one of the area still needing one |
| ProcessTable.TaskTable.FindEmptyProcess | kernel/fork.c:135-147 | the first free slot from 1 on, or -1 |
| ProcessTable.TaskTable.CopyMem | kernel/fork.c:39-61 | copy_mem: the tables copied to the new slot, or freed again and -1 |
| ProcessTable.TaskTable.CopyProcess | kernel/fork.c:68-133 | the memory part of copy_process: the page of the task structure, the copied tables, and what a failure gives back |
| ProcessTable.TaskTable.DoExit | kernel/exit.c:102-107 | the memory part of do_exit: both segments' tables are freed |
| ProcessTable.TaskTable.Release | kernel/exit.c:19-33 | release frees the slot and its task structure's page |
| CopyOnWrite.LemmaForkOk | kernel/fork.c:39-61 | a fork that succeeds gives the child exactly the parent's bytes at its own base and changes nobody's |
| CopyOnWrite.LemmaForkAgain | kernel/fork.c:56-59 | a fork that fails, for whatever reason and however far it got, leaves mem_map, the tasks and every byte as they were |
| CopyOnWrite.LemmaForkAnswer | kernel/fork.c:68-147 | a fork is refused exactly if no slot is free or fewer pages are than one for the task and one for each of its page tables |
| CopyOnWrite.LemmaExit | kernel/exit.c:102-107 | exit never panics, frees the task's own pages and leaves the bytes of all others |
| CopyOnWrite.LemmaWrite | mm/memory.c:364-376 | a user write, with whatever fault it takes, changes that one byte of that task's page, as on the eager machine; the task is killed exactly if the write needs more pages than are free |
| CopyOnWrite.LemmaRefinesEagerCopy | mm/memory.c:232-410 | in every run of forks, writes, reads, exits and releases by tasks in slots 1 and up, each task reads at each step the bytes it would read had every fork duplicated all pages at once; every fork, read and write is refused or kills the task exactly when slots or pages are short (Answer); no panic is reached, mem_map always equals the number of users, and but for the pages of the tasks there the same pages stay held |
| Boot.LemmaMemInit | mm/memory.c:575-587 | the invariant holds at boot, when only mem_init has run, and the free pages are those of main memory |
| Boot.LemmaFirstFork | mm/memory.c:210-216 | the first fork, from base 0, which shares 160 low pages read-only, leads into the states the refinement is about |
| SleepQueue.WaitQueues.SleepOn | kernel/sched.c:224-234 | sleep_on up to its call of schedule: the old head goes into tmp, the task becomes head and stops running; task 0 panics |
| SleepQueue.WaitQueues.WokenUp | kernel/sched.c:234-238 | the rest of sleep_on: the task in tmp is made runnable |
| SleepQueue.WaitQueues.WakeUp | kernel/sched.c:267-273 | wake_up makes the head runnable and empties the queue |
| SleepQueue.LemmaStep | kernel/sched.c:224-273 | every interleaving of the three keeps: who is blocked is the head of its queue or in exactly one tmp, tmp links go to older sleepers, and no task is linked twice |
| SleepQueue.LemmaReachable | kernel/sched.c:224-238 | every blocked task is reachable by tmp links from the head of its queue or from a task that is awake and still to resume |
| SleepQueue.LemmaPathOlder | kernel/sched.c:224-238 | the links form no cycles: along them sleepers only get older |
| SleepQueue.LemmaChainsDisjoint | kernel/sched.c:224-238 | two chains that share a task share all that leads to it, so chains from different roots are disjoint |
| SleepQueue.LemmaNoLostWakeUp | kernel/sched.c:224-273 | if woken tasks eventually resume, one wake_up makes every task then blocked on the queue runnable in the end |
| Queues.LemmaUnlinkFree | fs/buffer.c:141-146 | taking a buffer off the free list leaves one circular doubly linked list of the others in the same order |
| Queues.LemmaLinkFree | fs/buffer.c:151-155 | putting it in before the head makes it the last of the circular list |
| Queues.LemmaUnlinkHash | fs/buffer.c:133-139 | taking a buffer off a hash chain leaves a null-ended doubly linked list of the others |
| Queues.LemmaLinkHash | fs/buffer.c:156-163 | putting one in front leaves such a list with it first, with the null test that line 163 lacks |
| Queues.LemmaLinkHashAsWritten | fs/buffer.c:156-163 | as written, it leaves the same links, and the word of low memory is written exactly if the chain was empty |
| BufferIndex.LemmaInsertAsWritten | fs/buffer.c:149-164 | as written, insert_into_queues leaves the same lists and writes the word of low memory exactly if the buffer has a device and no other buffer with one hashes to its bucket |
| BufferIndex.LemmaFirstInsertion | fs/buffer.c:149-164 | the first buffer to get a device after buffer_init is such a case |
| BufferCache.Buffers.RemoveFromQueues | fs/buffer.c:131-147 | remove_from_queues computes Remove on the links in place; false is its panic on a corrupted free list |
| BufferCache.Buffers.InsertIntoQueues | fs/buffer.c:149-164 | insert_into_queues computes Insert on the links in place |
| BufferIndex.LemmaRename | fs/buffer.c:241-250 | renaming a buffer, as getblk ends, cannot panic, puts it at the end of the free list, and keeps the free list a circular permutation of all buffers and the chains lists of exactly the buffers with a device that hash there |
| BufferIndex.LemmaFind | fs/buffer.c:166-174 | the walk of find_buffer says there is no buffer exactly if a linear scan of all buffers does; one it returns has the name |
| BufferIndex.LemmaChoose | fs/buffer.c:213-223 | the scan of the free list picks the first unused buffer of least BADNESS in free-list order, and none only if all are in use |
| BufferIndex.LemmaChoosesBest | fs/buffer.c:205-223 | it is dirty only if all unused buffers are, and among those alike in that locked only if all are |
| BufferIndex.LemmaInit | fs/buffer.c:348-381 | buffer_init leaves the free list in address order and empty chains |
| BufferCache.Buffers.constructor | fs/buffer.c:348-381 | buffer_init establishes the whole invariant with every buffer free |
| BufferCache.Buffers.FindBuffer | fs/buffer.c:166-174 | find_buffer walks one chain and returns what Find does |
| BufferCache.Buffers.FindUnused | fs/buffer.c:213-223 | getblk's search along the free list returns what Choose does |
| FlatDisk.LemmaCacheIsFlat | fs/buffer.c:206-281 | in every interleaving of the steps of tasks and driver, cache and disk together act as one disk that only writers change, and no two buffers ever hold the same block of a device |
| FlatDisk.LemmaShown | fs/buffer.c:206-251 | recycling a buffer, queueing, transferring and completing a request change no block's content; a writer changes that of one block |
| FlatDisk.LemmaReadsFlat | fs/buffer.c:267-281 | an up-to-date buffer has the content of its block |
| FlatDisk.LemmaHeldKeepsName | fs/buffer.c:183-196 | a buffer with b_count above 0 keeps its device and block through every step |
| FlatDisk.LemmaWritesDone | fs/buffer.c:59-82 | once no buffer of a device is dirty and nobody writes to one, then after any further steps at whose end no write is under way the device's disk equals its logical content |
| FlatDisk.LemmaSyncedDisk | fs/buffer.c:59-82 | when no buffer of a device is dirty, completing all queued requests makes its disk equal to the logical content |
| BufferCache.LemmaGuaranteeIsRely | fs/buffer.c:183-251 | what one task does between two sleeps is what every other task relies on: held buffers keep their names and stay up to date, locked ones keep their state, and holds add up |
| BufferCache.Buffers.WaitOnBuffer | fs/buffer.c:36-42 | wait_on_buffer ends with the buffer unlocked, others having run if it slept; it does not sleep for one that is unlocked |
| BufferCache.Buffers.GetHashTable | fs/buffer.c:183-196 | get_hash_table returns the buffer of that name held once more and unlocked, or says truly that there is none; it waits only for one that is locked, and one that was up to date still is |
| BufferCache.Buffers.CleanBuffer | fs/buffer.c:226-237 | getblk's wait on the chosen buffer ends with it unused, unlocked and clean, or repeats because somebody took it |
| BufferCache.Buffers.TakeBuffer | fs/buffer.c:239-250 | at the point where getblk knows, the chosen buffer is unused, unlocked, clean and no other has the new name; it is renamed and held once |
| BufferCache.Buffers.GetBlk | fs/buffer.c:206-251 | getblk with arbitrary other tasks at every sleep: the buffer returned has the name, is held once more and unlocked, and this task changed no block's content; it is the block's buffer if there was one, and it does not sleep if that is unlocked or else some buffer is unused, unlocked and clean |
| BufferCache.Buffers.BRelse | fs/buffer.c:253-261 | brelse by a holder gives up one hold; its panic cannot come |
| BufferCache.Buffers.BRead | fs/buffer.c:267-281 | bread returns a held, up-to-date buffer of that name with the block's logical content; an up-to-date buffer of the block is the one it returns, at once if unlocked; it returns none, and no hold, only after a sleep and only if a transfer into a held buffer failed |
| BufferCache.LemmaDelivers | fs/buffer.c:267-281 | no step of a task or the driver takes a held buffer's content away or fails its transfer: it stays up to date, and one being read is up to date when it is unlocked |
| BufferCache.Buffers.LlRwBlock | kernel/blk_drv/ll_rw_blk.c:88-155 | ll_rw_block and make_request: the lock, the early unlock, the sleep for a free request with the buffer locked; after a write request the buffer is clean |
| BufferCache.Buffers.SyncBuffers | fs/buffer.c:64-71 | one pass of sync_dev leaves no dirty buffer of the device behind, if meanwhile nobody dirties one |
| BufferCache.Buffers.SyncDev | fs/buffer.c:59-82 | sync_dev: if nobody writes to a buffer of the device from sync_inodes on, none is dirty at its end, and with the queued writes complete the device's disk equals the logical content |
| Elevator.LemmaTotal | kernel/blk_drv/blk.h:40-43 | IN_ORDER is a strict total order on (command, device, sector) |
| Elevator.LemmaOrder | kernel/blk_drv/blk.h:40-43 | in it reads come before writes, then lower devices before higher, and on one device lower sectors before higher |
| Elevator.LemmaTwoSweeps | kernel/blk_drv/ll_rw_blk.c:75-84 | insertion by add_request keeps a queue that goes down at most once, for a key not yet in it |
| Elevator.LemmaThreeRequests | kernel/blk_drv/ll_rw_blk.c:75-84 | of any three requests in queue order, two neighbours ascend |
| Elevator.LemmaSweep | kernel/blk_drv/ll_rw_blk.c:75-84 | within one sweep no read comes after a write, no lower device after a higher one of the same command, and the sectors of a device ascend |
| RequestQueue.LemmaAddOrder | kernel/blk_drv/ll_rw_blk.c:64-86 | add_request never displaces the request at the head and keeps the order of all that were queued |
| RequestQueue.LemmaFreshKey | kernel/blk_drv/ll_rw_blk.c:121-142 | the key of a new request is not in the queue, because its buffer is locked and no other buffer has its block |
| RequestQueue.LemmaQueued | kernel/blk_drv/ll_rw_blk.c:121-142 | queueing keeps: each driver's queue is a list of its own requests, every queued request's buffer is locked, waits for the transfer that the request asks for and is in exactly one request, the last third holds no writes, and every queue goes down at most once |
| RequestQueue.LemmaRequested | kernel/blk_drv/ll_rw_blk.c:121-143 | exactly one entry is new, the last free one the command may use; it has the command, device, first sector and buffer asked for; the buffer is clean and waits for it; all other entries and buffers are as they were, up to the links |
| RequestQueue.LemmaPlaced | kernel/blk_drv/ll_rw_blk.c:64-86 | it joins the queue of its driver and no other, behind the request at the head, and the rest keep their order |
| RequestQueue.LemmaEnded | kernel/blk_drv/blk.h:109-125 | end_request, on the driver's first request, leaves its buffer unlocked, up to date as told and otherwise as it was, frees the entry, touches no other entry or buffer, and keeps all of that |
| RequestQueue.Requests.AddRequest | kernel/blk_drv/ll_rw_blk.c:64-86 | add_request on the linked entries in place computes Add |
| RequestQueue.Requests.MakeRequest | kernel/blk_drv/ll_rw_blk.c:88-143 | make_request up to its sleep, in every case: nothing for an idle buffer or a read-ahead in vain, a sleep with the buffer locked when no entry is free for the command, else the last free one is filled with what was asked for (Requested) and queued |
| RequestQueue.Requests.EndRequest | kernel/blk_drv/blk.h:109-125 | end_request computes Ended on the entries in place |
| RequestQueue.Requests.constructor | kernel/blk_drv/ll_rw_blk.c:157-165 | blk_dev_init leaves every entry free and every queue empty |
| FileSystem.Device.NewBlock | fs/bitmap.c:75-105 | new_block takes the first zero bit, clears the block, and returns 0 for a full device or a bit past the last zone |
| FileSystem.Device.FreeBlock | fs/bitmap.c:47-73 | free_block clears the zone's bit, or panics outside the data zones or on a clear bit |
| Zones.LemmaBits | fs/bitmap.c:47-105 | bit z - s_firstdatazone + 1 is zone z's: new_block sets the first that is clear, and free_block succeeds exactly on a set bit of a data zone and clears that one |
| Zones.LemmaNewBlock | fs/bitmap.c:75-105 | a zone that new_block returns was named by no slot of any inode, is zero, and no slot changes |
| FileSystem.Device.BMap | fs/inode.c:90-178 | _bmap with and without create, through all three levels, computes CreateBlock and Bmap, and panics exactly on a block number out of range |
| Zones.LemmaLayout | fs/inode.c:90-168 | where the zones of a file are named, on i_zone and the blocks alone: block k < 7 in zone[k], block 7 + k in entry k of block zone[7], block 519 + 512 k + j in entry j of the block named in entry k of block zone[8] |
| Zones.LemmaCreateBlock | fs/inode.c:90-178 | create_block changes bmap at that one block only, and only from no zone to a cleared one; it gives none only when every zone is in use; no byte of another block changes |
| Zones.LemmaOneUse | fs/inode.c:90-168 | no two slots name the same zone, so no zone serves both as an index block and as data |
| FileSystem.Device.Truncate | fs/truncate.c:47-64 | truncate with free_ind and free_dind computes Truncate; false is a panic of free_block |
| FileSystem.Device.FreeDindBlock | fs/truncate.c:29-45 | free_dind computes FreeDind |
| Zones.LemmaTruncate | fs/truncate.c:11-64 | truncate of a regular file or directory never panics, frees exactly the zones its inode reaches, and leaves every other inode's slots |
| Zones.LemmaConserved | fs/inode.c:90-178 | over every run of create_block and truncate on any inodes, no panic is reached and a data zone's bit is set exactly if one slot, direct, indirect or double indirect, index or data, names it |
| Zones.LemmaEmpty | fs/super.c:161-162 | a file system with no blocks in its inodes and only bit 0 set starts such runs |
| FileSystem.Device.FileRead | fs/file_dev.c:17-46 | file_read computes Read chunk by chunk, holes included, and moves the position by what it read |
| FileSystem.Device.FileWrite | fs/file_dev.c:48-90 | file_write computes Write block by block, at the end for O_APPEND, returns what went in or -1, and moves the position unless it appends |
| FileSystem.Device.SysRead | fs/read_write.c:86-91 | sys_read of a plain file returns the bytes of the file from the position on, cut at its size |
| FileBytes.LemmaWrite | fs/file_dev.c:48-90 | file_write puts the bytes that fit at the position, leaves the rest of the file and all other files as they were, grows the size to the last byte written, is short only on a full device, and panics only past the largest file |
| FileBytes.LemmaRead | fs/file_dev.c:17-46 | file_read returns the flat array of bytes across all block boundaries, holes as zeros |
| FileBytes.LemmaByteAt | fs/file_dev.c:17-46 | byte 1024 b + o of a file is byte o of the zone that bmap gives for block b, and 0 in a hole |
| FileBytes.LemmaRoundTrip | fs/file_dev.c:17-90 | reading back what a write took in gives the same bytes, short writes included |
| FileBytes.LemmaFlatWrite | fs/file_dev.c:48-90 | on files as sequences a write splices its bytes in at the position, filling a gap with zeros, and leaves the other files; bytes at or beyond the size stay zero |
| FileBytes.LemmaFlatRead | fs/read_write.c:86-91 | a read returns the stretch of the sequence, shorter at its end and nothing beyond |
| FileBytes.LemmaFlatTruncate | fs/truncate.c:47-64 | truncate empties one file, leaves the bytes of all the others, and keeps zeros beyond every size |
| FileBytes.LemmaFiles | fs/file_dev.c:17-90 | every run of file_write, file_read and truncate on any files acts as on plain sequences of bytes: the same results, the same files, zeros beyond the sizes; a write is short only if it finds the device full, and there is no panic unless a write goes past the largest file |
| FileBytes.LemmaNoFiles | fs/super.c:161-162 | an empty file system represents empty sequences, with all bytes beyond them zero |
| KernelHeap.Heap.InitBucketDesc | lib/malloc.c:97-115 | init_bucket_desc threads a page of descriptors onto the free descriptors; false is its panic |
| KernelHeap.Heap.Malloc | lib/malloc.c:117-173 | malloc on the words of memory computes Malloc on the pool they show, panics included |
| KernelHeap.Heap.FreeS | lib/malloc.c:182-231 | free_s on the words of memory computes Free on the pool they show, for a live object or an address in no bucket page |
| KernelHeap.LemmaHolderWrites | lib/malloc.c:160-172 | whatever the owner writes into a live object, up to the size of its slot, leaves the allocator's lists intact |
| BucketPool.LemmaMalloc | lib/malloc.c:117-173 | malloc returns an object that was not live, of the smallest size that is large enough; every other live object stays; every slot stays live or free, never both, and every page and descriptor on one list |
| BucketPool.LemmaMallocPanics | lib/malloc.c:117-150 | malloc panics exactly if the request is over a page, or no bucket of its size has room and the pages it needs (one, or two without a spare descriptor) are not there |
| BucketPool.LemmaRefCount | lib/malloc.c:160-172 | a bucket's live objects are its slots less its free chain: refcnt plus chain length is PAGE_SIZE over the size |
| BucketPool.LemmaGive | lib/malloc.c:203-231 | freeing a live object ends that one's life and no other's and keeps the partition |
| BucketPool.LemmaPageReturned | lib/malloc.c:207-228 | a bucket's page and descriptor are returned exactly when its last object is freed |
| BucketPool.LemmaHint | lib/malloc.c:182-201 | a size hint that the object's bucket can hold finds the same bucket as hint 0; a larger one, or a foreign address, ends in the panic |
| BucketPool.LemmaDisjoint | lib/malloc.c:117-173 | live objects do not overlap and lie within one page |
| BucketPool.LemmaRun | lib/malloc.c:97-231 | over every run of malloc and free_s, with pages taken and given back by others in between, all of that holds and every object handed out is live until it is freed |
| BucketPool.LemmaInterrupted | lib/malloc.c:182-205 | while free_s searches with interrupts on, another call leaves the object's bucket in place, and the predecessor that was noted a descriptor |
| BucketPool.LemmaWalkInterrupted | lib/malloc.c:191-201 | after another call at any step of the walk, it still comes to the object's bucket, unless the descriptor it is at was on that bucket's chain and has been taken out |
| BucketPool.LemmaWalkLost | lib/malloc.c:191-231 | two objects of a page each: freeing the second while free_s of the first is at its bucket takes that walk off the chain |
| ExecStack.Count | fs/exec.c:75-85 | count is the number of pointers before the null one |
| ExecStack.ArgPages.CopyStrings | fs/exec.c:104-152 | copy_strings lays the strings in order below p, each with its zero byte, or stops at 0 for want of a page or because they reach below the area |
| ExecStack.LemmaCopyOutcome | fs/exec.c:104-152 | if at entry there is one free page more than the area lacks, the result is not 0 exactly if the strings are shorter than the room below p, and the pointer wraps exactly if they are longer |
| ExecStack.LemmaOneTooLong | fs/exec.c:128-131 | one argument of as many letters as there is room for wraps the pointer |
| ExecStack.ArgPages.ChangeLdt | fs/exec.c:154-177 | the argument pages are the top of the new data segment, byte for byte |
| ExecStack.CreateTables | fs/exec.c:46-70 | create_tables puts both pointer tables and argc below the strings, word-aligned, and touches nothing above: decoding the stack gives the strings in order |
| ExecArgs.LemmaStartedOnce | fs/exec.c:46-70 | what a stack decodes to is unique: no two argument lists lie behind one stack pointer |
| ExecArgs.LemmaParse | fs/exec.c:232-256 | the line of a script in full: blanks, interpreter, its last component as name, and after one more blank all the rest as the one argument |
| ExecArgs.LemmaNoInterpreter | fs/exec.c:239-246 | a script is refused exactly if it has no newline or only blanks before the first one |
| ExecArgs.ScanBang | fs/exec.c:236-256 | the parse of the copied line in place: pointers to the interpreter, its name and the argument, or ENOEXEC |
| ExecStack.ArgPages.ScriptStrings | fs/exec.c:226-280 | the strings of a script go in as interpreter name, optional argument, script name, then argv[1..], then the environment |
| ExecStack.DoExecve | fs/exec.c:226-334 | do_execve's argument part for programs and scripts: a stack that decodes to the argument list and environment the program is to get, or which of the failures happened and why |
| ExecStack.LemmaWhoGetsWhat | fs/exec.c:257-275 | the program gets exactly the list and environment it is to get, unless a script is started without argv[0]; then the script's name moves to the environment, which loses its last string |
| ExecStack.LemmaScriptLosesItsName | fs/exec.c:257-275 | a script of the line /bin/sh started with no arguments gets the arguments sh and, as environment, its own name |
| Console.Display.Gotoxy | kernel/chr_drv/console.c:88-95 | gotoxy ignores an address off the screen and otherwise places cursor and pos together |
| Console.Display.ScrupCopy | kernel/chr_drv/console.c:136-167 | the copying scroll, of all or a part of the screen, shows it one line up with a blank line, and writes visible cells only |
| Console.Display.ScrupOrigin | kernel/chr_drv/console.c:111-143 | the origin-moving scroll, also when it wraps to the start of video memory, shows the same screen as the copying one and writes only cells visible after it |
| Console.Display.ScrollDown | kernel/chr_drv/console.c:170-202 | scrdown shows the region one line down with a blank line on top |
| Console.Display.Lf | kernel/chr_drv/console.c:204-212 | lf goes down a line or scrolls |
| Console.Display.Ri | kernel/chr_drv/console.c:214-222 | ri goes up a line or scrolls down |
| Console.Display.Del | kernel/chr_drv/console.c:230-237 | del blanks the cell before the cursor |
| Console.Display.CsiJ | kernel/chr_drv/console.c:239-266 | erasing from, up to, or all of the screen |
| Console.Display.CsiK | kernel/chr_drv/console.c:268-297 | erasing from, up to, or all of the line |
| Console.Display.CsiAttributes | kernel/chr_drv/console.c:299-311 | the attribute after the parameters of csi_m |
| Console.Display.InsertChar | kernel/chr_drv/console.c:336-348 | insert_char shifts the rest of the line by one and blanks the cell |
| Console.Display.DeleteChar | kernel/chr_drv/console.c:363-376 | delete_char shifts it back and blanks the last cell |
| Console.Display.CsiAt | kernel/chr_drv/console.c:391-399 | csi_at repeats insert_char at most a line's width: one shift by the clamped count |
| Console.Display.CsiP | kernel/chr_drv/console.c:411-419 | csi_P repeats delete_char: one shift by the clamped count |
| Console.Display.CsiL | kernel/chr_drv/console.c:401-409 | csi_L repeats insert_line: one scroll of the lines from the cursor on by the clamped count |
| Console.Display.CsiM | kernel/chr_drv/console.c:421-429 | csi_M repeats delete_line: one scroll of the lines from the cursor on by the clamped count, though an EGA moves its origin in between |
| Console.Display.SetRegion | kernel/chr_drv/console.c:586-594 | the scroll region is set only to one of at least one line on the screen |
| Console.Display.PutByte | kernel/chr_drv/console.c:454-603 | one byte of con_write computes Put, of which Sequences says what it shows, and writes only cells visible after it; deleting several lines from the top of an EGA is several scrolls, each of which writes only cells visible after that one |
| Console.Display.ConWrite | kernel/chr_drv/console.c:445-605 | for every input and every display the visible screen is that of Feed, and pos = origin + y*row + x cells, x <= columns, y < lines, top < bottom <= lines and the screen inside video memory hold after every byte; on every display, all of the run's changes to video memory are steps each of which writes only cells that are visible at its end |
| Console.SameOutput | kernel/chr_drv/console.c:107-168 | an EGA and a display that copies, showing the same screen, show the same screen after the same output |
| Terminal.LemmaSaveRestore | kernel/chr_drv/console.c:493-509 | after an escape, any byte other than the five tested ones saves the cursor exactly in column 55 and restores it exactly in column 56; so the sequences 7 and 8 do what they mean exactly there, or where there is nothing to be seen of it |
| Terminal.LemmaNothingSaved | kernel/chr_drv/console.c:505-506 | the sequence 7 in the first column saves nothing |
| Terminal.LemmaAddress | kernel/chr_drv/console.c:494-545 | the addressing sequence puts the cursor at the line and column it names and changes no cell; off the screen it is ignored |
| Terminal.LemmaText | kernel/chr_drv/console.c:460-480 | text that fits on the line fills the cells from the cursor on and nothing else |
| Sequences.LemmaWrap | kernel/chr_drv/console.c:455-462 | a character after the end of a line goes to the start of the next, with a line feed before it |
| Sequences.LemmaCarriageReturn | kernel/chr_drv/console.c:471-472 | byte 13 puts the cursor in the first column and changes no cell |
| Sequences.LemmaLineFeed | kernel/chr_drv/console.c:204-212 | bytes 10 to 12 and the escape sequence D go one line down; on the last line of the region its lines go up by one with a blank line at the end, and no other cell changes |
| Sequences.LemmaReverseFeed | kernel/chr_drv/console.c:214-222 | the escape sequence M goes one line up; on the first line of the region its lines go down by one with a blank line on top |
| Sequences.LemmaNextLine | kernel/chr_drv/console.c:498-499 | the escape sequence E goes to the start of the next line, if there is one |
| Sequences.LemmaBackspace | kernel/chr_drv/console.c:475-479 | byte 8 goes one column back, not before the line, and changes no cell |
| Sequences.LemmaErase | kernel/chr_drv/console.c:230-237 | the erase character goes one column back and blanks that one cell |
| Sequences.LemmaTab | kernel/chr_drv/console.c:480-488 | byte 9 goes to the next column that is a multiple of 8, and past the line as far into the next one, with a line feed |
| Sequences.LemmaIgnored | kernel/chr_drv/console.c:455-492 | other control characters, and those from 127 on, show nothing |
| Sequences.LemmaSequence | kernel/chr_drv/console.c:510-602 | escape, bracket, perhaps a question mark, up to 16 printed numbers with semicolons between them and a last byte: the sequence of that last byte with those numbers |
| Sequences.LemmaMoves | kernel/chr_drv/console.c:528-558 | A, B, e, C, a, D, E and F move the cursor by the printed number, 1 for 0 or none; G, ` and d put it in that column or line; a place off the screen is ignored, and no cell changes |
| Sequences.LemmaAddresses | kernel/chr_drv/console.c:560-564 | H and f put it in the line and column printed, counted from 1 |
| Sequences.LemmaSaves | kernel/chr_drv/console.c:595-600 | s saves the cursor, and u puts it where it was saved |
| Sequences.LemmaSetsRegion | kernel/chr_drv/console.c:586-594 | r makes the lines from the first to the second number the region, if there are such lines, and changes nothing else |
| Sequences.LemmaRendition | kernel/chr_drv/console.c:299-311 | the last of m's numbers that means an attribute sets it, and no number is 0 |
| Sequences.LemmaWipes | kernel/chr_drv/console.c:239-297 | J and K blank exactly the cells from the cursor on, up to it, or all, of the screen or of the line |
| Sequences.LemmaInserts | kernel/chr_drv/console.c:336-429 | L and M move the lines from the cursor's on down or up by the number, @ and P the rest of its line right or left; what comes in is blank, and no other cell changes |
| Sequences.LemmaUnknown | kernel/chr_drv/console.c:527-602 | any other last byte shows nothing |
| Terminal.LemmaRegion | kernel/chr_drv/console.c:204-212 | what is written without escapes from inside the scroll region never leaves it |
| Terminal.LemmaUndone | kernel/chr_drv/console.c:336-389 | deleting what was inserted brings back all but what the insertion pushed out, and the other way round |
| Scheduler.RunQueue.Schedule | kernel/sched.c:152-200 | schedule computes Rescheduled, and its outer loop ends after at most two passes |
| Scheduler.LemmaSchedule | kernel/sched.c:176-199 | it picks a runnable task of the greatest counter, the last of those, or task 0 if none is runnable; counters are recharged only when no runnable task has time left, and then once |
| Scheduler.LemmaTask | kernel/sched.c:157-188 | what schedule does to each task but the first: an alarm that is past becomes signal 14, an interruptible sleeper wakes exactly if it has a signal that is not blocked or is 9 or 19, and exactly when no runnable task has time left every counter is half itself plus the priority |
| Scheduler.RunQueue.DoTimer | kernel/sched.c:384-415 | the counter part of do_timer |
| Scheduler.LemmaTimer | kernel/sched.c:384-415 | a tick takes one from the current task's counter, not below 0, and from no other; in user mode with none left, a runnable task of the greatest counter, or task 0 if there is none, takes over |
| Scheduler.LemmaWait | kernel/sched.c:384-415 | a tick in user mode that a runnable task waits through uses up one of its measure, and nothing but a fork adds to it |
| Scheduler.LemmaBoundedWait | kernel/sched.c:176-199 | no runnable task starves: the user-mode ticks it waits are at most the measure it started with plus three times the priority of each task forked meanwhile |
| Scheduler.LemmaBounded | kernel/fork.c:85 | with constant priorities a counter that starts below twice the priority stays there |
| PipeRing.LemmaEmptyOrFull | include/linux/fs.h:62-68 | empty is head equal to tail, full is one byte short of that, and a chunk can be moved exactly if the ring is not full or not empty |
| PipeRing.LemmaFifo | fs/pipe.c:29-108 | over every interleaving of chunks, bytes read so far followed by what is in the ring are the bytes written so far, and at most 4095 are held |
| PipeRing.Pipe.ReadPipe | fs/pipe.c:29-61 | read_pipe returns bytes in pipe order, all that was read if it is the only reader, and stops short only when the ring is empty and an end is closed |
| PipeRing.Pipe.WritePipe | fs/pipe.c:64-108 | write_pipe puts its bytes in in order, all that was written if it is the only writer, and stops short, with SIGPIPE, only when the ring is full and an end is closed |
| OpenFiles.Kernel.SysClose | fs/open.c:192-208 | sys_close clears the mark and the slot, drops the file's count, and the inode with its last user |
| References.LemmaClose | fs/open.c:192-208 | close closes exactly an open descriptor, keeps every file's count equal to the slots that point to it and every inode's to its holders, and touches no other task |
| OpenFiles.Kernel.SysOpenStart | fs/open.c:138-156 | sys_open up to the lookup: the first free slot and file entry |
| OpenFiles.Kernel.SysOpenFinish | fs/open.c:157-185 | the rest of sys_open: the slot given back, or the entry filled with the inode |
| References.LemmaOpenStart | fs/open.c:138-156 | the counts hold in the middle of sys_open too, where the task may sleep |
| References.LemmaOpenGives | fs/open.c:138-156 | sys_open takes the lowest free slot and the first free entry, exactly if there are both |
| OpenFiles.Kernel.DupFd | fs/fcntl.c:18-34 | dupfd takes the first free slot from its argument on |
| References.LemmaDupFd | fs/fcntl.c:18-34 | dupfd makes a free slot another descriptor of the same file, unmarked, counted once more; otherwise nothing changes |
| References.LemmaDupGives | fs/fcntl.c:18-34 | dupfd succeeds exactly if the descriptor is open, the argument in range and a slot from there on free; it takes the lowest; each failure has its cause; nothing but slot, mark and count changes |
| OpenFiles.Kernel.SysDup2 | fs/fcntl.c:36-40 | sys_dup2 is close, then dupfd |
| References.LemmaDup2 | fs/fcntl.c:36-40 | it makes newfd a descriptor of oldfd's file exactly if oldfd is open, newfd is in range and they differ; dup2 of a descriptor onto itself closes it |
| OpenFiles.Kernel.SysPipe | fs/pipe.c:116-168 | sys_pipe: two entries and two slots, or all given back |
| References.LemmaPipe | fs/pipe.c:116-168 | a pipe that fails leaves everything as it was; one that succeeds adds two holders of its inode and keeps the counts |
| References.LemmaPipeGives | fs/pipe.c:116-168 | pipe succeeds exactly with an inode, two free slots and two free entries, and takes the first two of each |
| References.LemmaSetFd | fs/fcntl.c:58-63 | F_SETFD sets or clears the mark of that descriptor and no other |
| OpenFiles.Kernel.CopyReferences | kernel/fork.c:115-128 | copy_process's counting of files, directories and executable |
| References.LemmaFork | kernel/fork.c:115-128 | a fork gives the child the parent's references and counts each of them once more |
| References.LemmaReplaced | fs/open.c:75-103 | chdir changes pwd, chroot root and execve the executable to the inode found, and nothing else of any task; that inode gains one count and the old one loses it |
| OpenFiles.Kernel.ExitReferences | kernel/exit.c:115-123 | do_exit closes every descriptor and gives up directories and executable |
| OpenFiles.Kernel.ExecReferences | fs/exec.c:317-330 | do_execve replaces the executable and closes the marked descriptors |
| OpenFiles.Kernel.ChangePlace | fs/open.c:75-103 | chdir and chroot put the new directory in the old one's place, if it is a directory |
| References.LemmaExitExec | kernel/exit.c:115-123 | exit leaves no reference at all; exec leaves exactly the descriptors that were not marked, and the new executable |
| References.LemmaNeverFree | fs/inode.c:187-188 | an inode that anything refers to is counted, so iput's panic about a free inode is not reached |
| References.LemmaNoWrap | fs/open.c:192-208 | a file has at most NR_OPEN users per task |
| References.LemmaRun | fs/open.c:75-208 | over every run of open, close, dup, dup2, pipe, fork, chdir, chroot, exec, exit and release by any tasks, failures included, each f_count is the number of (task, fd) slots, each inode's count that of its holders, and close_on_exec marks open descriptors only |
| InodeTable.LemmaGuaranteeIsRely | fs/inode.c:181-355 | what one task does to the inode table between two sleeps is what every other relies on |
| InodeTable.Inodes.GetEmptyInode | fs/inode.c:236-274 | get_empty_inode returns an entry nobody counts on, unlocked and with no change that is not on disk, cleared and counted once; it finds none only when every entry is counted on |
| InodeTable.Inodes.IGet | fs/inode.c:298-355 | iget, for an inode nothing is mounted on, returns the only entry of that name, unlocked and counted exactly once more, whatever happens at its sleeps, or none with every entry counted on |
| InodeTable.Inodes.Share | kernel/fork.c:119-124 | copy_process counts a directory or executable again without waiting for its lock, and that keeps the rules |
| InodeTable.Inodes.ReadInode | fs/inode.c:358-376 | read_inode gives the fresh entry the contents the disk has |
| InodeTable.Inodes.WriteInode | fs/inode.c:378-402 | write_inode leaves the entry clean, with the change on disk, and nothing else lost |
| InodeTable.LemmaWritten | fs/inode.c:378-402 | the step from memory to disk leaves every inode what it was |
| InodeTable.Inodes.IPut | fs/inode.c:181-232 | iput drops one count; the last one out has written the entry or, exactly for one without links, cleared it; free_inode's panic and a lock taken meanwhile are told apart, and come only of a sleep |
| InodeTable.Inodes.FreeInode | fs/bitmap.c:107-134 | the memset of free_inode takes the name of an entry nobody else has, in order beside other tasks, and leaves every other inode |
| InodeTable.LemmaFreeKeeps | fs/bitmap.c:107-134 | that memset is safe beside other tasks exactly if nobody else counts on the entry and nobody has it locked |
| InodeTable.LemmaTorn | fs/inode.c:217-221 | an entry that another task has locked is one for which it is not: that task can no longer rely on what it locked |
| InodeTable.LemmaTornBySync | fs/inode.c:217-221 | an inode without links that sync_inodes locks to write while truncate sleeps is such an entry |
| InodeTable.Inodes.NewInode | fs/bitmap.c:136-168 | new_inode names an entry as the only one of its name, changed and counted once; it returns none only with every entry counted on or no free inode number |

## Findings

Where the code departs from what it evidently means to do:

- `fs/buffer.c:163` writes `bh->b_next->b_prev` without the null test that line 134 has. On an empty
  chain `b_next` is null, and the write goes to the word of low memory at that field's offset. The model
  has the test (`Queues.LinkHash`). Without it the lists come out the same, and that word is written
  exactly if the buffer has its bucket for itself (`BufferIndex.LemmaInsertAsWritten`), as the first one
  after `buffer_init` has (`BufferIndex.LemmaFirstInsertion`).
- `dup2(fd, fd)` of an open descriptor closes it and fails (`References.LemmaDup2`): `sys_dup2` closes
  `newfd` before it looks at `oldfd`.
- A script started with an empty argument list loses its own name to the environment, which loses its
  last string (`ExecStack.LemmaWhoGetsWhat`, `ExecStack.LemmaScriptLosesItsName`): `--argc` makes the
  count -1 before the three names are added.
- The comparison of an unsigned value with 0 in `copy_strings` (`fs/exec.c:128`) never holds, so strings
  longer than the argument pages wrap the pointer, and only those do (`ExecStack.LemmaCopyOutcome`,
  `ExecStack.LemmaOneTooLong`). The model stops there with the outcome `Wild`.
- `free_inode` clears the whole entry, lock and all, after `truncate` has slept, without waiting for
  the lock. If `sync_inodes` has locked the entry meanwhile, its lock is gone
  (`InodeTable.LemmaFreeKeeps`, `InodeTable.LemmaTorn`, `InodeTable.LemmaTornBySync`); `iput` ends in the
  outcome `Torn`.
- `free_s` walks the chains with interrupts on and re-checks only the predecessor. If the descriptor it
  is at is taken out of the chain just then, it goes on along the free descriptors and misses the
  bucket, exactly if that is on the same chain (`BucketPool.LemmaWalkInterrupted`,
  `BucketPool.LemmaWalkLost`).
- con_write in state 1 compares `x`, not the character, with '7' and '8'
  (`kernel/chr_drv/console.c:505-508`), so the cursor is saved when it happens to be in column 55 and
  restored when it is in column 56, whatever the character (`Terminal.LemmaSaveRestore`), and the
  sequence 7 anywhere else saves nothing (`Terminal.LemmaNothingSaved`).

## Left out

- BufferCache.Buffers.BRead: which transfers fail is open; others may end one without setting
  b_uptodate, and only then can it return none (`Succeeds`). FlatDisk has every completed transfer
  succeed (BufferCache.LemmaDelivers).
- BufferCache.Buffers.SyncDev: sync_inodes is one sleep, at which others may do anything that keeps the
  invariant; the promise about the disk is for a device that nobody writes to after it.
- BufferCache.Buffers.LlRwBlock: whether all requests are in use is a parameter; the queue itself is in
  RequestQueue. READA and WRITEA are modelled there only.
- RequestQueue.Requests.MakeRequest: returns MustSleep where the kernel sleeps; the sleep with the
  buffer locked is in BufferCache. The sector number does not wrap at the width of `b_blocknr<<1`.
- FileSystem.Device.FreeBlock: the early return for a block whose buffer is in use, and the dropping of
  a cached buffer, are not modelled; the buffer cache is out of sight of Zones and FileSystem.
- FileSystem.Device.NewBlock: the same; the block it clears is cleared in place.
- Zones.LemmaConserved: sequential runs. `_bmap` can sleep between its test and its assignment, and two
  tasks in it on one inode at once are not modelled. Reads of index blocks succeed.
- FileBytes.LemmaFiles: sequential runs; times and dirty flags of inodes are not modelled, and
  `sys_lseek` is the position that each call is given.
- CopyOnWrite.LemmaRefinesEagerCopy: execve and brk are not among the events, nor forks from base 0
  but for the first (Boot.LemmaFirstFork), nor sharing of executables and demand loading: a fault on a
  missing page gives a zero page. A task's code and data segments are equal, as change_ldt leaves them.
- MemoryManager.PhysicalMemory.DoWpPage: its branch that is compiled out, and the signal it ends with
  when memory is out, are not modelled.
- MemoryManager.PhysicalMemory.PutPage: a page beyond the end of memory, of which the code only warns,
  and the warning about a count other than 1.
- ProcessTable.TaskTable.FindEmptyProcess: the choice of last_pid.
- ProcessTable.TaskTable.CopyMem: its two panics, on segment bases that differ and on a data limit below
  the code limit; a task of the model has one base and its data limit is not below its code limit.
- InodeTable.Inodes.FreeInode: the bit of the inode and the panics about it.
- KernelHeap.Heap.FreeS: nothing is said of an address inside a bucket page that is not a live object.
  Addresses are in granules of 16 bytes.
- BucketPool.LemmaWalkInterrupted: one call at a time; a walk that has left its chain is not followed
  along the free descriptors, whose page fields are stale.
- ExecStack.DoExecve: the checks of the file, its permissions and its header, the registers, and an
  interpreter that is itself a script are left out; put_page is the bytes at their addresses.
- Console.Display.constructor: probing the hardware and writing its name at the top of the screen are
  left out; the number of columns is even and at least 4, as on every display it knows. The ports that
  set origin and cursor, the beep and the reply to a status request are left out.
- Console.Display.ConWrite: the steps of a run are scrolls, erasures and single cells. Within the scroll
  that wraps, the code writes to the start of video memory before it moves the origin there, so cells
  are visible at the end of the step, not yet at each store.
- Scheduler.LemmaBoundedWait: priorities do not change (`nice`), and ticks in kernel mode do not count,
  as they do not reschedule. The floppy, the beep and the timers of do_timer are left out.
- PipeRing.Pipe.ReadPipe: bytes move in the chunks between two sleeps; a page fault in the middle of a
  chunk is not modelled. The same for PipeRing.Pipe.WritePipe.
- References.LemmaRun: sys_pipe and get_pipe_inode are one step each; what namei finds is a parameter.
- InodeTable.Inodes.IGet: entries that something is mounted on are left out.
- InodeTable.Inodes.IPut: sync_dev of a block device and truncate are sleeps here; what truncate frees
  is in Zones. The inode bitmap is the parameter `free` of InodeTable.Inodes.NewInode, of which only
  that it names no inode in memory is known.
- SleepQueue.LemmaNoLostWakeUp: assumes that a task which is awake in sleep_on resumes some time
  (`Fair`). interruptible_sleep_on is left out: it can strand a sleeper.
- try_to_share, share_page and demand loading: sharing reads the directory entry as if it were the page
  entry (`mm/memory.c:443-444`).
- breada, block_write, bread_page and disk-change invalidation; super blocks and mounting; namei.
- add_timer, signals beyond what schedule does with them, sessions and terminals.
- The drivers for disk, floppy and ram disk, serial lines and keyboard, boot code and entry stubs.
