# Linux 1.0: verified models of the kernel's trickier parts

Dafny 4.11 models of parts of the Linux 1.0 kernel, with machine-checked proofs of what those parts are for. Each model
follows the C code branch by branch: the same tests in the same order, the same constants, 32-bit wrap-around where the
code has it, and the same wrong answers where the code gives one. The proofs are about whole runs wherever the code
keeps state between calls.

Check the whole project with `dafny verify dfyconfig.toml`.

| part | source | files |
|---|---|---|
| decompression of the boot image | `zBoot/inflate.c`, `zBoot/misc.c`, `zBoot/unzip.c` | Bits, Canonical, HuftTables, HuftLookup, HuftBuild, Crc, CrcRemainder, Window, BitSource, Deflate, Inflate |
| fork and copy-on-write | `mm/memory.c`, `mm/swap.c` | PageFrames, Ownership, CopyOnWrite, ForkRuns |
| POSIX record locks | `fs/locks.c` | LockRanges, LockScan, LockExact, LockTable, Locks, LockRuns |
| mmap and munmap | `mm/mmap.c` | AreaList, Mmap |
| the buffer cache | `fs/buffer.c` | BufferLinks, BufferQueues, BufferCache |
| kmalloc and kfree_s | `mm/kmalloc.c` | KmallocHeap, Kmalloc |
| pipes | `fs/pipe.c` | Pipe |
| timers and the scheduler | `kernel/sched.c` | Timers, Scheduler |
| arguments of a new program | `fs/exec.c` | ExecStrings, ExecTables |
| swap entries and slots | `mm/swap.c` | Swap |
| printing and reading numbers | `kernel/vsprintf.c` | Vsprintf |

Code that the kernel runs without sleeping is one step of a model; where it can sleep, or be interrupted, other steps
may come in between, in any order. What the kernel takes from outside (the next free page, which pages are shared, what
I/O does to a buffer, when a process goes on) is a parameter of a step or a step of its own, and the theorems hold for
every choice. Objects that the code updates in place are classes with the same fields; linked lists are kept as the
fields of their records where the pointer surgery is the point (the buffer cache, kmalloc) and as sequences elsewhere.
`Basics` holds the few definitions that several models share.

The main results:

- The tables of `huft_build`, filled in place by replication and a bit-reversed increment, decode exactly the canonical
  code of section 3.2.2 of RFC 1951, if and only if a condition on the code lengths holds; the decompressor meets it,
  and `inflate` then computes what the format says the stream means, if and only if no distance reaches beyond the
  output; what it computes for the others is given too.
- Every run of forks, writes, first touches and exits shows each process what eager copying would, and every page has
  exactly as many references as `mem_map` counts; an operation fails exactly when the frames it needs are not there, and
  when the last process exits nothing has leaked.
- Over every run of lock requests and closes no byte is ever held by two owners unless both hold it for reading, even
  when the end of a request wraps; the exact conditions are given under which a list stays sorted, disjoint and merged
  and under which it holds exactly the bytes asked for.
- Every run of mmap and munmap calls keeps the list of areas sorted and disjoint and maps every address as the calls and
  their answers say, if and only if it has no call of the one kind whose new area ends below its start; and every call is
  answered by what the calls before it have left.
- Under every interleaving at its sleep points the buffer cache has at most one buffer for a block, found on its chain,
  with as many uses as processes hold it, whoever `getblk` has served holds the block it asked for, and who finds it up to
  date finds what was last written to the block.
- Every timer that is set and not deleted fires, when its count of ticks is up and in the order of setting; with delays
  of at least one tick it fires at exactly the nth tick if the bottom half is done between any two ticks, which is also
  exactly when no tick is lost.
- Over any run of the scheduler each task that is runnable throughout a lap runs for exactly its priority of ticks in it,
  and every tick of the run is in one lap; the ticks that come while a new choice is still wanted are the margin.

## Model

| member | source | states |
|---|---|---|
| `Canonical.PrefixFree` | zBoot/inflate.c:196-305 | of the codes the construction hands out, no code is a prefix of another: a stream starts with a code of at most one length |
| `Canonical.HeadsUnique` | zBoot/inflate.c:196-305 | at most one symbol's code heads any stream, so decoding by the code lengths alone is a function, against which the tables are measured |
| `Canonical.CompleteDecodes` | zBoot/inflate.c:168-174 | a set of lengths whose count of leftover patterns comes out as 0 decodes every stream |
| `HuftTables.WidenTable` | zBoot/inflate.c:229-234 | the widening ends one bit past the shortest code at least, at the limit at most if that leaves room, below the limit only where the codes left end within the table, and no narrower table would do |
| `HuftTables.SizeTable` | zBoot/inflate.c:222-237 | the smallest table that its codes fill, or as wide as the lookup or the longest code allows; it oversteps the lookup width exactly when too many patterns are left over, since the limit is not looked at before the first try |
| `HuftTables.NewTable` | zBoot/inflate.c:222-266 | a new table of the size found is linked in the table before it at the slot of the current prefix, and is wide enough for the codes that pass through it |
| `HuftTables.OpenTable` | zBoot/inflate.c:216-267 | one turn of the table loop keeps the invariant of all tables built so far |
| `HuftTables.FillTable` | zBoot/inflate.c:286-289 | every slot whose index has the code as its low bits, and no other, gets the entry |
| `HuftTables.BackwardsIncrement` | zBoot/inflate.c:291-294 | the increment on a bit-reversed code yields the reversal of the next code |
| `HuftTables.BackUp` | zBoot/inflate.c:296-301 | after the increment the tables left on the stack are those on the next code's path, and those taken off lie wholly behind it |
| `HuftTables.EnterCode` | zBoot/inflate.c:270-289 | the entry of the current code is where every stream headed by it looks, with what earlier streams find unchanged, and the next value is due |
| `HuftTables.FillTables` | zBoot/inflate.c:196-305 | with all codes entered the tables are well formed and, where the lookup width fits, every stream finds an entry in every table it passes through |
| `HuftLookup.WalkDecodes` | zBoot/inflate.c:361-370 | the lookup loop ends, on every stream, at the entry of the code at its head with exactly that code's bits consumed |
| `HuftLookup.WalkGoesWild` | zBoot/inflate.c:361-370 | where the size search oversteps, the lookup on one bits reads an entry that was never written |
| `HuftBuild.CountLengths` | zBoot/inflate.c:135-140 | the count of each code length |
| `HuftBuild.Leftover` | zBoot/inflate.c:168-174 | the number of unused patterns of the longest length, and less than 0 exactly for a set that promises more codes than there are patterns |
| `HuftBuild.SortValues` | zBoot/inflate.c:187-192 | every symbol with a code stands at its place in the order of length, then symbol |
| `HuftBuild.Build` | zBoot/inflate.c:99-311 | the result code says exactly whether the set is complete, incomplete or oversubscribed; the tables decode every stream as the canonical code does and reject the rest if the lookup width fits, and if it does not some stream leads out of what was written |
| `HuftBuild.ExactlyWhenFits` | zBoot/inflate.c:222-237 | a complete set is decoded correctly if and only if at every table boundary fewer patterns are left than a table has entries |
| `HuftBuild.FitsWhenShallow` | zBoot/inflate.c:222-237 | a set no deeper than two lookups always fits |
| `HuftBuild.FitsWhenFew` | zBoot/inflate.c:222-237 | a complete set of fewer than 2^l symbols fits every lookup width of l bits, which covers the 9-bit literal and 6-bit distance tables |
| `HuftBuild.OneBitLookupFails` | zBoot/inflate.c:222-237 | a complete set that does not fit: one 1-bit and four 3-bit codes looked up one bit at a time |
| `BitSource.Source.Need` | zBoot/inflate.c:84-84 | filling the bit buffer leaves the stream of bits as it is and makes n of them available, unless the input ends |
| `BitSource.Source.Dump` | zBoot/inflate.c:85-85 | n bits fewer, the rest of the stream as it was |
| `BitSource.Source.Get` | zBoot/inflate.c:387-389 | the next n bits, first bit lowest, and the stream behind them |
| `Window.Slide.Put` | zBoot/inflate.c:371-379 | one byte more of output; the window still holds the last 32768 bytes |
| `Window.Slide.CopyMatch` | zBoot/inflate.c:406-426 | the chunked copy in the circular window, overlapping or not, appends what copying byte by byte from dist back in the unbounded output appends, with zeros before its start, for every distance up to the window and every length |
| `Window.Slide.Flush` | zBoot/misc.c:215-225 | a full window moved to the output, its bytes added to the checksum |
| `Window.Slide.Finish` | zBoot/inflate.c:803-808 | the bytes still in the window flushed: the output is all that was decoded |
| `Deflate.StreamAgree` | zBoot/inflate.c:403-426 | the meaning the decompressor gives a stream is that of RFC 1951 if and only if no distance reaches beyond the output |
| `Deflate.EveryLength` | zBoot/inflate.c:51-57 | every length from 3 to 258 has a length code with extra bits, and only one below the last, which stands for 258 |
| `Deflate.EveryDistance` | zBoot/inflate.c:58-65 | every distance from 1 to 32768 has exactly one distance code with one value of its extra bits |
| `Deflate.LengthBits` | zBoot/inflate.c:55-57 | the numbers of extra bits of the length codes |
| `Deflate.DistanceBits` | zBoot/inflate.c:62-65 | the numbers of extra bits of the distance codes |
| `Deflate.OrderOutward` | zBoot/inflate.c:49-50 | the code length codes come as 16, 17, 18, 0 and then outward from 8 |
| `Deflate.OrderOnce` | zBoot/inflate.c:49-50 | no code length code comes twice in that order, so each of the 19 comes once |
| `Crc.Checksum.constructor` | zBoot/misc.c:235-265 | each table entry is eight turns of the reflected shift register from its index |
| `Crc.Checksum.Update` | zBoot/misc.c:153-171 | the table-driven register after n bytes is the bit-at-a-time register after those bytes |
| `Crc.ByteSplit` | zBoot/misc.c:161-167 | eight shifts of a word are the shifts of its low byte and the other bytes moved down |
| `Crc.AnySplit` | zBoot/misc.c:153-171 | for every message and every way to cut it into calls the last result is the CRC of the whole |
| `Crc.PolynomialTerms` | zBoot/misc.c:235-251 | the polynomial has the terms listed |
| `CrcRemainder.CrcIsRemainder` | zBoot/misc.c:153-171 | for every message the register is the remainder of the message polynomial times x^32, its first 32 coefficients turned over, in the division by the generator, and the CRC is that turned over |
| `Inflate.DecodeSymbol` | zBoot/inflate.c:361-370 | one symbol read from the bit buffer is the outcome of the lookup on the whole stream, with exactly its bits dropped; it halts only when fewer than 16 bits are left |
| `Inflate.ReadMatch` | zBoot/inflate.c:386-404 | length and distance with their extra bits, as section 3.2.5 of RFC 1951 has them |
| `Inflate.InflateCodes` | zBoot/inflate.c:336-438 | a block of literals and matches decoded to what it means, distances beyond the output included, and the stream left behind its end code |
| `Inflate.InflateStored` | zBoot/inflate.c:442-494 | a stored block decoded to what section 3.2.4 of RFC 1951 says, or an error exactly when the length and its complement differ |
| `Inflate.InflateFixed` | zBoot/inflate.c:498-548 | a block in the fixed codes decoded to what it means |
| `Inflate.InflateDynamic` | zBoot/inflate.c:552-726 | the code lengths read, run lengths undone, both tables built and the block decoded to what it means; an error, or a table entry that was never written, exactly where the format has none of these |
| `Inflate.AcceptedIs` | zBoot/inflate.c:684-710 | huft_build's answers accept a set of lengths exactly when it is complete, empty or one-bit only |
| `Inflate.InflateBlock` | zBoot/inflate.c:730-773 | a block by its type |
| `Inflate.InflateStream` | zBoot/inflate.c:777-818 | for every input the output is what the stream means with zeros before its start, and the read position is the first byte behind it; where it succeeds the output is what RFC 1951 says if and only if no distance reaches beyond the output |
| `Inflate.Unzip` | zBoot/unzip.c:95-180 | it succeeds if and only if the stream ends and its CRC and its length modulo 2^32 stand behind it; what comes out is what the stream means with zeros before its start, and what RFC 1951 says if and only if no distance reaches beyond the output |
| `Inflate.OpensWithMatch` | zBoot/inflate.c:403-426 | the three bytes 3, 2, 0 are no stream of RFC 1951, as they open with a match, and come out as three zeros |
| `PageFrames.PutRefs` | mm/memory.c:209-266 | how a change of one page table entry changes the number of entries that map a page |
| `PageFrames.ShareCore` | mm/memory.c:247-260 | sharing an entry write-protected shows the same bytes in both tables and keeps every count equal to the number of mappers |
| `PageFrames.CopyUpCore` | mm/memory.c:551-610 | the private copy shows the same bytes, writable, to one process, and no other entry changes |
| `CopyOnWrite.Mm.constructor` | mm/memory.c:1049-1116 | a state to start from: one process, the tables of the kernel and any number of free frames meet the invariant |
| `CopyOnWrite.Mm.FreeOneTable` | mm/memory.c:82-110 | a directory slot cleared, its table and pages released, no other process's view changed |
| `CopyOnWrite.Mm.FreePageTables` | mm/memory.c:157-186 | a whole address space given back, others unchanged |
| `CopyOnWrite.Mm.CopyPageTables` | mm/memory.c:209-266 | it succeeds exactly when there is a frame for the directory and each table of the parent; the child then sees what the parent sees, the parent still does, and after a failure all is as before |
| `CopyOnWrite.Mm.CopyOrGrant` | mm/memory.c:551-610 | the page becomes writable by copying or, for its only user, by permission; nothing visible changes |
| `CopyOnWrite.Mm.DoWpPage` | mm/memory.c:616-652 | a write to a page that is not copy-on-write is refused, any other made possible with nothing visible changed |
| `CopyOnWrite.Mm.Write` | mm/memory.c:616-652 | a store is seen by the process that makes it, in one byte, and by nobody else; it takes a frame exactly when a copy is due |
| `CopyOnWrite.Mm.GetEmptyPgtable` | mm/memory.c:791-820 | a blank table where there is none, nothing visible changed |
| `CopyOnWrite.Mm.GetEmptyPage` | mm/memory.c:667-677 | a page of zeros at an empty entry, seen there only |
| `CopyOnWrite.Mm.Touch` | mm/memory.c:822-879 | the first touch of an anonymous page shows zeros there and changes nothing else; it takes a frame for the page and one for the table, where they are not there |
| `Ownership.NothingLeaks` | mm/swap.c:512-541 | in every state that meets the invariant with no process left, every frame that is not reserved is on the free list |
| `ForkRuns.Step` | mm/memory.c:209-266 | one fork, write, touch or exit has on every process's space the effect that eager copying has; it fails, and changes no space, exactly when the frames it needs are not there |
| `ForkRuns.Run` | mm/memory.c:209-266 | every run refines eager copying: each process's space is that of the eager run, up to the first operation for which memory is short |
| `LockTable.Table.constructor` | fs/locks.c:41-52 | all nodes are on the free list and no file has locks |
| `LockTable.Table.AllocLock` | fs/locks.c:409-433 | a free node goes to the place asked for, other files' lists stay, and every node is on the free list or on one list, once |
| `LockTable.Table.FreeLock` | fs/locks.c:439-454 | a node goes back, with the same partition kept |
| `LockRanges.ResultGood` | fs/locks.c:294-402 | the pass over, the owner's locks are sorted, disjoint and merged and hold the request's kind inside its range and what they held outside it |
| `LockScan.AfterTame` | fs/locks.c:272-403 | whatever state an owner's locks are in, lock_it locks no byte that was not locked so before or asked for |
| `LockExact.AfterExact` | fs/locks.c:272-403 | on locks in order lock_it leaves them in order if and only if the end of the request does not wrap, and with exactly the bytes asked for if and only if it does not wrap with a lock of another kind behind the one it should have merged with; it refuses to unlock exactly when nothing in the range is locked, and refusals change nothing |
| `Locks.LockIt` | fs/locks.c:272-403 | on the linked list: other owners' bytes and other files never change, bytes never exceed those held or asked for, groups stay together; on a list in order the exact result, with ENOLCK only when the list it should leave needs more nodes than there are |
| `Locks.WrapExample` | fs/locks.c:301-308 | two read locks of one owner to the end of all files are both kept, the second in front of the first, and unlocking some of their bytes then leaves those locked |
| `Locks.MixedExample` | fs/locks.c:301-308 | a read lock to the end of all files over a read lock and a write lock of one owner: the list wraps and the write lock is never looked at |
| `LockRuns.Parse` | fs/locks.c:111-134 | the range and kind of a request are those asked for; it is rejected with EINVAL exactly for a file that is not regular, an unknown type or origin, a negative length, or a start outside the offsets |
| `LockRuns.TryLock` | fs/locks.c:140-166 | a try is blocked exactly by a conflicting lock, on a list in order exactly when another owner holds a byte of the range and one of the two is for writing; ENOLCK only when the list it should leave needs more nodes than there are; and the file stays safe |
| `LockRuns.ConflictBytes` | fs/locks.c:231-250 | the test of two ranges and kinds finds a conflict exactly when a look at every byte would |
| `LockRuns.GrantedSafe` | fs/locks.c:231-250 | the conflict test lets through only requests after which bytes of two owners are held for reading |
| `LockRuns.SafeByBytes` | fs/locks.c:247-250 | on lists in order, safety by overlapping ranges is safety byte by byte |
| `LockRuns.RemoveLocks` | fs/locks.c:173-189 | the list without the owner's and descriptor's locks, in the old order, every node back on the free list |
| `LockRuns.Run` | fs/locks.c:94-189 | every run of requests and closes keeps every file safe, wraps included, and in order up to the first wrap |
| `LockRuns.RunFromBoot` | fs/locks.c:41-52 | so does every run from the empty table that fcntl_init_locks makes |
| `AreaList.MapsOnce` | mm/mmap.c:360-384 | in a sorted list an address has one set of attributes |
| `Mmap.Space.InsertVmStruct` | mm/mmap.c:360-384 | the area added at its place, everything else mapped as before; the list stays sorted and disjoint if and only if the area is well formed and nothing is mapped in it |
| `Mmap.Space.UnmapFixup` | mm/mmap.c:178-227 | of an area exactly what lies outside the range is put back, with file offsets that still fit |
| `Mmap.Space.DoMunmap` | mm/mmap.c:246-308 | EINVAL exactly for a range that is not aligned or not in user space; otherwise the page-rounded range is unmapped and every other address mapped as before |
| `Mmap.MergeSegments` | mm/mmap.c:391-439 | no two neighbours are left that one area could stand for, and every address is mapped as before; an area that ends at zero is not mended |
| `Mmap.FindRoom` | mm/mmap.c:83-101 | the lowest page-aligned gap of the search range, or none if there is none, unless the length is all of TASK_SIZE |
| `Mmap.DoMmap` | mm/mmap.c:42-135 | each answer exactly for the requests it is due to, in terms of the request and what is mapped; the lowest place there is; the range mapped as wanted and everything else as before; what each failure has already changed; the list stays sorted and disjoint if and only if this is not a mapping of all of TASK_SIZE at no given place that succeeds |
| `Mmap.AstrayExample` | mm/mmap.c:86-101 | a request that meets that condition |
| `Mmap.Run` | mm/mmap.c:42-308 | after any run the list is sorted and disjoint if and only if no call was of that kind, every call is answered by what the calls before it have left, and every address is mapped as the calls and their answers say |
| `BufferLinks.Link` | fs/buffer.c:323-337 | a record put between the last and the first of the ring gives the ring with it at the end |
| `BufferQueues.TakeOutOk` | fs/buffer.c:282-308 | a buffer off both queues leaves the ring and every chain intact without it |
| `BufferQueues.PutInOk` | fs/buffer.c:339-355 | a buffer put on is last on the ring and first on its chain, all else intact |
| `BufferQueues.PutLastOk` | fs/buffer.c:323-337 | a buffer moved to the end of the ring, chains untouched |
| `BufferQueues.GrownOk` | fs/buffer.c:881-895 | a new buffer in front of the ring, the empty ring included |
| `BufferCache.Cache.constructor` | fs/buffer.c:1010-1025 | the first page of buffers on an empty list meets the invariant |
| `BufferCache.Cache.FindBuffer` | fs/buffer.c:357-371 | the walk along one chain finds a buffer exactly when some buffer anywhere holds the block |
| `BufferCache.Cache.LookUp` | fs/buffer.c:453-459 | getblk goes on to its scan exactly when no buffer holds the block; a hit that is locked is slept on, any other handed out, and is last on the ring if it is up to date and clean; no other process is touched |
| `BufferCache.Cache.WakeHit` | fs/buffer.c:384-392 | after the sleep the process has the buffer exactly when it is unlocked and still of the block asked for, and starts over when it is another's |
| `BufferCache.Cache.Victim` | fs/buffer.c:465-485 | a free buffer of the size on a page nobody shares, clean if any is and then unlocked if any is, or none exactly when there is none |
| `BufferCache.Cache.Take` | fs/buffer.c:497-517 | the victim becomes the block's buffer, neither dirty nor up to date and last on the ring, exactly when it is still free, of the size and clean and no buffer has the block by now; else nothing changes but where the process stands |
| `BufferCache.Cache.ScanStep` | fs/buffer.c:465-517 | getblk ends with a buffer of the block when some free one of the size is neither dirty nor locked and the block is still missing; else it sleeps on the best there is, writes, or starts over, as that is |
| `BufferCache.Cache.WakeVictim` | fs/buffer.c:496-517 | after the sleep the scan's choice is looked at anew, left alone while it is locked, and taken exactly when nobody else has it, it is clean and the block is still missing |
| `BufferCache.Cache.Release` | fs/buffer.c:520-532 | brelse lets a buffer go at once exactly when it is not locked, and sleeps counted on it otherwise |
| `BufferCache.Cache.PutInFront` | fs/buffer.c:864-901 | the buffers of a page join the ring one by one, of no device and unused, and no other changes |
| `BufferCache.Cache.PutLastFree` | fs/buffer.c:954-960 | a buffer shrink_buffers passes over goes to the end of the ring |
| `BufferCache.Cache.TryToFree` | fs/buffer.c:907-936 | a page is given back exactly when all its buffers are unused, clean and unlocked, and no other buffer changes |
| `BufferCache.Cache.LoadAligned` | fs/buffer.c:740-791 | a page of buffers for the blocks, each held and none up to date, exactly when none of them is a hole or cached |
| `BufferCache.Cache.StartRead` | drivers/block/ll_rw_blk.c:210-214 | a read begins only of a buffer that is not up to date; no block changes |
| `BufferCache.Cache.StartWrite` | drivers/block/ll_rw_blk.c:210-266 | a write begins only of a dirty buffer, which is clean from then on; no block changes |
| `BufferCache.Cache.EndRead` | drivers/block/blk.h:261-265 | after a read the buffer has what the device has, which is what was last written to the block |
| `BufferCache.Cache.EndWrite` | drivers/block/blk.h:261-265 | after a write the device has what the buffer has, unless that was written to meanwhile and is dirty again |
| `BufferCache.Cache.Fail` | drivers/block/blk.h:248-265 | after an error the buffer is not up to date and the block is what the device has |
| `BufferCache.Cache.Invalidate` | fs/buffer.c:190-204 | a buffer given up for a changed medium: the block is what the device has |
| `BufferCache.Run` | fs/buffer.c:447-532 | every interleaving of getblk, brelse, writes by processes, transfers and their failures, growth and shrinking keeps the invariant, and every block is to be what the log of writes says |
| `BufferCache.BootAndRun` | fs/buffer.c:1010-1025 | so does every one that starts from buffer_init, and a process with an up-to-date buffer has what was last written to its block |
| `BufferCache.LastWritten` | fs/buffer.c:536-556 | a buffer that is up to date has what was last written to the block it is filed under |
| `BufferCache.Coherent` | fs/buffer.c:447-518 | the invariant means one buffer at most for a block, on its chain exactly when the block is cached, every buffer once on the ring, and the served holding their blocks |
| `KmallocHeap.BlocksApart` | mm/kmalloc.c:92-102 | two blocks of a page do not overlap, for each of the size classes |
| `KmallocHeap.ClassesFill` | mm/kmalloc.c:92-102 | each class has as many blocks as fit behind the descriptor of a page, and the larger ones are as large as that many can be |
| `Kmalloc.PayloadsApart` | mm/kmalloc.c:148-267 | payloads lie inside their blocks and no byte is in two of them |
| `Kmalloc.FreePlusLive` | mm/kmalloc.c:270-344 | the free count of a page and its blocks in use add up to all its blocks |
| `Kmalloc.GetOrder` | mm/kmalloc.c:136-146 | the first size class that holds the size and a header |
| `Kmalloc.Allocator.Kmalloc` | mm/kmalloc.c:148-267 | a block that was not live becomes live with the size asked for; NULL exactly for a size with no class or when no page of the class has a free block and there is no new page, and then nothing changes |
| `Kmalloc.Allocator.KfreeS` | mm/kmalloc.c:270-344 | a live block freed with size 0 or its own size is live no more, anything else changes nothing, and the page is released exactly when no live block is left in it |
| `Kmalloc.Run` | mm/kmalloc.c:148-344 | after any run the live blocks are those the ledger of the calls says, no call returned a block that was live, and NULL was the answer exactly for a size with no class or when no page of the class had room and none could be had |
| `Pipe.AllOrNothing` | fs/pipe.c:80-115 | a write of at most PIPE_BUF bytes that does not hold the lock has sent all of them or none |
| `Pipe.PipeSafe` | fs/pipe.c:37-115 | in every state of every run readers have a prefix of the stream written, one process at most has the lock, each call has sent a prefix of its data, and a short one stands in the stream in one piece |
| `Pipe.ReadGets` | fs/pipe.c:44-62 | a reader leaves with as many bytes as there were when it got the lock, up to its count, the next ones of the stream |
| `Pipe.WriteSends` | fs/pipe.c:81-115 | a writer leaves when it has sent all that was left, or as much as there was room for when it got the lock; a short call sends all at once |
| `Pipe.NeverStuck` | fs/pipe.c:27-115 | with the lock free and something left to write a reader or the writer can go in |
| `Pipe.Settles` | fs/pipe.c:44-115 | every step of the one with the lock brings it nearer to giving it back |
| `Pipe.GoesOn` | fs/pipe.c:44-115 | the one with the lock can always go on |
| `Timers.TimerList.AddTimer` | kernel/sched.c:407-429 | the new timer goes behind all that are due no later, and the deltas still stand for the same deadlines of the others |
| `Timers.TimerList.DelTimer` | kernel/sched.c:431-453 | found exactly when set, with the ticks it had left, and the others' deadlines kept |
| `Timers.TimerList.Tick` | kernel/sched.c:704-713 | a tick changes no deadline counted in ticks not lost, and is lost exactly when the first timer is due |
| `Timers.TimerList.Fire` | kernel/sched.c:572-579 | one pass of the bottom half takes off the first timer exactly when it is due |
| `Timers.TimerList.TimerBh` | kernel/sched.c:566-580 | without an interrupt all that are due are taken off, in order |
| `Timers.DelUndoesAdd` | kernel/sched.c:407-453 | deleting a timer that was just set gives back the queue as it was |
| `Timers.Run` | kernel/sched.c:407-713 | any run of the delta list does what a clock with a sorted queue of absolute deadlines does |
| `Timers.RunAhead` | kernel/sched.c:566-713 | in every run all that fires does so when its count of ticks is up, in order of deadlines, and nothing queued is overdue |
| `Timers.FiresWhenDue` | kernel/sched.c:566-713 | a timer that is set and not deleted waits until its count of ticks is up and has fired, at that count, once the bottom half is done with it |
| `Timers.FiresAtNthTick` | kernel/sched.c:407-713 | set for n ticks it fires at exactly the nth tick if no tick is lost meanwhile |
| `Timers.LostExactly` | kernel/sched.c:704-713 | no tick of a run is lost if and only if every tick finds no timer that is due |
| `Timers.PromptExactly` | kernel/sched.c:566-713 | with every delay at least 1 no tick is lost if and only if the bottom half comes to its end between any two ticks |
| `Timers.FiresPromptly` | kernel/sched.c:407-713 | a timer set for n ticks with n at least 1 fires at exactly the nth tick if the bottom half is done between any two ticks |
| `Timers.ZeroTimerDelays` | kernel/sched.c:407-429 | a timer added with 0 ticks costs a tick: the next one fires a tick late |
| `Timers.FirstSetFirstFired` | kernel/sched.c:407-580 | of two timers the one set later for no earlier a deadline never fires first, whatever else is set or deleted |
| `Scheduler.Select` | kernel/sched.c:270-277 | the first of the runnable tasks with the largest counter, or none when none is runnable |
| `Scheduler.Cpu.Schedule` | kernel/sched.c:270-285 | the choice is task 0 exactly when none is runnable; counters are renewed exactly when some task is runnable and all those have used theirs up, and the lap that ends, with the ticks that were in it, was then fair |
| `Scheduler.Cpu.Tick` | kernel/sched.c:682-685 | the tick is the running task's, which pays for it if it has one left; a new choice is asked for when it has none, and a tick that comes while one is wanted is late |
| `Scheduler.Cpu.Wake` | kernel/sched.c:318-326 | a sleeping task made runnable asks for a new choice exactly when it has more left than the running one |
| `Scheduler.FairExactly` | kernel/sched.c:211-285 | in a fair lap without a late tick a task that is runnable at both ends had exactly its priority of ticks |
| `Scheduler.Run` | kernel/sched.c:211-285 | over any run of ticks, choices, sleeps and wake-ups every tick is in one lap, from one renewal to the next, and every lap is fair: a task that is runnable at its end had the ticks it was given, its priority if it was runnable at the start too, and no task more, but for late ticks; there are none when the choices asked for are made before the next tick; and only a sleep makes a task stop being runnable |
| `Scheduler.StaysInRange` | kernel/sched.c:279-282 | a counter stays below twice the priority through a renewal; one that is used up becomes the priority, and a sleeper keeps half of what it had on top of it |
| `ExecStrings.Image.CopyStrings` | fs/exec.c:345-399 | the strings stand one behind the other below p, with their NULs, and what was above is as it was; 0 exactly when they do not fit with a byte to spare |
| `ExecStrings.Image.Setup` | fs/exec.c:556-690 | the pages hold the arguments and the environment, or for a script interpreter, argument, script and the rest; the count is right except for a script started with no arguments at all, when it is one short |
| `ExecTables.User.CreateTables` | fs/exec.c:268-311 | the tables built by scanning forward point at the strings that were copied backward, each ended by a null pointer, right below the strings, with the stack pointer at the count below them |
| `ExecTables.Prepare` | fs/exec.c:268-690 | whole round trip: the new program's argc, argv and envp read back the strings passed to execve, or those the script's first line makes of them, from the top of its memory down, if and only if it is not a script started with no arguments; then the last argument is found as the first string of the environment; refused exactly when they do not fit |
| `Swap.EntryDecodes` | mm/swap.c:29-31 | an entry decodes to the type and offset it was made of and is never taken for a present page |
| `Swap.NewArea` | mm/swap.c:789-817 | exactly the good pages of a new area are free, and the hints enclose them |
| `Swap.SwapSpace.SwapOn` | mm/swap.c:726-834 | an area more with its good pages free, refused exactly when there are eight areas or no good page |
| `Swap.SwapSpace.GetSwapPage` | mm/swap.c:106-127 | 0 exactly when no writable area has a free slot, else the lowest of the first that has one, which nobody held |
| `Swap.SwapSpace.SwapDuplicate` | mm/swap.c:129-155 | what is returned for every entry, and one reference more to a slot in use; the count still is the number of references if and only if there were fewer than 255 and the slot is not a bad one |
| `Swap.SwapSpace.SwapFree` | mm/swap.c:157-195 | for every entry: one reference less to a slot in use, nothing for a free one, and the count of free pages goes up exactly with the last; the books stay right if and only if the slot is not a bad one |
| `Swap.Run` | mm/swap.c:106-195 | any run of calls with any entries, from swapon on, keeps counts equal to references, the free count right and the hints around every free slot, up to a 256th reference to one slot or an entry for a bad one |
| `Swap.CountWraps` | mm/swap.c:106-155 | from an empty system: an area, a slot and 255 more references to it, after which its count is wrong |
| `Vsprintf.Number` | kernel/vsprintf.c:67-117 | nothing for a base outside 2 to 36, else sign, prefix, precision and padding as the flags say |
| `Vsprintf.TableIs` | kernel/vsprintf.c:70-74 | the digits are the ten figures and then the letters, large or small |
| `Vsprintf.PrintedLength` | kernel/vsprintf.c:67-117 | for every combination of flags, width and precision the output is as wide as asked for, or as its parts need |
| `Vsprintf.SimpleStrtoul` | kernel/vsprintf.c:17-40 | the value modulo 2^32 of the longest run of digits in the base given or found |
| `Vsprintf.ReadBack` | kernel/vsprintf.c:17-117 | what number prints of an unsigned value strtoul reads back, for every base from 2 to 36, every width and precision, as the number that the digits before the first above f stand for; that is the value if and only if all digits are hexadecimal, as they are in bases up to 16 |
| `Vsprintf.ReadPrefixed` | kernel/vsprintf.c:17-117 | so it does with a prefix in the base found from it, unless the prefix is a capital 0X, which reads as 0 |
| `Vsprintf.ReadSigned` | kernel/vsprintf.c:17-117 | what number prints of any value, with every flag, base up to 16, width and precision, read back as sign, prefix and digits is that value, or it modulo 2^32 when printed without a sign |
| `Vsprintf.Signed` | kernel/vsprintf.c:79-83 | a minus exactly for a negative number printed as signed, else a plus or a space as the flags say, and the magnitude |

## Findings

Where the code does not do what its comments or its callers count on, the model keeps the code as it is and gives the
exact condition.

- huft_build (zBoot/inflate.c:229): the size search compares with the limit only after its first step, so a table below
  the root can come out wider than the lookup width, and its unwritten part is then reachable. `HuftBuild.ExactlyWhenFits`
  has the condition on the code lengths, `HuftBuild.OneBitLookupFails` an instance, `HuftBuild.FitsWhenFew` the reason
  the decompressor never meets one.
- huft_build (zBoot/inflate.c:107-111, 141-146): the comment says that a set without codes is invalid; the code
  returns 0 for it. `HuftBuild.Build` follows the code.
- inflate_codes (zBoot/inflate.c:403-408): a distance beyond the start of the output is not noticed and copies what the
  window holds, zeros (zBoot/head.S:46-55 clears it). `Deflate.StreamAgree` and `Inflate.InflateStream` have the
  condition, `Inflate.OpensWithMatch` an instance.
- lock_it (fs/locks.c:307): the end of the lock plus one wraps for a lock up to the largest offset, so that a lock of the
  same kind behind it is not merged. `LockExact.AfterExact` and `Locks.LockIt` say that the list stays in order if and
  only if `WrapsAt` does not hold, and that the bytes are right if and only if `WrapsAt` and `MixedAt` do not both hold.
  `Locks.WrapExample` and `Locks.MixedExample` are instances, the first with what it does to a later request, and
  `LockRuns.Run` shows that safety between owners survives it.
- lock_it (fs/locks.c:380-381): unlocking a range in which nothing is locked is an error. `LockExact.AfterExact` says it
  is refused exactly then.
- do_mmap (mm/mmap.c:86-101): a mapping of all of TASK_SIZE at no given place passes the search because the sum wraps, and
  its area ends below its start, which leaves the list out of order. `Mmap.DoMmap` has the condition,
  `Mmap.AstrayExample` an instance.
- add_timer (kernel/sched.c:407-429): a timer with 0 ticks in front of the list costs a tick for all timers behind it.
  `Timers.LostExactly` has the condition for a lost tick, `Timers.PromptExactly` that for delays of at least 1, and
  `Timers.ZeroTimerDelays` an instance.
- swap_duplicate (mm/swap.c:153): the 256th reference to a slot wraps its count. `Swap.SwapSpace.SwapDuplicate` has the
  condition, `Swap.CountWraps` a run to it.
- do_execve (fs/exec.c:651): a script started with no arguments is counted one argument short. `ExecTables.Prepare` has
  the condition and what the new program then finds.
- simple_strtoul (kernel/vsprintf.c:17-40): digits above f, which number prints in bases above 16, are not read.
  `Vsprintf.ReadBack` has the condition.
- simple_strtoul (kernel/vsprintf.c:17-40): a capital 0X prefix, which number prints, is read as 0. `Vsprintf.ReadPrefixed`
  has the condition.
- kfree_s (mm/kmalloc.c:276-285): a pointer into the middle of a block is told from a block only by the words before it.
  `Kmalloc.Allocator.KfreeS` therefore asks its caller for the address of a block of a page in use, as the source's
  callers are to pass what kmalloc returned.

## Left out

- HuftBuild.Build: running out of memory while tables are built; tables are sequences with holes for what was never
  written, not addresses.
- Inflate.Unzip: pkzip members, encryption and the gzip header; end of input is a failure where the original halts.
- CopyOnWrite.Mm.CopyPageTables: entries of pages that are swapped out, shared memory segments and clone; the two lists of
  free frames are one.
- CopyOnWrite.Mm.Touch: areas with their own nopage operation, sharing of file pages, and the stack's growth.
- CopyOnWrite.Mm.Write: what happens when no frame is left (swapping out, or killing the process); a run stops there.
- CopyOnWrite.Mm.CopyOrGrant: the same, where a copy is due.
- CopyOnWrite.Mm.GetEmptyPgtable: the same, where a table is due.
- CopyOnWrite.Mm.GetEmptyPage: the same.
- CopyOnWrite.Mm.DoWpPage: writes by the kernel, and the growth of the stack.
- Locks.LockIt: waking the processes that wait for a lock; a blocked try is a step that changes nothing and may be made
  again.
- LockRuns.Run: deadlock between waiting processes, which the source does not look for, and F_GETLK.
- Mmap.DoMmap: the open, close and unmap operations of areas, the use counts of their inodes, and the permissions of the
  file, which are flags of the request.
- Mmap.Run: calls after one whose area ends below its start.
- BufferCache.Run: devices with more than one block size, set_blocksize and read-ahead; at least two buffers stay on the
  ring, since the code cannot take the last one off; a process does not write to a buffer that is being read.
- BufferCache.Cache.TryToFree: the choice of pages by shrink_buffers and how hard it tries; two buffers at least stay.
- BufferCache.Cache.LoadAligned: the same block at two places of a page.
- Kmalloc.Allocator.Kmalloc: interrupts between its two critical sections, and the statistics.
- Kmalloc.Allocator.KfreeS: pointers that are not the address of a block.
- Pipe.PipeSafe: return values, signals, and ends of the pipe that are closed; each call is a sequence of steps on values,
  not a method on an object.
- Timers.Run: the older timer_table, interval timers and the clock's own adjustment; adding a timer that is on the list
  is not done.
- Scheduler.Run: task switching itself, signals, timeouts, nice, and tasks that come and go.
- ExecStrings.Image.Setup: reading the `#!` line, opening files, and running out of pages for the strings.
- ExecTables.Prepare: the layout of the code and data of the new program.
- Swap.Run: swapoff, the lock bits of pages under I/O, and moving pages.
- Vsprintf.Number: the format string interpreter around it; floating point is not there in the source either.
- Vsprintf.ReadBack: values printed with a sign or with spaces in front, which strtoul does not read.
