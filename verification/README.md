# Pintos, modelled in Dafny

This project models the hard parts of a Pintos kernel with demand paging, memory-mapped files, priority
donation and a feedback-queue scheduler, and proves what each of them is for.

| modules | what is modelled | main results |
|---|---|---|
| `Paging`, `PagingInvariant`, `PagingLocal`, `PagingSteps`, `PagingHistory`, `PagingTheorems`, `PagingMappings`, `PagingRollback`, `PagingBytes`, `PagingProgress`, `PagingFrames` | faults, eviction, swap, page tables, mappings and exit as one step machine over all processes | in every run from boot a load returns the byte last stored, or the file's; no process is stuck; frames, page-table entries and swap slots stay coherent and nothing leaks; a mapping that is left alone and unmapped is the file |
| `Clock`, `Bitmap`, `Swap` | the frame table with its clock hand, packed bits, the swap device | second chance; first-fit search on words; a map from slots to pages |
| `ListSortSpec`, `List` | natural merge sort on doubly linked nodes | sorted, stable, proper links, and why it terminates |
| `HashTable`, `Malloc` | the chained hash table and the arena allocator | a set keyed by equivalence through every rehash; live blocks never overlap |
| `Division`, `LoadAverage` | 64-bit division on a 64-by-32-bit instruction; 17.14 fixed point | exact quotients with no trap; an error bound that holds for runs of any length |
| `Donation`, `ExecWait`, `ExecWaitHistory` | priority donation; the record shared by parent and child | when nested donation restores order; the record is freed once, wait returns the child's own exit status, and nothing deadlocks |
| `InodeData`, `FsInvariant`, `FileSystem` | inodes, directory, free map, open files | a map from names to bytes in which removed files live until the last close |
| `Segment`, `Mmap`, `Tokens`, `ArgStack`, `Ustar` | loading, mapping, command lines, archives | lazy loading equals eager loading; round trips |

`Machine`, `Options` and `Seqs` hold shared constants, an option type and facts about sequences.

## Reading the paging proofs

`Paging` gives each step of the kernel a guard (`Enabled`) and an effect (`Apply`).  A step is what runs
under one hold of a lock or as one access by the MMU; processes interleave between steps in any order,
and loads, evictions and exits of different processes overlap.  Each page-table entry record carries
history: `flat` is what the program has left on the page, `stale` marks a page that a swap-full rollback
has reinstalled with a clear dirty bit, and `tainted` marks a page whose bytes are no longer promised.
`PagingHistory.StepHistory` says exactly which steps set these, and `PagingTheorems.RecordedRun` that
`flat` is a separately defined flat memory, one that knows nothing of frames or swap.  `PagingBytes` says the
same in terms of the run alone: `LastSet` names the step that gave a byte its value, a store or the addition of
the page, and `EveryLoadIsExplained` that every promised load has such a step and returns that byte.

The rollback is a fault of the code, kept as it is.  `PagingRollback.RollbackLosesStore` is a run in which
a live process loads 0 where it stored 1, `StaleEvictionDropsStores` says exactly when an eviction after a
rollback loses bytes, and `PagingTheorems.TransparentWithoutRollback` holds without conditions when swap
never fills up.

For mappings `PagingMappings.LeftAlone` is a condition on the steps of a run: from the step that maps a page
on, nobody else writes its part of the file, and its own writebacks are neither denied nor cut short (the
kernel ignores how much was written).  `TrackedStep` shows that exactly these steps end the promise.

Priority donation has a fault too: when a lock is handed over, its remaining waiters do not become donors of
the new holder.  `Donation.GiveUpLock` states exactly when order survives a release, and
`Donation.HandOverLosesDonor` is a run in which it does not.

## Where the code and its comments disagree

The model follows the code.

- The comment on `bitmap_scan_and_flip` says that a group of no bits is found at index 0; the code finds it
  at `start` (`Bitmap.EmptyGroup`).
- `umod64` and `smod64` are said to compute remainders; they return 32 bits of them
  (`Division.UmodExact` and `Division.SmodExact` say when that is all).
- `thread_get_load_avg` is said to return a hundred times the load average; the product overflows from a
  load of 1311 on (`LoadAverage.ReportIsNearest`).
- The rollback in `frame_evict_page` says that it restores access; it does not restore the dirty bit
  (`PagingRollback.RollbackLosesStore`).

## Model

| member | source | states |
|---|---|---|
| `PagingTheorems.UserInv` | src/userprog/process.c:996-1033 | loads, stores, new pages, pinning and file writes by user code keep the paging invariant, which covers structure, slots, contents and unmapped regions |
| `PagingTheorems.LoaderInv` | src/userprog/exception.c:224-351 | so does every step of loading a page, including every failure path; a file read may fall short for any reason |
| `PagingTheorems.EvictInv` | src/vm/frame.c:93-268 | so does every step of an eviction, including the rollback and a writeback that falls short |
| `PagingTheorems.UnmapInv` | src/userprog/syscall.c:837-883 | so does every step of unmapping a page |
| `PagingTheorems.LeaveInv` | src/vm/spt.c:119-160 | so does every step of tearing a process down |
| `PagingTheorems.StepInv` | src/vm/frame.c:44-268 | every enabled step of every process keeps the invariant |
| `PagingTheorems.RunInv` | src/vm/frame.c:44-268 | the invariant holds in every state that any run from boot reaches |
| `PagingHistory.FileWriteHistory` | src/filesys/inode.c:258-318 | a file write changes no page record except to taint exactly the pages it spoils: those it overwrites, and its own page if it is denied or falls short; it drops exactly the retired regions it overwrites |
| `PagingHistory.StepHistory` | src/vm/frame.c:181-268 | for every step and page, both ways: when it is there, what its recorded bytes are, when it is tainted, when it is stale, and when it is retired and for how long |
| `PagingTheorems.RecordedRun` | src/userprog/exception.c:224-351 | over every run the recorded bytes are those of a flat memory that knows nothing of frames, swap or page tables |
| `PagingTheorems.PagingIsTransparent` | src/vm/frame.c:180-268 | in every run from boot, whatever interleaves, a load of an untainted page returns the byte flat memory holds; for a mapping, on its first read_bytes bytes (what that byte is, is said step by step by `PagingBytes.EveryLoadIsExplained`; which pages are untainted, by the next rows and by `PagingMappings.MappingIsTransparent`) |
| `PagingTheorems.NoRollbackNoTaint` | src/vm/frame.c:210-246 | if swap was never found full, only mappings are tainted and no page is stale |
| `PagingTheorems.TransparentWithoutRollback` | src/userprog/exception.c:224-351 | then every load of code, data, stack and swapped pages returns what flat memory holds, without exception |
| `PagingTheorems.Coherent` | src/vm/frame.c:43-87 | in every reachable state a loaded page has exactly one frame labelled with it, a present PTE to that frame, and shares it with no other loaded page |
| `PagingTheorems.PresentMeansLoaded` | src/userprog/exception.c:326-349 | a present PTE belongs to a page that is loaded or whose load is about to say so, and points to that page's own frame |
| `PagingTheorems.LoadNeverMisses` | src/userprog/exception.c:296-335 | the failure branches for an unreadable slot and for an already mapped page are never taken |
| `PagingTheorems.SwapConserved` | src/vm/swap.c:53-136 | in every reachable state a slot is marked used if and only if one page, eviction or exit answers for it; no two do; and mappings never hold one |
| `PagingTheorems.ReapedHoldsNothing` | src/vm/spt.c:119-160 | a process that can be reaped labels no frame and holds no slot |
| `PagingTheorems.NothingLeaks` | src/userprog/process.c:341-416 | when the last process is gone every frame is back in the pool and every slot is free |
| `PagingMappings.TrackedStep` | src/vm/frame.c:224-230 | a mapped page stays promised, and an unmapped one stays in its file, through a step if and only if the step does not disturb it: nobody else writes its part of the file, and its own writeback is neither denied nor short |
| `PagingMappings.MappedIsTracked` | src/userprog/syscall.c:800-833 | a page that some step of the run maps and no later step disturbs is mapped and promised at the end of the run, or unmapped and in its file |
| `PagingMappings.MappingIsTransparent` | src/userprog/exception.c:224-351 | in every run from boot, a load from a page of a mapping that was left alone returns what flat memory holds |
| `PagingMappings.PageRoundTrip` | src/userprog/syscall.c:837-883 | a page that was mapped, left alone and unmapped again is in the file, byte for byte |
| `PagingMappings.MmapRoundTrip` | src/userprog/syscall.c:757-778 | once a file has been mapped, left alone and unmapped, every byte of it is the mapping's flat memory; the conditions speak of the steps of the run only |
| `PagingRollback.StaleEvictionDropsStores` | src/vm/frame.c:232-258 | evicting a page that a rollback left stale keeps its bytes if and only if they are what the file holds |
| `PagingRollback.RollbackLosesStore` | src/vm/frame.c:232-247 | there is a run from boot with one frame and no swap, after which a live process that stored 1 loads 0 from the same address |
| `PagingBytes.LoadReturnsLast` | src/userprog/exception.c:224-351 | in every run from boot a promised load returns the byte that some step set and no later step touched: a store, or the addition of the page, which sets the file's bytes and then zeros |
| `PagingBytes.LoadWithoutRollback` | src/vm/frame.c:210-246 | the same for every page that is no mapping if swap was never found full, with no other condition |
| `PagingBytes.LoadFromMapping` | src/userprog/syscall.c:757-883 | the same for a mapping that was left alone; after unmapping, that byte is in the file |
| `PagingBytes.BackedRun` | src/userprog/exception.c:276-287 | in every reachable state, a page of a file that has been read in lies wholly within the file |
| `PagingBytes.WasAdded` | src/userprog/process.c:996-1033 | a page that is there was added by some step of the run and by none since, and has kept the right, file, offset and length it was given |
| `PagingBytes.EveryLoadIsExplained` | src/userprog/exception.c:224-351 | every promised load of every run from boot has such a last step, and returns its byte |
| `PagingBytes.StoreNeedsRight` | src/userprog/exception.c:326-335 | wherever a load is possible a store is, if and only if the page was last added as writable; mappings always are |
| `PagingBytes.FilePageShowsFile` | src/userprog/exception.c:271-294 | a promised load of a byte never stored to since its page was added from the executable returns the file's byte at ofs + i if i < len and 0 otherwise, and the file has the bytes |
| `PagingBytes.FilePageWithoutRollback` | src/vm/frame.c:210-246 | the same with no condition but that swap was never found full |
| `PagingBytes.MappedPageShowsFile` | src/userprog/syscall.c:800-833 | a promised load of a byte of a mapping never stored to returns the byte the file had there when it was mapped |
| `PagingProgress.StepProc` | src/userprog/process.c:338-416 | a step changes neither the executable of a process nor brings one back from exiting |
| `PagingProgress.ExecIsSpawned` | src/userprog/process.c:555-567 | in every run from boot a process runs the file it was last started with |
| `PagingProgress.SysWriteBytes` | src/filesys/inode.c:258-318 | a write changes exactly the bytes of that file that it covers, to those given, unless a process that has not let go of its executable runs the file; sizes stay |
| `PagingProgress.EvictWritebackBytes` | src/vm/frame.c:224-230 | so does the writeback of an evicted page, with the first bytes of its frame |
| `PagingProgress.UnmapWritebackBytes` | src/userprog/syscall.c:837-883 | and of an unmapped one |
| `PagingProgress.OnlyWritesWrite` | src/vm/frame.c:181-268 | no other step changes a file |
| `PagingProgress.PinnedStays` | src/vm/frame.c:399-455 | once a page is in a pinned frame it stays there, whatever other processes do, until its own process unpins the frame, unmaps the page or destroys its table; no eviction may begin there |
| `PagingProgress.NeverStuck` | src/vm/frame.c:44-268 | in every reachable state each process can take the next step of what it is doing, or waits for the lock, whose holder can; a page in swap or of a mapping can always be read in |
| `PagingProgress.RunsFreely` | src/userprog/exception.c:160-222 | a running process can load from its loaded pages, fault in the others, add pages and exit; it waits only for an eviction in progress |
| `PagingProgress.ExitsFreely` | src/userprog/process.c:338-416 | an exiting process can unmap, let go of its executable, destroy its pages and be reaped, each as soon as what comes before is done |
| `PagingFrames.NoPinIsLeft` | src/userprog/exception.c:326-351 | in every run in which nobody asks for a frame to be pinned, a page loaded in it may be evicted whenever no process is busy with the frame |
| `PagingFrames.CleanIsNeverSwapped` | src/vm/frame.c:205-246 | a page of the executable that is never stored to never goes to swap, however often it is evicted |
| `Clock.FrameTable.SelectVictim` | src/vm/frame.c:123-171 | the victim is the first eligible frame in clock order not accessed, or else the first eligible one; it is not pinned and has an owner, a page directory and a page, and there is none exactly when every frame lacks one of these; every page directory keeps exactly the accessed bits it had, but for the pages of the eligible frames passed over; the hand ends behind the victim |
| `Clock.FrameTable.Scan` | src/vm/frame.c:137-170 | the same for the loop, which stops within two turns |
| `Clock.FrameTable.Consider` | src/vm/frame.c:138-168 | one turn advances the hand and either keeps the scan's invariant or has found the victim |
| `Clock.FrameTable.LookAt` | src/vm/frame.c:156-167 | a frame is taken if and only if it is eligible and not accessed; the page of an eligible accessed frame leaves its own directory, and no other bit of any directory changes |
| `Clock.ScanStep` | src/vm/frame.c:138-168 | the pure step behind the scan: what has been passed over in a first turn is cold in the second |
| `Clock.VictimIsFair` | src/vm/frame.c:117-122 | nothing is chosen if and only if nothing is eligible; an accessed frame is chosen only if all eligible frames were accessed; and every eligible frame before the victim was accessed, and none is before an accessed victim |
| `Clock.FrameTable.Add` | src/vm/frame.c:83-86 | a frame joins at the back and the hand stays in the table |
| `Clock.FrameTable.Free` | src/vm/frame.c:299-343 | exactly the first frame with that address and owner goes, if there is one; the rest are met by the hand in the order they would have been |
| `Clock.RemovedOrder` | src/vm/frame.c:327-338 | however the hand stands, moving it as the code does leaves it in the table and the clock order unchanged but for the removed frame |
| `Bitmap.OrBit` | src/lib/kernel/bitmap.c:157-166 | the word-wide or is bitwise or |
| `Bitmap.AndNotBit` | src/lib/kernel/bitmap.c:170-179 | the word-wide and-not is bitwise |
| `Bitmap.AndMask` | src/lib/kernel/bitmap.c:198-203 | testing a word against a one-bit mask tests that bit |
| `Bitmap.UnpackedSet` | src/lib/kernel/bitmap.c:145-153 | updating one word changes one bit of the whole bitmap and no other |
| `Bitmap.BitMap.constructor` | src/lib/kernel/bitmap.c:79-96 | a new bitmap has every bit clear |
| `Bitmap.BitMap.Set` | src/lib/kernel/bitmap.c:145-153 | sets that bit and no other |
| `Bitmap.BitMap.Test` | src/lib/kernel/bitmap.c:198-203 | returns that bit |
| `Bitmap.BitMap.SetMultiple` | src/lib/kernel/bitmap.c:218-228 | sets exactly the bits of the range |
| `Bitmap.BitMap.Contains` | src/lib/kernel/bitmap.c:251-263 | true if and only if some bit of the range has the value |
| `Bitmap.BitMap.Scan` | src/lib/kernel/bitmap.c:296-310 | the least start from which the whole group has the value, or none exactly when there is none |
| `Bitmap.BitMap.ScanAndFlip` | src/lib/kernel/bitmap.c:320-326 | finds that group and flips exactly its bits |
| `Bitmap.EmptyGroup` | src/lib/kernel/bitmap.c:312-326 | a group of no bits is found at start |
| `Swap.SwapTable.constructor` | src/vm/swap.c:24-39 | one slot for every eight sectors and none in use |
| `Swap.SwapTable.Out` | src/vm/swap.c:54-89 | stores the page under the least free slot and disturbs no other; fails, changing nothing, if and only if every slot is in use |
| `Swap.SwapTable.In` | src/vm/swap.c:93-123 | succeeds if and only if the slot is in use, and then returns the page stored there and frees the slot; otherwise changes nothing |
| `Swap.SwapTable.Free` | src/vm/swap.c:127-136 | the slot is free afterwards and the others are untouched |
| `Swap.StoredAdd` | src/vm/swap.c:54-89 | writing the eight sectors of a slot adds one page to the map from slots to pages and leaves the rest |
| `List.Splice` | src/lib/kernel/list.c:184-204 | relinking moves the range in front of the given node, earlier or later in the same list, and leaves a proper doubly linked chain |
| `List.FindEndOfRun` | src/lib/kernel/list.c:358-375 | finds the end of the longest nondecreasing run |
| `List.InplaceMerge` | src/lib/kernel/list.c:380-396 | the chain becomes the same chain with the two runs merged |
| `List.List.MergePass` | src/lib/kernel/list.c:405-432 | one pass merges adjacent runs in pairs and returns how many it put out |
| `List.List.Sort` | src/lib/kernel/list.c:405-440 | for every strict weak order the list ends sorted, as a stable rearrangement in which of two tied elements the one that came first still does, with proper links; it terminates |
| `ListSortSpec.MergeSorted` | src/lib/kernel/list.c:380-396 | merging two sorted runs gives a sorted one |
| `ListSortSpec.MergeStable` | src/lib/kernel/list.c:380-396 | merging keeps equivalent elements in their order |
| `ListSortSpec.PassMembers` | src/lib/kernel/list.c:405-440 | a pass rearranges |
| `ListSortSpec.PassStable` | src/lib/kernel/list.c:405-440 | a pass is stable |
| `ListSortSpec.PassHalves` | src/lib/kernel/list.c:413-437 | a pass counts exactly half the natural runs, rounded up, and leaves no more than it counts |
| `ListSortSpec.PassSorts` | src/lib/kernel/list.c:405-440 | a pass that counts at most one run has sorted the list |
| `ListSortSpec.StableKeepsOrder` | src/lib/kernel/list.c:405-440 | what stability means: two tied elements are in the order they were in |
| `Division.Divl` | src/lib/arithmetic.c:26-38 | the instruction, callable only where the quotient fits in 32 bits |
| `Division.Nlz` | src/lib/arithmetic.c:42-73 | the number of leading zeros |
| `Division.Estimate` | src/lib/arithmetic.c:119-125 | dividing by the divisor's upper half gives the quotient or one more |
| `Division.NeverTwoOver` | src/lib/arithmetic.c:119-125 | the guess is never two too large |
| `Division.UdivSmall` | src/lib/arithmetic.c:80-112 | the exact quotient for a divisor of 32 bits, without a divide error |
| `Division.UdivLarge` | src/lib/arithmetic.c:113-126 | the exact quotient for a larger divisor, without a divide error |
| `Division.Udiv64` | src/lib/arithmetic.c:78-127 | the exact quotient for every 64-bit dividend and nonzero divisor |
| `Division.Umod64` | src/lib/arithmetic.c:131-135 | the low 32 bits of the remainder, which are the remainder if and only if it fits |
| `Division.UmodExact` | src/lib/arithmetic.c:131-135 | that is so for every dividend if and only if the divisor is at most 2^32 |
| `Division.TruncatesUnique` | src/lib/arithmetic.c:139-154 | the quotient and remainder used as specification are the only pair that divides toward zero |
| `Division.Sdiv64` | src/lib/arithmetic.c:139-146 | truncates toward zero if and only if it is not INT64_MIN by -1, which wraps |
| `Division.Smod64` | src/lib/arithmetic.c:150-154 | the low 32 bits of the signed remainder, for every dividend and nonzero divisor |
| `Division.SmodExact` | src/lib/arithmetic.c:150-154 | those are the remainder for every dividend if and only if the divisor's magnitude is at most 2^31 |
| `LoadAverage.Scheduler.CalculateLoadAvg` | src/threads/thread.c:187-199 | the update counts the running thread unless it is idle, and keeps the invariant that ties the field to the whole history: in range, never above the exact value, and less than 60(R+1) units below it |
| `LoadAverage.Scheduler.ReportLoadAvg` | src/threads/thread.c:589-597 | up to 1310 ready threads the reported number tracks a hundred times the exact load |
| `LoadAverage.NextLoadRounded` | src/threads/arithmetic.h:14-62 | with at most 131071 ready threads nothing overflows, and the update is floor(16110 x / 2^14) + 273 r |
| `LoadAverage.ErrorStep` | src/threads/arithmetic.h:14-62 | one update keeps the error below the bound |
| `LoadAverage.LoadTracksExact` | src/threads/thread.c:187-199 | for runs of every length the value stays in range, never exceeds the exact recurrence and trails it by less than 60(R+1) units |
| `LoadAverage.ReportTracksExact` | src/threads/thread.c:589-597 | the same about the functions, for every history |
| `LoadAverage.ReportIsNearest` | src/threads/thread.c:589-597 | the report is the nearest integer if and only if the sum that rounds it fits in 32 bits |
| `LoadAverage.ReportOverflows` | src/threads/thread.c:589-597 | after one update with 78663 to 131071 ready threads the report is negative |
| `Donation.NestedDonation` | src/threads/thread.c:121-135 | the first eight blockers end with the larger of their own priority and the donor's and nothing else changes; every waiter ranks at or below its holder again if and only if the chain has at most eight links or its ninth already ranks high enough |
| `Donation.DonatedSettles` | src/threads/thread.c:121-135 | the pure statement behind that equivalence |
| `Donation.RecallDonation` | src/threads/thread.c:141-167 | exactly the donors not waiting for that lock remain, whatever the order of the list, and the priority is the best of base and donors |
| `Donation.ForgetWaiters` | src/threads/thread.c:143-155 | the loop removes exactly the waiters of the lock and keeps the order of the rest |
| `Donation.SetPriority` | src/threads/thread.c:521-545 | the base priority is the new one and the priority the best of it and the donors |
| `Donation.WaitForLock` | src/threads/synch.c:247-257 | joining the holder's donors and donating gives each of the first eight blockers the larger priority and changes no other; it restores order everywhere if and only if the chain is short enough or ranks high enough beyond the eighth link |
| `Donation.GiveUpLock` | src/threads/synch.c:296-313 | giving a lock up recalls exactly its donations; order survives everywhere if and only if whoever stays blocked on the thread ranks no higher than its base priority or some donor it keeps |
| `Donation.TakeLock` | src/threads/synch.c:261-267 | taking the lock leaves the donors as they are; order survives if and only if nobody who still waits for it ranks higher |
| `Donation.HandOverLosesDonor` | src/threads/synch.c:226-319 | a run of four threads and two locks after which a thread outranks the one it waits for: a lock handed over does not bring its waiters along as donors |
| `HashTable.TurnOffKeepsTop` | src/lib/kernel/hash.c:329-333 | turning off the least bit keeps the top bit unless it is the only one |
| `HashTable.IdealBuckets` | src/lib/kernel/hash.c:364-372 | the loop ends with the largest power of two not above half the elements, and at least four |
| `HashTable.BucketIsRemainder` | src/lib/kernel/hash.c:306-310 | masking the hash with a power of two less one is taking the remainder |
| `HashTable.Table.constructor` | src/lib/kernel/hash.c:25-42 | a new table is empty |
| `HashTable.Table.FindElem` | src/lib/kernel/hash.c:315-326 | finds an equivalent element of the bucket if and only if there is one |
| `HashTable.Table.Find` | src/lib/kernel/hash.c:132-136 | finds an equivalent element of the table if and only if there is one |
| `HashTable.Table.Insert` | src/lib/kernel/hash.c:99-110 | adds the element unless an equivalent one is there, which is returned |
| `HashTable.Table.Replace` | src/lib/kernel/hash.c:115-127 | puts the element in the place of an equivalent one, which is returned |
| `HashTable.Table.Delete` | src/lib/kernel/hash.c:145-154 | removes and returns the equivalent element, if there is one |
| `HashTable.Table.Rehash` | src/lib/kernel/hash.c:352-413 | loses and duplicates nothing, with or without memory; with memory the bucket count is the ideal one |
| `HashTable.Redistribute` | src/lib/kernel/hash.c:394-410 | every element ends in its own bucket and none is lost |
| `HashTable.Distribute` | src/lib/kernel/hash.c:400-409 | the same for one old bucket |
| `Malloc.Init` | src/threads/malloc.c:72-85 | the loop sets up the descriptors for 16 to 1024 bytes, each twice the one before, with as many blocks as fit behind the 12-byte header and no fewer |
| `Malloc.AddressRoundTrip` | src/threads/malloc.c:268-294 | from a block's address its arena and index can be computed, and both checks in the source hold |
| `Malloc.LiveInside` | src/threads/malloc.c:286-294 | a live block lies in its arena behind the header |
| `Malloc.LiveDisjoint` | src/threads/malloc.c:90-154 | two live blocks never overlap |
| `Malloc.LiveOffHeaders` | src/threads/malloc.c:90-154 | a live block overlaps no arena header |
| `Malloc.Popped` | src/threads/malloc.c:148-151 | taking a block off a free list makes exactly that block live and keeps every count right |
| `Malloc.Opened` | src/threads/malloc.c:124-151 | so does opening a new arena |
| `Malloc.LastIsCounted` | src/threads/malloc.c:241-246 | the count reaches the arena's size if and only if the block is the last live one |
| `Malloc.Returned` | src/threads/malloc.c:238-242 | returning a block makes exactly that block free |
| `Malloc.Emptied` | src/threads/malloc.c:241-253 | the last block takes all its arena's blocks off the free list and nothing else |
| `Malloc.RemoveBlocks` | src/threads/malloc.c:247-251 | the loop removes exactly the arena's blocks |
| `Malloc.Allocator.constructor` | src/threads/malloc.c:72-85 | no arenas |
| `Malloc.Allocator.Allocate` | src/threads/malloc.c:90-154 | hands out one new block if and only if a block of the right size is free or the page allocator answers; it is of the smallest size that is enough, and holds the request if and only if adding the header does not wrap around in 32 bits; every other block is as live as before, and failure changes nothing |
| `Malloc.Allocator.AllocateBig` | src/threads/malloc.c:105-120 | a request over 1024 bytes gets as many pages as are computed for it if and only if there are any; they hold it if and only if adding the header does not wrap around |
| `Malloc.PageCountIs` | src/threads/malloc.c:109-112 | the page count in 32-bit arithmetic: right or zero if adding the header does not wrap around, and at most one page if it does |
| `Malloc.LargestWraps` | src/threads/malloc.c:109-112 | a request for 2^32 - 1 bytes asks for one page |
| `Malloc.Allocator.AllocateSmall` | src/threads/malloc.c:122-153 | a smaller one gets a block if and only if one is free or a page is to be had; the page is taken only if no block is free |
| `Malloc.Allocator.Free` | src/threads/malloc.c:219-264 | exactly that block is no longer live; its pages go back if and only if it was the last of its arena |
| `ExecWait.StepInv` | src/userprog/process.c:82-217 | every step of every process keeps the protocol's invariant and touches only records that exist |
| `ExecWait.RunInv` | src/userprog/process.c:82-392 | the invariant holds after every run |
| `ExecWait.NoUseAfterFree` | src/userprog/process.c:327-332 | no step of any run uses a freed record |
| `ExecWait.FreedOnce` | src/userprog/process.c:327-332 | each record is freed at most once, and it has been exactly when both parent and child are done with it |
| `ExecWait.ReturnsAreTrue` | src/userprog/process.c:172-180 | in the recorded history exec has failed if and only if loading failed, and wait has returned the status the child published (what the child did in the run is said by `ExecWaitHistory.ExecReturnsLoad` and `ExecWaitHistory.WaitReturnsExit`) |
| `ExecWait.WaitsOnce` | src/userprog/process.c:246-269 | a wait finds a record if and only if it is for a loaded child of the caller not yet waited for |
| `ExecWait.NoLostWakeup` | src/userprog/process.c:377-385 | a parent is blocked exactly as long as the child has not reported or exited |
| `ExecWait.HistoryGrows` | src/userprog/process.c:246-269 | what has been reported and returned is never revised, and what has been freed stays so |
| `ExecWaitHistory.RunTold` | src/userprog/process.c:185-217 | over every run the state of a child is what it has done: how its one load went, and the one status it asked to exit with, or -1 without asking if it could not be loaded |
| `ExecWaitHistory.WaitReturnsExit` | src/userprog/process.c:246-269 | if wait has returned a status, the run has a step in which the child asks to exit with it, and no other step in which it asks to exit |
| `ExecWaitHistory.ExecReturnsLoad` | src/userprog/process.c:172-180 | if exec has returned, it reported success or failure exactly as the child's one load in the run went |
| `ExecWaitHistory.NoDeadlock` | src/userprog/process.c:82-392 | after every run in which a process is not dead, it or a process started later can take a step |
| `ExecWaitHistory.RunsFreely` | src/userprog/process.c:82-269 | a running process may start another, wait for any number and exit with any status |
| `InodeData.ReadAt` | src/filesys/inode.c:201-250 | returns at most as many bytes as asked for, those of the file at the offset and none beyond its end; with memory fewer than asked for only if they reach the end or the offset is beyond it |
| `InodeData.ReadChunk` | src/filesys/inode.c:209-240 | one sector's worth of the file's bytes, whole or through the bounce buffer: at least one, at most what is asked for, up to the end of the sector or of the file |
| `InodeData.WriteAt` | src/filesys/inode.c:258-318 | overwrites exactly those bytes of the file and no other sector; nothing when writing is denied, nothing beyond the end, and with memory and no denial fewer than asked for only if they reach the end or the offset is beyond it |
| `InodeData.WriteChunk` | src/filesys/inode.c:270-308 | one sector's worth extends the part written |
| `InodeData.ChunkWritten` | src/filesys/inode.c:291-307 | patching one sector is patching the file there |
| `InodeData.ChunkIs` | src/filesys/inode.c:211-222 | a chunk is as long as the request, the rest of the file and the rest of the sector allow |
| `InodeData.SectorsFor` | src/filesys/inode.c:25-29 | the fewest sectors that hold that many bytes |
| `FsInvariant.Founded` | src/filesys/inode.c:73-107 | an inode on free sectors joins the files without harming any |
| `FsInvariant.Released` | src/filesys/inode.c:164-186 | freeing a removed file's sectors keeps every other file's sectors marked and owned once |
| `FsInvariant.WriteKeeps` | src/filesys/inode.c:258-318 | a write changes exactly those bytes of that file and every other file not at all |
| `FileSystem.FirstFit` | src/filesys/free-map.c:28-41 | the first run of free sectors that is long enough |
| `FileSystem.FindName` | src/filesys/directory.c:92-114 | the first slot in use with that name, when every slot can be read |
| `FileSystem.AddName` | src/filesys/directory.c:142-180 | works if and only if the name is good and new and a slot is free, and then adds just that name, when every slot can be read and written |
| `FileSystem.CreateInode` | src/filesys/inode.c:73-107 | works if and only if there is memory and room; then a zeroed file is on sectors that were free |
| `FileSystem.AllocateInode` | src/filesys/filesys.c:46-59 | a header and data on free sectors, or the header given back |
| `FileSystem.OpenInode` | src/filesys/inode.c:112-142 | one more opener, or the first |
| `FileSystem.CloseInode` | src/filesys/inode.c:164-186 | the sectors of a file become free if and only if this was the last opener and it has no name |
| `FileSystem.RemoveSlot` | src/filesys/directory.c:185-216 | the name goes; the bytes stay if and only if the file is open |
| `FileSystem.FileSystem.constructor` | src/filesys/filesys.c:95-103 | a formatted disk has no files |
| `FileSystem.FileSystem.Create` | src/filesys/filesys.c:46-59 | works if and only if there is memory, room and a free slot, and the name is new and has 1 to 14 characters; then the name denotes a new zeroed file; no other file changes either way |
| `FileSystem.FileSystem.Open` | src/filesys/filesys.c:67-77 | works if and only if the name exists and there is memory, and gives a new handle on the named file |
| `FileSystem.FileSystem.Close` | src/filesys/file.c:46-54 | the handle goes and stops denying writes; the sectors go if and only if no other handle and no name is left |
| `FileSystem.FileSystem.DenyWrite` | src/filesys/file.c:118-127 | the handle denies writes; the inode's count is the number of handles that do, and never more than are open |
| `FileSystem.FileSystem.AllowWrite` | src/filesys/file.c:132-141 | the handle no longer does; others still may |
| `FileSystem.FileSystem.Remove` | src/filesys/filesys.c:84-91 | the name goes and no other; the bytes stay readable until the last close |
| `FileSystem.FileSystem.Read` | src/filesys/inode.c:201-250 | returns the bytes last written, for a removed file too: at most as many as asked for, none beyond the end, and with memory fewer only if they reach the end or the offset is beyond it |
| `FileSystem.FileSystem.Write` | src/filesys/inode.c:258-318 | changes exactly the bytes of that file from the offset on, as many as are written, and no other file; writes nothing if some handle on the file denies it, nothing beyond the end, and otherwise with memory fewer than asked for only at the end |
| `Segment.AcceptedIsLoadable` | src/userprog/process.c:608-634 | for an accepted header nothing wraps around in 32 bits, there is at least a page, and the byte counts are as they should be |
| `Segment.ValidateExact` | src/userprog/process.c:673-713 | the checks in 32-bit arithmetic accept a header if and only if, without wrapping around, its offsets agree within a page, the file reaches its first byte, and its memory is not empty, not shorter than its file part, off page zero and below the kernel |
| `Segment.ImageIsElf` | src/userprog/process.c:673-713 | the planned memory is the ELF meaning at every byte of its pages: filesz bytes of the file at vaddr, preceded by what precedes them in the file, and zeros to the end of the last page |
| `Segment.FaultGivesImage` | src/userprog/exception.c:271-294 | faulting in a recorded page gives its planned contents |
| `Segment.FaultFails` | src/userprog/exception.c:276-287 | if the file is too short, however much is missing, the fault on the first page that lacks a byte fails and the faults before it do not |
| `Segment.AddressSpace.LoadLazily` | src/userprog/process.c:730-754 | works if and only if the pages are free and there is memory for their entries; then records each page, with the right to write it was given, and changes no other |
| `Segment.AddressSpace.LoadEagerly` | src/userprog/process.c:755-787 | works if and only if the pages are free, there are frames, and the bytes are in the file; then fills each page and maps it with the right it was given |
| `Segment.LazyEqualsEager` | src/userprog/process.c:730-787 | for every accepted segment whose bytes exist, faulting in a lazily recorded page gives the page the eager loader leaves, byte for byte, with the same right to write; at every address the file's byte shows or a zero |
| `Segment.PagesOfSegment` | src/userprog/process.c:738-787 | either loader adds exactly the pages that meet the segment's memory, all of them between page zero and the kernel |
| `Mmap.EntriesTile` | src/userprog/syscall.c:726-734 | every byte of the file shows on exactly one page of the mapping, at its own place there, and no page shows anything beyond the end |
| `Mmap.Process.RangeFree` | src/userprog/syscall.c:700-712 | true if and only if the range lies below the kernel and overlaps no page |
| `Mmap.Process.InsertPages` | src/userprog/syscall.c:726-745 | an entry for each page, or for a prefix if memory runs out |
| `Mmap.Process.MapPages` | src/userprog/syscall.c:722-752 | what it cannot finish it undoes |
| `Mmap.Process.MapFile` | src/userprog/syscall.c:665-753 | the exact condition for success; success maps the whole file and nothing else, failure leaves the page table as it was |
| `Mmap.MappedUndone` | src/userprog/syscall.c:735-744 | taking a new mapping's pages out again gives back the page table from before |
| `Mmap.Process.RemovePages` | src/userprog/syscall.c:766-773 | removes exactly the pages in the range that carry the number |
| `Mmap.Process.Unmap` | src/userprog/syscall.c:757-778 | removes the mapping and exactly its pages |
| `Tokens.StrtokR` | src/lib/string.c:235-275 | finds the next word, ends it in place and says where to go on; or there is none |
| `Tokens.SkipDelimiters` | src/lib/string.c:248-261 | the first place that is not a delimiter |
| `Tokens.WordEnd` | src/lib/string.c:263-266 | the first delimiter or the end |
| `Tokens.Tokenize` | src/userprog/process.c:853-863 | the collected pointers are the words of the line in order, if there are not too many |
| `Tokens.WordsAreWords` | src/lib/string.c:235-275 | words are not empty and have no delimiters |
| `Tokens.OneWord` | src/lib/string.c:235-275 | a string without delimiters is one word, or none if it is empty |
| `Tokens.WordsSplit` | src/lib/string.c:235-275 | splitting at any delimiter splits the list of words |
| `ArgStack.CopyCommandLine` | src/lib/string.c:326-343 | copies the line whole if it is shorter than a page, and otherwise all but the last byte of a page of it, with a null byte behind |
| `ArgStack.Push` | src/userprog/process.c:868-879 | puts the bytes on the stack if and only if they stay in the page |
| `ArgStack.PushStrings` | src/userprog/process.c:868-879 | the strings in reverse, with their addresses |
| `ArgStack.AlignDown` | src/userprog/process.c:882-883 | pads with zeros to a multiple of four |
| `ArgStack.PushPointers` | src/userprog/process.c:895-904 | the pointers in reverse |
| `ArgStack.PushVector` | src/userprog/process.c:886-933 | null, pointers, argv, argc and return address, if and only if they fit |
| `ArgStack.PushCall` | src/userprog/process.c:907-933 | argv, argc and the return address |
| `ArgStack.SetupStack` | src/userprog/process.c:853-938 | works if and only if there are at most 128 words and the layout fits; then the page holds exactly that layout |
| `ArgStack.SetupCommandLine` | src/userprog/process.c:848-938 | the same for a command line, whole if it is shorter than a page and cut to 4095 bytes otherwise, with words between spaces |
| `ArgStack.ReadBack` | src/userprog/process.c:848-938 | a program that reads the layout finds argc, and through argv every word in order, ended by null; aligned, disjoint, inside the page |
| `ArgStack.WordAtIs` | src/userprog/process.c:895-933 | a word of memory is four bytes, the lowest first |
| `ArgStack.WordsHaveNoNulls` | src/userprog/process.c:848-863 | the words of a command line satisfy what reading back asks |
| `Ustar.StripPrefixes` | src/lib/ustar.c:66-73 | the loop computes the stripped name |
| `Ustar.StripIsSafe` | src/lib/ustar.c:66-73 | a stripped name does not begin with "/", "./" or "../" and is not empty or "..", stripping again changes nothing, and it is no longer than the name (one byte for the empty name) |
| `Ustar.StripExact` | src/lib/ustar.c:66-73 | stripping takes away a string of "/", "./" and "../" and nothing else, and answers "." if nothing or ".." is left |
| `Ustar.FormatOctal` | src/lib/stdio.c:470-548 | the whole value in octal, filled up with zeros to the width, in a longer field if and only if it needs one |
| `Ustar.OctalAt` | src/lib/stdio.c:470-548 | digit i of w is the value shifted right by w - 1 - i octal places, modulo 8 |
| `Ustar.OctValConcat` | src/lib/ustar.c:130-162 | the value of digits is positional: earlier ones weigh eight times more for each that follows |
| `Ustar.ParseOctalField` | src/lib/ustar.c:130-162 | the value of the digits up to a space or null, unless there are none, something else follows, or it overflows |
| `Ustar.OctalFieldExact` | src/lib/ustar.c:130-162 | a field has a value if and only if digits from 0 to 7, at least one, end before the field does in a space or null and their value fits in 32 bits |
| `Ustar.FieldRoundTrip` | src/lib/ustar.c:130-162 | parsing a formatted field gives the value back |
| `Ustar.CalculateChksum` | src/lib/ustar.c:37-60 | the sum of the header's bytes with the checksum field read as spaces |
| `Ustar.ChecksumIgnoresItself` | src/lib/ustar.c:37-60 | the checksum does not depend on its own field |
| `Ustar.ChecksumIs` | src/lib/ustar.c:37-54 | the checksum is the sum of bytes 0 to 147 and 156 to 511, and 256 |
| `Ustar.Layout` | src/lib/ustar.c:10-33 | where each field is in the 512 bytes |
| `Ustar.MakeHeader` | src/lib/ustar.c:83-118 | a full header, or none if and only if the stripped name is longer than 99 bytes |
| `Ustar.HeaderBytes` | src/lib/ustar.c:99-115 | a made header byte by byte: name, mode, owner, size, date, checksum, type, magic, version, user and group, and nulls everywhere else |
| `Ustar.IsAllZeros` | src/lib/ustar.c:167-173 | true if and only if every byte is zero |
| `Ustar.ParseHeader` | src/lib/ustar.c:182-227 | the checks in the order of the source, each with its own answer; end of archive if and only if all 512 bytes are zero, and a member only with the magic, the version, null bytes at 99 and 345 and a size below 2^31 |
| `Ustar.MemberExact` | src/lib/ustar.c:182-227 | a header is a member's if and only if its bytes have the magic, the version, nulls at 99 and 345, a known type, the right checksum and, for a file, a size below 2^31 |
| `Ustar.MemberIs` | src/lib/ustar.c:222-226 | a member's name is the stripped string in the first 100 bytes, its kind is byte 156, and its size is the number in bytes 124 to 135, or 0 for a directory |
| `Ustar.OneByteIsCaught` | src/lib/ustar.c:200-207 | changing any single byte of a member's header outside the checksum field makes it malformed |
| `Ustar.StringOfIs` | src/lib/ustar.c:222-224 | the string in a field ends before its first null byte |
| `Ustar.HeaderRoundTrip` | src/lib/ustar.c:83-227 | for every name that fits, kind and size, parsing a made header gives the stripped name, the kind and the size, which is 0 for a directory |
| `Ustar.ParsedNameIsSafe` | src/lib/ustar.c:182-227 | whatever the header, a parsed name does not begin with "/", "./" or "../", is not empty or "..", and has at most 99 bytes |

## Left out

- The stack heuristic (`seems_like_stack_access`, `grow_stack`): a stack page is a zero page that appears;
  which faults make one appear is not modelled.  The first stack page, which the kernel installs at once, is
  one that is faulted in.
- Lookups and updates of a supplemental page table are single steps; races inside its hash table are not modelled.
- In the paging machine any evictable frame may be the victim and any free slot may be chosen; the clock and the
  first-fit search are proved on their own.  Unpinning and freeing a frame on a failure path are one step.
- MMU accesses are one byte wide and atomic; the translation cache and the two-level directory are not modelled.
- A writeback that falls short stops at any byte, not only where a sector ends.
- Lock ordering and freedom from deadlock, among them eviction while the file system lock is held.
- PagingTheorems.PagingIsTransparent: says nothing about the bytes of a mapping's last page beyond the end of the
  file, because eviction does not keep them.
- PagingBytes.EveryLoadIsExplained: leaves out the same bytes.
- PagingProgress.NeverStuck: knows the frame table's lock and the locks of pages, and no other.
- Donation.WaitForLock: leaves open where in the donor list the thread is inserted, because recalling sorts the list.
- The rest of the feedback queue (`recent_cpu`, nice values, priorities), the ready list and the timer.
- ExecWait.FreedOnce: takes the decrement and test of the reference count as one step.
- Failures of `process_execute` before the child exists, and waiting for the error number.
- FileSystem.FindName: does not cover a lookup that is cut short.  Every directory slot is read through a bounce
  buffer of its own, and a read that cannot have one ends the lookup as the end of the directory does, so that a
  name that exists can be missed.
- FileSystem.AddName: does not cover a lookup, a search for a free slot or a write of the slot that is cut short in
  the same way.
- FileSystem.FileSystem.Open, FileSystem.FileSystem.Remove and FileSystem.FileSystem.Create: one flag says whether
  all of a call's allocations succeed.
- Bitmap.BitMap.constructor: the allocation never fails.
- HashTable.Table.constructor: the allocation never fails.
- List.Splice: does not cover moving a range to another list, which sorting never does.
- FileSystem.FileSystem.Create: does not say that every marked sector has an owner, because it is false: when the
  name cannot be added, the header is given back but the data sectors stay marked.
- Sectors hold headers or data as values: the byte layout of inodes and directory entries, file positions and write
  failures of the free map's own file are not modelled.
- `calloc` and `realloc`, which only add easy members.
- Memory that may run out, what the page allocator answers, and the contents of the disk are parameters.
- The rest of `printf`.  A `ustar` header is its fields in order.
- Device drivers, interrupts, context switches, booting, the shell and the user programs.
