# A verified model of PLUM_OS

PLUM_OS is a small x86-64 teaching kernel with its own C library. This project
models five parts of it in Dafny and proves what each is for.

1. **Virtual memory.** Demand paging and copy-on-write fork, at three levels. The
   bottom level (`Paging.Kernel`) is the kernel's code on its own data: an array of
   reference counts and physical memory whose pages hold four-level page tables.
   The middle level (`CowMachine`) forgets the tables and keeps page maps, frames
   and counts. The top level (`PrivateMemory.Ideal`) is what programs are promised:
   each process has memory of its own, and fork copies it. Every operation of the
   bottom level is proved to be a step of the middle one, and every run of the
   middle one to look like a run of the top one. `CowExactness` shows that the
   condition on VMA lists under which this holds is exact. `Hardware.Translate` is
   the processor's own walk over the raw words, with the bits it tests; user
   accesses go through it, and `TableTree.HardwareIsMmu` proves that its decision is
   the middle level's.
2. **The allocator.** `Allocator.Heap` runs `malloc` and `free` on the raw words of
   the heap; `Blocks` says what they do to the list of blocks; `Tags` says how a
   list of blocks is written into words.
3. **Processes.** `Lifecycle` is a state machine over the four task lists with
   scheduling, sleep, wake-up, exit, wait, kill and the reaper thread;
   `LifecycleRuns` proves safety over its runs, `ReaperRace` gives a run that breaks
   what the kernel assumes of its reaper; `Fates` follows each process through exit,
   kill and wait; `TaskLists.Processes` carries the same events out on four list
   heads and one `next` link per task.
4. **exec's stack image.** `ExecStack.Machine` copies the argument lists to the
   kernel buffer and on to the new stack page, byte by byte, and decodes them as
   `_start` does.
5. **Directories in the tar image.** `TarDir` scans the archive's bytes; `readdir`
   is proved to deliver exactly the records that a plain filter selects. `TarImage`
   makes archives from members, and `ls` of one shows the members.

Methods model code that changes things in place, with its loops; functions model
code that computes. `dafny verify dfyconfig.toml` checks everything.

Where the code does not do what its comments or its neighbours suggest, the code is
what is modelled:

- `brk` never stores the new break, so repeated calls append overlapping heap VMAs
  and a later fork adds more references than mappings. The invariant is therefore
  "at least as many references as mappings"; `CowInvariant.ForkReferences` says
  exactly when the two stay equal, and `CowExactness.OverCounted` is a run after which
  they are not.
- exec and exit give no frame of the old address space back.
- `map_a_page` copies whole pages and ignores `vm_filesz`;
  `LazyLoad.LazyAgreesWithEager` says exactly where that shows, and
  `LazyLoad.LazyDiffers` gives a segment where it does.
- When VMAs of different protection share a page, the kernel consults three
  different VMAs for one decision. `PrivateMemory.Consistent` is the exact condition
  on the list given to exec: `CowExactness.RefinesExactly` proves that the
  refinement holds if and only if the list meets it, and gives a run that goes wrong
  for every other list.
- `place` tags the granted block with its whole size even after writing the tags of
  a split, and `malloc` grows the heap by four times the request. That product and
  `sbrk`'s sum wrap around 64 bits; `Allocator.Heap.RightExactly` says for exactly
  which requests the answer is right, and `Allocator.Heap.HugeRequest` runs one for
  which it is not.
- `minit` compares `sbrk`'s failure with -1 although it is NULL, so a first
  allocation without memory writes to address 0 (`MallocResult.Crash`, which
  `Allocator.CrashingHeap` brings about).
- The reaper's wake-up by the fiftieth orphan assumes that the reaper is asleep;
  `LifecycleRuns.ExitCrashesExactly` says exactly when an exit, the task's own or one
  made by schedule's kill loop, finds it is not, and `ReaperRace.FiftiethExitCrashes`
  is a run from boot that ends so.
- exec's size assertion is computed in `int`; `ExecStack.AcceptsExactly` says which
  totals it lets through, `ExecStack.Machine.BuildStack` keeps those that do not fit
  apart as `Overrun`, and `ExecStack.OverrunHappens` gives lists of that kind.
- `belongs_to_dir` also accepts the directory's own name, which its comment does
  not mention; a listing starts behind the directory's own record.

## Model

| member | source | states |
|---|---|---|
| `PrivateMemory.CowRefinesPrivateMemory` | sys/mmap.c:18-77 | over every run of reads, writes, faults, forks, brk, exec with consistent VMA lists and exit, each process sees exactly the outputs and memory it would see if memory were private and fork copied it |
| `PrivateMemory.ReadAfterWrite` | sys/mmap.c:9-77 | what private memory means: a store is read back from its own word, and every other read, of any process, is as if the word had only been read |
| `PrivateMemory.ReadAfterRead` | sys/mm.c:583-628 | exactly when bringing a page in changes another read: never of another process or page, and within the page iff it was new and the VMAs of both addresses disagree on the word |
| `PrivateMemory.ReadAfterFork` | sys/syscall.c:793-892 | a forked child reads what its parent reads and all others read as before; a process that leaves or is killed takes no memory of others along |
| `PrivateMemory.StepRefines` | sys/syscall.c:691-892 | each single step has the private-memory step's output and effect and keeps the invariants |
| `PrivateMemory.AccessRefines` | sys/mmap.c:18-72 | an access with its fault and retry succeeds iff private memory allows it, and changes nothing but bringing the page in |
| `PrivateMemory.SplitView` | sys/mmap.c:45-61 | un-sharing a frame changes no process's memory |
| `PrivateMemory.StoreView` | sys/mmap.c:45-65 | a store through a writable entry changes one word of one process and nothing anyone else sees |
| `PrivateMemory.ForkView` | sys/syscall.c:793-892 | sharing frames in fork gives the child the parent's memory and changes no other |
| `PrivateMemory.BrkConsistent` | sys/syscall.c:606-658 | a heap VMA appended by brk, any number of times, keeps the list consistent |
| `PrivateMemory.StepKeepsInv` | sys/syscall.c:606-892 | every step, with any VMA list, keeps counts at or above mappings and writable frames unshared |
| `PrivateMemory.ReachableIsSafe` | sys/mm.c:241-305 | in every reachable state references cover mappings, a frame mapped writable has one mapping, and a free frame is mapped by nobody and used by no table |
| `CowInvariant.SoleReference` | sys/mmap.c:46-65 | with one reference left a mapped frame has exactly one mapping, so clearing COW in place exposes nothing |
| `CowInvariant.WritableIsSole` | sys/mmap.c:45-65 | a frame that an entry can write is named by that entry alone |
| `CowInvariant.FreeMeansUnused` | sys/mm.c:258-309 | the frame get_free_page would return is named by no entry and used by no table |
| `CowInvariant.DemandKeepsInv` | sys/mm.c:583-628 | a demand-mapped page keeps the invariant |
| `CowInvariant.SplitKeepsInv` | sys/mmap.c:46-61 | the copy-on-write split keeps the invariant |
| `CowInvariant.ClearKeepsInv` | sys/mmap.c:62-65 | the sole-owner upgrade keeps the invariant |
| `CowInvariant.ForkKeepsInv` | sys/syscall.c:793-892 | fork keeps the invariant, for every VMA list |
| `CowInvariant.ForkReferences` | sys/syscall.c:822-890 | fork adds at least as many references to a frame as mappings, and exactly as many iff no copied page of it lies in two VMAs |
| `CowInvariant.ForkTranslations` | sys/syscall.c:877-890 | the child maps exactly the parent's pages to the same frames, neither side writable; writable VMAs' pages become copy-on-write |
| `CowInvariant.BrkKeepsInv` | sys/syscall.c:606-658 | brk keeps the invariant, however often it is called |
| `CowInvariant.ExecKeepsInv` | sys/process.c:272-296 | dropping the old address space keeps the invariant |
| `CowLimits.RunExact` | sys/mm.c:241-309 | on runs of accesses, faults and forks over page-disjoint VMAs, each data frame's count equals its number of mappings |
| `CowLimits.ForkExact` | sys/syscall.c:822-890 | fork over page-disjoint VMAs keeps the counts exact |
| `CowLimits.ExactMeansMapped` | sys/mm.c:258-309 | with exact counts no data frame is lost |
| `CowLimits.UniformIsConsistent` | sys/syscall.c:882-886 | if VMAs of different protection share no page, and none from the heap on is read-only, the refinement applies |
| `CowLimits.FirstWriteVerdict` | sys/mmap.c:19-24 | a first write is refused iff the first VMA holding the address is read-only, by private memory iff every VMA of the page is |
| `CowLimits.ForkedWriteVerdict` | sys/syscall.c:882-886 | a forked child's write is refused iff the last VMA touching the page is read-only, by private memory iff every one is |
| `CowExactness.RefinesExactly` | sys/syscall.c:882-886 | from any state with a free frame, for every VMA list: all possible runs that begin with exec of the list look like private memory if and only if the list is consistent |
| `CowExactness.InconsistentParts` | sys/mmap.c:19-24 | every other list has a possible run whose last write the kernel answers with a fault and private memory with a store |
| `CowExactness.HiddenWrite` | sys/mm.c:512-525 | a first write where search_vma finds a read-only VMA in a page that another VMA makes writable |
| `CowExactness.ForkedWrite` | sys/syscall.c:882-886 | read, fork and a write in the child where the last VMA of the page is read-only |
| `CowExactness.HeapWrite` | sys/syscall.c:627-642 | brk over a read-only page and a write to it |
| `CowExactness.MixedProtectionBreaksFork` | sys/syscall.c:882-886 | one concrete list and run, from any state with a free frame: the real machine answers SegFault, private memory Stored |
| `CowExactness.OverCounted` | sys/syscall.c:606-658 | from any state with a free frame: after exec, two calls of brk, a first access and fork, a frame with two mappings has three references |
| `ForkLoop.CopyOnePage` | sys/syscall.c:822-891 | one iteration of copy_vma_deep moves the closed form of a half-done fork on by one page |
| `ForkLoop.NextVma` | sys/syscall.c:797-807 | finishing one VMA and linking its copy is starting the next |
| `ForkLoop.ForkStarts` | sys/syscall.c:738-764 | before the first VMA the child has no VMA and no entry |
| `ForkLoop.ForkEnds` | sys/syscall.c:793-808 | after the last VMA the state is fork's closed form, overlapping VMAs included |
| `ForkLoop.CopyCommutes` | sys/syscall.c:831-872 | the table frames taken on the way do not disturb the copying |
| `LazyLoad.EagerLoad` | sys/mm.c:484-496 | map_vma's loader installs the file's bytes on the file part and zeroes on the rest of the pages |
| `LazyLoad.LazyByteSource` | sys/mm.c:605-614 | a lazily loaded byte comes from the backing memory at its own distance from vm_start |
| `LazyLoad.LazyAgreesWithEager` | sys/mm.c:488-614 | both loaders agree on the whole file part, wherever vm_start lies in its page, and elsewhere iff the backing memory holds a zero |
| `LazyLoad.LazyDiffers` | sys/mm.c:613-614 | a segment and an address behind its file part where the lazily loaded byte is the file's and the eagerly loaded one zero |
| `LazyLoad.InnerOffsetWraps` | sys/mm.c:606-607 | the 64-bit inner offset of a page that begins before vm_start wraps, and the file pointer is right all the same |
| `SelfReference.OffsetsAreFields` | include/sys/pgtable.h:63-67 | the offset macros on a page number give the fields the hardware uses |
| `SelfReference.FieldsDetermineAddress` | include/sys/pgtable.h:63-67 | the four indices and the offset determine a 48-bit address |
| `SelfReference.AllocPgdSelfMaps` | sys/mm.c:418-419 | alloc_pgd's store makes slot 0x1fe refer to its own directory |
| `SelfReference.PteTrickReachesSlot` | include/sys/pgtable.h:37-61 | walking the trick address reaches the very PTE slot that a walk of the address reads |
| `SelfReference.PmdTrickReachesSlot` | include/sys/pgtable.h:37-61 | the same for the PMD slot |
| `SelfReference.PudTrickReachesSlot` | include/sys/pgtable.h:37-61 | the same for the PUD slot |
| `SelfReference.PgdTrickReachesSlot` | include/sys/pgtable.h:37-61 | the same for the PGD slot |
| `AddressBits.OffsetsAgree` | include/sys/pgtable.h:63-67 | the four index fields of an address, as numbers, are the indices of the page-table model |
| `AddressBits.TrickIndices` | include/sys/pgtable.h:37-61 | the trick address of an entry has slot 0x1fe and the page's first three indices, and ends at its fourth |
| `AddressBits.SelfIndexAgrees` | include/sys/pgtable.h:36-37 | both models mean the same directory slot |
| `TableTree.PteRoundTrip` | include/sys/pgtable.h:76-82 | frame, RW and COW of a leaf entry read back as stored; the processor finds P and U/S set, R/W as stored, and the frame |
| `TableTree.HardwareIsMmu` | sys/mm.c:561-625 | in every reachable memory the processor, testing P, U/S and R/W in the words of all four entries (Intel SDM volume 3A, sections 4.5 to 4.7), lets a user-mode access through iff the copy-on-write machine grants it, to the same frame, and its error code tells a missing page from a protection fault as the machine does |
| `TableTree.UserKeptOut` | sys/mm.c:206-209 | user mode reaches no address of the kernel half, and so not its own tables through slot 0x1fe |
| `TableTree.KernelShared` | sys/mm.c:404-419 | every process maps the kernel half as the kernel's own directory does |
| `TableTree.WalkFindsLeaf` | include/sys/pgtable.h:63-82 | the tables of a process form a tree: a four-level walk reaches the one leaf table of the page, or none |
| `TableTree.TrickFindsLeaf` | include/sys/pgtable.h:37-61 | in every reachable memory the processor's kernel-mode walk of the self-reference address, for a write, ends in the leaf table that the ordinary walk finds |
| `TableUpdates.SetLeafMaps` | include/sys/pgtable.h:76-77 | storing a leaf entry is a one-key update of one process's page map |
| `TableUpdates.AddTableGrows` | sys/mm.c:555-581 | linking a fresh table keeps the tree, aliases no table or data frame and changes no translation |
| `TableUpdates.AddRootMaps` | sys/mm.c:410-422 | a new directory gives a process that maps nothing and changes no other |
| `TableUpdates.DropTablesMaps` | sys/process.c:272-274 | dropping a process's tables leaves every other translation alone |
| `Paging.Kernel.constructor` | sys/mm.c:227-238 | the state after boot is valid, with no process, given a kernel directory with an empty user half and no entry for user mode |
| `Paging.Kernel.GetFreePage` | sys/mm.c:258-309 | the lowest free frame of the range and one fewer left, or none if all are taken |
| `Paging.Kernel.FollowOrMake` | sys/mm.c:555-563 | one level of the walk: the linked table, or a fresh one linked in; takes at most one frame and fails only when none is left |
| `Paging.Kernel.LeafTable` | sys/mm.c:551-581 | the leaf table of the page, at the cost of at most three kernel frames; fails only when none is left |
| `Paging.Kernel.LoadPage` | sys/mm.c:605-614 | the copy loop yields the page of the backing memory |
| `Paging.Kernel.MapLeaf` | sys/mm.c:583-625 | an empty leaf slot gets a frame with the page of the VMA and its protection, in an entry the processor accepts, as the machine says; one frame, failing only when none is left |
| `Paging.Kernel.MapAPage` | sys/mm.c:542-628 | at most the requested page is added, filled as its VMA says; every other translation and content stays; takes at most four frames and fails only when none is left |
| `Paging.Kernel.FindVma` | sys/mm.c:512-525 | the first VMA that contains the address |
| `Paging.Kernel.SplitShared` | sys/mmap.c:46-61 | the stores of the split are the machine's split; takes one frame and fails only when none is left |
| `Paging.Kernel.WriteProtected` | sys/mmap.c:32-71 | the copy-on-write answer, made through the self-reference address, is the split, the upgrade or the kill that the machine says |
| `Paging.Kernel.PageFaultHandler` | sys/mmap.c:9-77 | every user-mode fault, at any address, does what the machine's handler says, on the real tables; it panics only when no frame is left, and never on a fault that kills |
| `Paging.Kernel.Descend` | sys/syscall.c:823-856 | one level of the walk for the child: nothing if the parent has no table there, else the child has one too, and tables of the child match tables of the parent |
| `Paging.Kernel.CopyPage` | sys/syscall.c:822-891 | one iteration on the tables, with every early `continue`, is one iteration of the machine; the frames it takes are the child's new tables, and it fails only when none is left |
| `Paging.Kernel.CopyVmaDeep` | sys/syscall.c:810-892 | the page loop advances the half-done fork over the whole VMA; the frames it takes are the child's new tables, failing only when none is left |
| `Paging.Kernel.CopyMm` | sys/syscall.c:793-808 | the VMA loop completes the fork; it takes a frame a VMA and the child's new tables, failing only when none is left |
| `Paging.Kernel.AllocPgd` | sys/mm.c:410-422 | a fresh directory with an empty user half, the kernel half of the kernel's own directory, and itself in slot 0x1fe; fails only when no frame is left |
| `Paging.Kernel.ForkProcess` | sys/syscall.c:691-776 | fork on the tables is the machine's fork plus frames for the kernel's own use: at most four, one a VMA and one a table of the parent; it fails only when none is left |
| `Paging.Kernel.DropProcess` | sys/process.c:272-274 | dropping the mm is the machine's exit |
| `Paging.Kernel.ExecProcess` | sys/process.c:272-394 | exec's new directory and VMA list is the machine's exec, for the first exec of a kernel thread too; at most four frames and one a VMA, failing only when none is left |
| `Paging.Kernel.BrkProcess` | sys/syscall.c:606-658 | brk answers the query, appends a heap VMA, or panics, and that only for a break at or below the heap start, at or above the limit, or with no frame left |
| `Paging.Kernel.Probe` | sys/mm.c:583-625 | the processor's answer from the words of the tables is the machine's: granted with the frame, not present, or a violation |
| `Paging.Kernel.Load` | sys/mmap.c:9-77 | a load through the frame the processor finds is the machine's word |
| `Paging.Kernel.Put` | sys/mmap.c:9-77 | a store through the frame the processor finds is the machine's store |
| `UserMode.Attempt` | sys/mmap.c:9-77 | the processor's walk, fault, repair and restart end after at most two faults, in the state the refinement describes; with five free frames the kernel never panics |
| `UserMode.UserRead` | sys/mmap.c:9-77 | a load from any address on the real tables returns private memory's word or kills exactly when private memory does, whenever five frames are free |
| `UserMode.UserWrite` | sys/mmap.c:9-77 | a store to any address on the real tables is private memory's store or kills exactly when private memory does, whenever five frames are free |
| `UserMode.UserFork` | sys/syscall.c:691-776 | fork on the real tables is an outright copy, whenever more than four frames, one a VMA and one a table of the parent are free |
| `UserMode.UserBrk` | sys/syscall.c:606-658 | brk on the real tables is private memory's, for every break the kernel accepts, whenever two frames are free |
| `UserMode.UserExec` | sys/process.c:272-394 | exec on the real tables gives the caller, old or new, an empty private memory, for every VMA list, whenever more than four frames and one a VMA are free; with a consistent list the refinement goes on |
| `UserMode.UserLeave` | sys/syscall.c:971-999 | exit on the real tables removes the caller's private memory and no other |
| `UserMode.Calls` | sys/syscall.c:173-230 | a whole sequence of accesses and system calls on one kernel gives private memory's answers and memory, and stops early only when no frame is left |
| `Blocks.MergeWellFormed` | libc/malloc.c:99-130 | coalescing restores "no two free neighbours" in all four cases |
| `Blocks.FreedWellFormed` | libc/malloc.c:205-213 | free keeps the list well formed and its total |
| `Blocks.MallocedWellFormed` | libc/malloc.c:165-203 | malloc keeps the list well formed and adds exactly what it grew by |
| `Blocks.MergeAlone` | libc/malloc.c:99-107 | a free block of a well-formed list is left alone by coalescing |
| `Blocks.FreeUndoesMalloc` | libc/malloc.c:148-213 | freeing a block obtained without growth restores the block list exactly |
| `Blocks.AllFreeIsOne` | libc/malloc.c:99-130 | when nothing is in use the heap is one free block |
| `Blocks.RunConserves` | libc/malloc.c:165-213 | every sequence of malloc and free stays well formed and accounts for all memory ever obtained; with all freed, one block holds it |
| `Tags.BlockAt` | libc/malloc.c:31-41 | header and footer of each block agree and lie where the sizes before it say |
| `Tags.MergeTags` | libc/malloc.c:105-128 | two tag writes merge a stretch of blocks and touch no live payload |
| `Tags.Retag` | libc/malloc.c:155-161 | retagging a block, with anything written inside its own payload, encodes the changed list and touches no other payload |
| `Tags.AppendTags` | libc/malloc.c:89-92 | a free block over the old epilogue and fresh words extends the encoding |
| `Allocator.AdjustedSizeCovers` | libc/malloc.c:184-187 | the adjusted size is the least multiple of 8, at least 16, with room for the request and two tags, iff the 64-bit sum does not wrap; what the fifteen wrapping requests get |
| `Allocator.FitIsRoom` | libc/malloc.c:133-145 | first fit finds a block iff some free block has 16 and size + 8 bytes, and then the first such |
| `Allocator.GrowthIsLeast` | libc/malloc.c:195-198 | the heap grows by four times the least size that serves the request and is a chunk or more |
| `Allocator.Heap.Sbrk` | libc/sbrk.c:9-37 | for every increment: NULL iff the wrapped sum is above the limit, the old break over zeroed words iff the true sum is not, else a break that wrapped to below itself |
| `Allocator.Heap.CoalesceTags` | libc/malloc.c:99-130 | in each of the four cases the tag writes are those of the merged block |
| `Allocator.Heap.Coalesce` | libc/malloc.c:99-130 | the heap encodes the merged list, live payloads unchanged, and the result is the merged block |
| `Allocator.Heap.ExtendHeap` | libc/malloc.c:77-96 | the heap encodes the grown list and the break has moved by the wrapped byte count; NULL iff sbrk refuses |
| `Allocator.Heap.GiveNothing` | libc/malloc.c:77-163 | a growth that wraps to nothing returns the break and overwrites the last footer, and nothing else |
| `Allocator.Heap.FindFit` | libc/malloc.c:133-145 | the first free block that is large enough, or none |
| `Allocator.Heap.Place` | libc/malloc.c:148-163 | the block is in use as a whole; the split's stray tags stay inside it |
| `Allocator.Heap.Init` | libc/malloc.c:57-74 | prologue, epilogue and one free chunk, or exactly which failure |
| `Allocator.Heap.MallocReady` | libc/malloc.c:180-203 | for every size_t request: exactly when it is NULL, a block, a stray pointer or a broken break; the break stays and the first block with 16 and size + 8 bytes is granted whenever there is one, else the heap grows; a block is 8-aligned, in use, disjoint from every live payload, none of whose words change, and has room for the request iff no arithmetic wrapped |
| `Allocator.Heap.RightExactly` | libc/malloc.c:180-203 | NULL only if no free block serves and the growth is not to be had, growth only if no free block serves, and room for the request: so iff the request is zero, refused, or does not wrap and fits or grows without wrapping |
| `Allocator.Heap.HugeRequest` | libc/malloc.c:184-203 | malloc(1<<63) grows the heap by 32 bytes and grants a block without room for the request |
| `Allocator.Heap.Malloc` | libc/malloc.c:165-203 | the same answer with lazy initialisation, so that a first request which fits the first chunk moves the break no further, and exactly when initialisation gives NULL or writes to address 0 |
| `Allocator.CrashingHeap` | libc/malloc.c:57-66 | in a program whose heap begins at or above the limit the first malloc writes to address 0 |
| `Allocator.Heap.Free` | libc/malloc.c:205-213 | the heap encodes the freed list; every other live payload is unchanged |
| `Scheduler.MoveListed` | sys/process.c:529-571 | moving a task keeps every task on exactly one list |
| `Scheduler.ExitNotifies` | sys/syscall.c:971-999 | a waited-for child's exit makes it a zombie with its status and wakes exactly its parent |
| `Scheduler.ExitOrphans` | sys/syscall.c:971-999 | otherwise it becomes an orphan; the fiftieth wakes the reaper |
| `Scheduler.ExitKeepsInv` | sys/syscall.c:971-999 | exit keeps the invariant |
| `Lifecycle.ScheduleKeepsInv` | sys/process.c:92-117 | whatever kills were pending, schedule ends and picks an active task that is not marked |
| `Lifecycle.ExitShrinksMarked` | sys/process.c:98-101 | each turn of the kill loop leaves fewer marked tasks |
| `Lifecycle.WaiterFindsZombie` | sys/syscall.c:954-963 | a waiter that runs again finds its own child dead, not freed, not an orphan, and nobody else waiting for it |
| `Lifecycle.ReapKeepsInv` | sys/process.c:650-666 | the reaper's pass frees exactly the orphans of the list and leaves all other tasks as they are |
| `Lifecycle.EffectKeepsInv` | sys/process.c:529-666 | every event keeps the invariant over lists, pids, idle, reaper and waits; what each event does is said by the members of Fates |
| `LifecycleRuns.ReachableRuns` | sys/process.c:59-146 | in every reachable state each task is on one list, pids are unique, idle is active and selection finds a task |
| `LifecycleRuns.CalmRunNeverFails` | sys/process.c:535-557 | once the reaper has slept, no run in which its scan is not interrupted walks off a list |
| `LifecycleRuns.CalmStep` | sys/syscall.c:991-998 | from such a state every step is defined and stays in such states |
| `LifecycleRuns.CalmCycle` | sys/process.c:650-666 | a scan followed by the reaper's sleep returns to such a state |
| `LifecycleRuns.SleepsBelowLimit` | sys/syscall.c:991-995 | there the reaper is on the sleep list iff the orphan count is below fifty |
| `LifecycleRuns.ExitCrashesExactly` | sys/syscall.c:991-995 | an exit of any active user task, its own or made by the kill loop, walks off the sleep list iff it makes the fiftieth orphan before the reaper's first sleep or between its scan and its sleep |
| `ReaperRace.FiftiethExitCrashes` | sys/syscall.c:991-995 | a run from boot of forks, ticks and exits after which the next exit walks off the sleep list |
| `LifecycleRuns.EffectOnZombie` | sys/process.c:629-666 | a zombie changes no more; only its own parent's waitpid frees it if kept, only the reaper if an orphan |
| `LifecycleRuns.ZombieKeepsStatus` | sys/syscall.c:954-963 | over any run a zombie keeps its status until it is freed; `Fates.QuitDies` and `Fates.StepKeepsMark` say which status it died with |
| `LifecycleRuns.NeverBack` | sys/process.c:629-647 | a freed pid never becomes a task again |
| `LifecycleRuns.FreedOnce` | sys/process.c:629-647 | over any run what was freed stays freed and is no task, and a step frees only tasks, so no pid is freed twice |
| `LifecycleRuns.RoundRobin` | sys/process.c:92-146 | with n active tasks, none of them marked, n consecutive schedule calls select each exactly once |
| `Fates.QuitDies` | sys/syscall.c:966-999 | after exit(n) the caller is a zombie with status n, an orphan iff nobody waits for it, and does not run |
| `Fates.ExitReachesParent` | sys/syscall.c:954-999 | over any run from a child's exit(n), a parent whose waitpid ends for it is its own parent and finds n |
| `Fates.KillMarks` | sys/syscall.c:1007-1033 | kill sets its target's mark and changes nothing else of any task or list |
| `Fates.SelectedDies` | sys/process.c:96-101 | a marked task that the selection comes to is a zombie with status 1 when schedule is done |
| `Fates.ScheduleFate` | sys/process.c:92-117 | schedule leaves a task alone, wakes it from its sleep, or kills it for its mark with status 1; nothing else |
| `Fates.StepKeepsMark` | sys/process.c:92-117 | no step but the task's own exit takes a mark away or kills a marked task otherwise than with status 1, and after a step that reschedules it does not run |
| `Fates.KillIsFinal` | sys/process.c:98-101 | over any run after kill of another process the target never runs again, and its parent's waitpid gives 1 |
| `Fates.KilledInOneRound` | sys/process.c:92-146 | a marked active task is dead with status 1 after as many ticks as there are active tasks, whatever other kills and wake-ups happen on the way |
| `Fates.CountStaysExact` | sys/syscall.c:991-995 | over any run zombie_count is the number of zombies left to the reaper, which is woken exactly from fifty on |
| `Fates.ForkedChild` | sys/syscall.c:691-776 | fork adds one active user task with a fresh pid whose ppid is the caller, and changes no other |
| `Fates.SpawnedThread` | sys/process.c:59-89 | kernel_thread adds one active kernel task of the caller |
| `Fates.ReadSleeps` | sys/syscall.c:343-344 | a read without input leaves the caller on the stdin list and not running |
| `Fates.StdinWakes` | sys/process.c:590-600 | when input arrives the stdin list is empty and exactly its members have become active, each in turn at the head |
| `Fates.WaitSleeps` | sys/syscall.c:950-956 | waitpid leaves the caller blocked on the child, awake only if the child has died of its mark at once |
| `TaskLists.PushChained` | sys/process.c:529-532 | pushing a task on a head keeps the four chains acyclic and disjoint |
| `TaskLists.UnlinkChained` | sys/process.c:535-557 | closing the link around a task removes it and nothing else |
| `TaskLists.Processes.constructor` | sys/process.c:36-57 | the three boot threads form a state that satisfies the invariant |
| `TaskLists.Processes.AddTo` | sys/process.c:529-532 | the task is the new head |
| `TaskLists.Processes.RemoveFrom` | sys/process.c:535-557 | the task is off its list, the order of the others kept, and on no other |
| `TaskLists.Processes.Find` | sys/process.c:614-626 | the task iff it is on that list |
| `TaskLists.Processes.MoveTask` | sys/process.c:560-606 | the link work of sleep and wakeup is the machine's move |
| `TaskLists.Processes.WakeAll` | sys/process.c:590-600 | waking a whole list moves its members one by one to the active head |
| `TaskLists.Processes.SelectTask` | sys/process.c:133-146 | the task after the current one around the active list |
| `TaskLists.Processes.Create` | sys/process.c:59-89 | a new task with a fresh pid at the active head |
| `TaskLists.Processes.FreeProcess` | sys/process.c:629-647 | a zombie leaves its list and the table |
| `TaskLists.Processes.ExitSt` | sys/syscall.c:971-999 | exit on the links is the machine's exit |
| `TaskLists.Processes.ScheduleNow` | sys/process.c:92-107 | the kill loop ends in the machine's choice |
| `TaskLists.Processes.ClearZombies` | sys/process.c:650-666 | the scan, which saves each link before freeing, is the machine's pass |
| `TaskLists.Processes.WaitBegin` | sys/syscall.c:939-955 | the child is found iff it is not a zombie; then the caller sleeps on it |
| `TaskLists.Processes.WaitEnd` | sys/syscall.c:957-963 | the child's exit status is returned and the child freed |
| `TaskLists.Processes.KillByPid` | sys/syscall.c:1007-1033 | 0 iff the target is on one of three lists and a user process, else -1; only SIGKILL marks it |
| `TaskLists.Processes.Perform` | sys/process.c:529-666 | every event carried out on the links is one step of the machine, whose effect Fates states event by event |
| `TaskLists.Processes.ExitThenWait` | sys/syscall.c:939-999 | on the links: a child calls exit(n), any events follow, and its parent's waitpid returns n and frees it |
| `ExecStack.ListAtUnique` | crt/crt1.c:20-23 | memory holds at most one null-terminated string list at an address |
| `ExecStack.AcceptsExactly` | sys/process.c:254-255 | exactly which totals the int assertion lets through: those that fit, and those that wrap |
| `ExecStack.OverrunHappens` | sys/process.c:254-255 | thirty-two pointers to one long string pass the assertion and do not fit |
| `ExecStack.LayoutFits` | sys/process.c:258-269 | argc, both pointer arrays with their nulls and both string areas follow one another in the one top page with room for _start's frame, and fit the kernel buffer |
| `ExecStack.LayoutAligned` | sys/process.c:258-264 | every area starts on a multiple of 8 |
| `ExecStack.Machine.Strncpy` | sys/string.c:48-59 | the copied characters and a terminator, nothing else written |
| `ExecStack.Machine.GetStrlistSize` | sys/process.c:495-505 | the bytes of all strings with terminators, in int |
| `ExecStack.Machine.GetStrlistNum` | sys/process.c:507-513 | the number of strings |
| `ExecStack.Machine.CopyStrlist` | sys/process.c:515-526 | pointers to packed copies of all strings, in order, and nothing written outside the two areas |
| `ExecStack.Machine.SaveLists` | sys/process.c:265-269 | both lists can be read from the kernel buffer alone |
| `ExecStack.Machine.LayStack` | sys/process.c:412-424 | the new stack page holds argc and both lists where _start looks |
| `ExecStack.Machine.BuildStack` | sys/process.c:246-424 | refused iff the int assertion fails, built iff the parameters fit one page, and then the image is complete |
| `ExecStack.Machine.Start` | crt/crt1.c:20-23 | argc, argv and envp as laid out |
| `ExecStack.Machine.ExecThenStart` | sys/process.c:246-424 | the round trip: main receives the same strings in the same order, all inside the stack page, iff the parameters fit |
| `TarDir.OctstrToInt` | sys/tarfs.c:235-248 | the digits' sum modulo 2^64 for every field, char being signed, so the value of every octal field below 2^64 |
| `TarDir.BelongsToDir` | sys/syscall.c:468-505 | true iff the name is the directory's plus one component, perhaps with a closing slash |
| `TarDir.OneParent` | sys/syscall.c:461-505 | a record belongs to at most one directory besides itself |
| `TarDir.TraverseTarfs` | sys/tarfs.c:54-110 | the first record from the start that passes, the rest of the selection lying behind it; `TarImage.RecordsAreMembers` says what the records are |
| `TarDir.CursorIsBoundary` | sys/syscall.c:544-547 | the cursor getdents stores is the record boundary the scan would reach; `TarImage.MemberReads` shows that it is where the padded data end |
| `TarDir.HitsExact` | sys/tarfs.c:54-110 | the selection contains a record iff it is in the archive and passes |
| `TarDir.HitsInOrder` | sys/tarfs.c:54-110 | once each, in archive order |
| `TarDir.EntriesAt` | sys/syscall.c:555-578 | a listing has one entry per selected record, in order |
| `TarDir.EntryCompletes` | sys/syscall.c:567-578 | directory name plus entry name is the record's name; the entry is one component; its inode is 1 for a directory and else 2 |
| `TarDir.DirentRoundTrip` | sys/syscall.c:17-22 | the packed bytes that getdents writes decode to the entry in readdir |
| `TarDir.Directory.Getdents` | sys/syscall.c:508-592 | the next entry in packed form at the head of the buffer and the cursor moved behind it, or 0 at the end |
| `TarDir.Directory.Readdir` | libc/dir.c:40-72 | one entry a call in listing order, NULL exactly when none is left |
| `TarDir.Directory.ReadAll` | libc/shlib.c:422-424 | reading to the end terminates with exactly the whole listing |
| `TarDir.TarfsOpen` | sys/tarfs.c:112-188 | the faked root, or the first record of that name, with the position behind its header |
| `TarDir.ListFile` | libc/shlib.c:408-431 | a path's listing is the filter over the records behind the directory's own |
| `TarImage.RoundsUp` | include/sys/tarfs.h:7 | the least multiple of 512 that is not below the number |
| `TarImage.OctRoundTrip` | sys/tarfs.c:235-248 | the octal digits of a number denote the number |
| `TarImage.MemberReads` | include/sys/tarfs.h:26-44 | wherever a member lies in the image, its name, type and size are read back from the ustar header, and the next record begins behind its padded data |
| `TarImage.RecordsAreMembers` | sys/tarfs.c:62-110 | the scan of an archive visits exactly the headers of its members, in order, and the closing blocks of zeroes |
| `TarImage.ImageIsArchive` | sys/tarfs.c:62-110 | every such archive with sizes an int can step over is one the scans accept |
| `TarImage.ListingIsLs` | sys/syscall.c:508-592 | what the kernel lists of an archive is one entry for each member directly in the directory, with its type and its name below it, in order |
| `TarImage.LookupIsFirst` | sys/tarfs.c:54-110 | opening a path finds the first member of that name, and its contents are sought behind it |
| `TarImage.ListArchive` | libc/shlib.c:408-431 | ls of any path on any archive shows the members in that directory, or that there is none of that name, or that it is a file |

## Left out

- Hardware.Translate: large pages and reserved bits are one outcome, `Large`, which the kernel's tables never reach; no-execute, protection keys and cached translations are not modelled.
- Hardware: assembly, descriptor tables, timer and interrupt set-up; a context switch changes `current`, and a flushed entry is visible at once.
- Boot-time memory layout and the page bitmap, which allocation never consults: the model starts from given reference counts.
- `free_vma` and `unmap_mm`, whose call sites are commented out.
- Kernel-mode writes to user buffers (`copy_from_kernel`), which bypass copy-on-write: the refinement is about user-mode accesses.
- User accesses are to aligned 64-bit words; narrower ones are not modelled.
- Reference counts and pids are unbounded integers; their C `int` width is not modelled.
- Running out of memory panics in the kernel; the methods say when that can happen and promise nothing about the state afterwards.
- ELF headers: exec takes its VMA list as given, for any list the invariant allows; `vm_file` is an immutable file value.
- PrivateMemory.CowRefinesPrivateMemory: asks for consistent VMA lists in exec; `CowExactness.RefinesExactly` shows that nothing less will do, and `CowLimits.UniformIsConsistent` gives a plain sufficient condition.
- UserMode.Calls: has the same condition.
- Paging.Kernel.ExecProcess: the stack page that exec maps at once and fills is not part of it; `ExecStack` models what goes into that page.
- Allocator.Heap.Sbrk: a break that wraps to below itself is reported and not carried out.
- Allocator.Heap.ExtendHeap: the same.
- Allocator.Heap.MallocReady: for a break that wraps to below itself (`Broken`) it says when that happens, not what the stores behind the break then do.
- Allocator.Heap.Malloc: the same.
- Allocator.Heap.Free: is for pointers that malloc returned and that are still live.
- LifecycleRuns and TaskLists: only parents wait, on their own children and not on themselves; kernel threads other than the reaper and idle do not exit before they exec; the zombie scan of `thread_clear` is one event.
- TaskLists.Processes.ScheduleNow: `exit_st` called from `schedule` itself calls `schedule` again, and the model continues with the choice that the inner call makes; when the outer call resumes it selects once more, which is a further `Tick` of that task, an event that is always possible.
- ExecStack.Machine.BuildStack: for a total that wraps past the assertion (`Overrun`) it says when that happens, not what the copies then overwrite.
- exec of scripts beginning with `#!`, the process name, and the demand mapping of the page that holds argv.
- ExecStack.Machine.Start: the 24 bytes by which the compiled prologue has moved the stack pointer are taken as given.
- TarDir.TarfsOpen: paths without their leading slashes fit the kernel's 64-byte name buffers, and are not a run of four or more slashes, for which the source reads before its buffer.
- TarDir.ListFile: the same.
- TarDir.TraverseTarfs: sizes as the kernel reads them are small enough for its int arithmetic, and names shorter than getdents asserts; outside that the scan can step backwards.
- TarImage.MemberReads: names fill less than the 100-byte name field, as a longer one would not be terminated, and sizes have eleven octal digits.
- Fates.KilledInOneRound: is about active tasks and runs of timer ticks; a marked task that sleeps dies only after it has been woken.
- File descriptors, `tarfs_read`, `tarfs_close` and `chdir`.
- Keyboard, stdin buffer, screen output, the shell and the sample programs.
- The number printer and parser of the C library.
