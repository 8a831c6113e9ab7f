# Memory, processes and terminal of a small x86-64 kernel, in Dafny

The project models the memory subsystem of a teaching kernel and the state
machines beside it, and proves what they promise over all inputs and all runs.

**Copy-on-write virtual memory.** Physical memory is a map from frame address to
512 words. Page tables are frames in that memory, edited the way the kernel
edits them: through virtual pointers that the hardware walk resolves in the
current address space by way of the self-reference in PML4 slot 510. On top of
it stand `map_page`, `kmalloc`, `kfree`, `alloc_pml4`, `kmmap`, the page-fault
handler, `fork_process`, `load_elf`, `sys_brk` and user loads and stores. The
main theorem (`Kernel.KernelState.Run`) says that whatever processes do, in
whatever order, every answer is the one of a system in which fork copies all
memory at once: the values loads return, the results of brk, which accesses stop
the kernel and which never complete. How many frames each event needs is counted
exactly from the pages that are present, so when frames suffice is a condition on
the state before the call, and no frame is lost on the way. `Start.Launch` says
from the memory map alone when the boot path leads to such a state. It rests on
these invariants, each kept by every operation:

- the free list holds exactly the frames with count 0, once each (`Pmap`);
- the tables form a tree in which every address space shares the kernel half and
  refers to itself, and the leaf maps list exactly its present leaves
  (`PageTable.Tree`, `PageTable.Leaves`, `Paging.Ok`);
- the count of a user frame is the number of entries that map it, and a writable
  entry is the only one (`Cow.Exact`);
- a user page table is there exactly when a page under it is mapped
  (`Demand.TableInUse`), so the tables a new page lacks are known from the pages;
- the ranges of a process are page-disjoint (`Layout.WellFormed`) and the
  present pages of its stack are one run up to the top (`Process.ProcOk`).

**Beside it:** the boot-time page list and tables, `malloc` on top of brk, the
argument block of a new process, the terminal's line discipline, the console,
the ustar file system, `strtok` and the tick clock.

How the model is laid out:

- `Bits`, `Bytes`, `Machine`, `Option`: words, constants, options.
- `Pmap`, `PmapInit`: the page allocator as an array with links, proved against
  the simple form `Alloc` that the other modules use.
- `Pointers`, `PageTable`: the shift-and-or pointers, the hardware walk
  (section 4.5 of the Intel SDM, Volume 3A), the table tree.
- `Paging`, `Coherence`, `Boot`: the paging operations and whole runs of them.
- `Footprint`: how many frames a set of pages takes, tables included.
- `Cow`, `Demand`, `Fork`, `Layout`, `Process`, `User`, `Kernel`: ownership,
  faults, fork, address-space layout, user accesses, the running system.
- `VmaList`: the linked lists behind the layouts, in memory.
- `Loader`, `ArgBlock`, `Exec`, `Start`: the image of an executable, its argument
  block, the whole of `load_elf`, and the way from boot to the first process.
- `Malloc`, `Terminal`, `Move`, `Console`, `Tarfs`, `Strtok`, `Clock`.

Assumptions, stated once:

- Loadable segments do not share a page and lie below the stack, and their file
  ranges lie in the file (`Loader.SegmentsOk`).
- User code names canonical addresses only; the processor refuses all others
  (`Kernel.Legal`).
- `cr3_w` selects the root the hardware walks from, and `invlpg` has no effect.
- Kernel, page descriptors and boot tables lie in the first 2 MiB above the
  physical address the kernel is loaded at (`Boot.BootRange`), in one usable
  region, and every page the memory map names exists (`Start.Installed`).
- When the frames or kernel window addresses at hand do not suffice for a call,
  the method says so and a run stops in the state before it. The code would go on
  with the address -1.

Places where the code does something its comments or its names do not suggest,
and the model follows the code:

- `alloc_pml4` adds PGSIZE to a `uint64_t` pointer, so each call skips eight pages.
- `sys_brk` moves the break before it looks for a collision.
- `term_read` loops while `count <= size`, so a read may return size + 1 bytes.
- The delimiter counter is a `char`: 256 delimiters in the buffer read as none.
- A tab pushes four spaces after one look at the full flag. With fewer than four
  bytes of room the end of the ring runs past its start, and what was typed and not
  read is lost (`Terminal.TermBuf.PutChar`, `Terminal.TabExample`).
- `malloc` compares a pointer with `< 0` and so never notices that brk failed.
- The overlap test of `memmove` can never hold; every copy runs forward.
- `pmap_init` links each free page behind the one before, and writes through a
  null pointer when the very first page is reserved.
- `get_tfs_first` does not look at the header it returns, so an archive without
  members is walked as if its end block were one.
- `oct_to_bin` accumulates in an `int`, so sizes from 2^31 on come out wrong.
- The environment vector of the argument block has no null after it; a reader
  finds one only if the first eight strings are empty (`ArgBlock.NullAfterEnvp`).
- `kmmap` takes the size of a range as an `int`, so a fault in a range of 2^31
  bytes or more may map nothing and the access never completes
  (`Kernel.AccessCompletes`, `Kernel.BrkThenSpin`).
- `fork_process` reads the entry of every page outside the stack, so a heap that
  has grown by 4 MiB and was not touched makes it follow a page table that is not
  there (`Kernel.BrkThenFork`).

## Model

| member | source | states |
|---|---|---|
| `Pmap.PageAllocator.WalkList` | sys/pmap.c:277-290 | finds the descriptor of a page exactly when the page is a managed one |
| `Pmap.PageAllocator.GetFreePage` | sys/pmap.c:193-220 | is `Take` on the simple allocator and never reports a free page with a nonzero count |
| `Pmap.PageAllocator.ReleasePage` | sys/pmap.c:222-253 | is `Release` on the simple allocator: one reference less, on the free list at zero, both error cases |
| `Pmap.PageAllocator.IncMapCount` | sys/pmap.c:255-275 | is `Share` on the simple allocator: one reference more, both error cases |
| `Pmap.Alloc.Take` | sys/pmap.c:193-220 | keeps "free means count 0, once each"; gives a page with count 0 and counts it once; fails only on an empty list |
| `Pmap.Alloc.Release` | sys/pmap.c:222-253 | keeps the same invariant and lowers exactly one nonzero count by one; both error cases change nothing |
| `Pmap.Alloc.Share` | sys/pmap.c:255-275 | keeps the same invariant |
| `Pmap.LastBackFirstOut` | sys/pmap.c:193-253 | the page given back last is the first to be handed out again |
| `Pmap.FreeListExact` | sys/pmap.c:193-290 | following the links from the head visits every descriptor with count 0 once, no other one, and ends |
| `Pmap.RunCalls` | sys/pmap.c:193-290 | any sequence of get, release and increment is the same sequence on the simple allocator, result by result, and leaves an acyclic list of exactly the entries with count 0 |
| `PmapInit.PickRegions` | sys/pmap.c:38-55 | the first eight entries of type 1 and at least ten pages, in order, and where in the map they are |
| `PmapInit.ReservedLayout` | sys/pmap.c:91-101 | the descriptor array and the four boot tables lie in the reserved range without overlap, for every page count |
| `PmapInit.BasesExact` | sys/pmap.c:72-142 | the managed pages are all whole pages of the picked regions, counted from the region's base, but the last of each |
| `PmapInit.DistinctBases` | sys/pmap.c:109-142 | pages of regions that do not overlap have different bases |
| `PmapInit.Fill` | sys/pmap.c:103-145 | the nested loops describe every page and thread the unreserved ones; they meet a null link only when the first page is reserved |
| `PmapInit.BuiltValid` | sys/pmap.c:109-149 | the finished list is a valid allocator state: exactly the unreserved pages, once each |
| `PmapInit.PmapInit` | sys/pmap.c:22-149 | a valid allocator with exactly the whole pages of the usable regions but the last of each, those of the reserved range with count 1 and all others 0, or no regions, or a null link if and only if the first region begins in the reserved range |
| `PmapInit.NullLinkExample` | sys/pmap.c:109-142 | one usable region that begins where the kernel does leads to the null link |
| `Pointers.GetPhysDigits` | sys/pging.c:88-93 | the pointer's page and word indices are slot 510 followed by the address's upper three indices, then its last one |
| `Pointers.GetPDTDigits` | sys/pging.c:95-100 | the same with 510 twice |
| `Pointers.GetPDPTDigits` | sys/pging.c:102-106 | the same with 510 three times |
| `Pointers.GetPMLTDigits` | sys/pging.c:108-112 | the same with 510 four times |
| `PageTable.SelfMap` | sys/pging.c:7-10 | for every address and level, walking the constructed pointer ends at exactly the table word the walk of the address itself uses at that level, and fails exactly when that walk has no such table |
| `PageTable.WalkIsLookup` | sys/pging.c:114-189 | the hardware walk of a page from any root finds exactly what the leaf maps list |
| `PageTable.WalkTables` | sys/pging.c:114-189 | the hardware walk of a page finds a table of each level exactly when the tree has the table that is named for it |
| `PageTable.KernelHalfShared` | sys/pging.c:190-227 | pages under slot 511 translate alike from all roots, and each root refers to itself |
| `PageTable.LeafDecides` | sys/pging.c:143-174 | below slot 510 the hardware grants a user access if and only if the leaf word does: the intermediate words never refuse |
| `PageTable.KernelClosed` | sys/pging.c:56-74 | user code is granted no access under slots 510 and 511: neither to the tables nor to the kernel |
| `PageTable.TableEntry` | sys/pging.c:7-10 | an address under slot 510 that is mapped shows a table through a writable word, so it never looks like a copy-on-write page |
| `PageTable.AddTableLeaves` | sys/pging.c:150-174 | linking a cleared table in changes no leaf of any address space |
| `PageTable.SetLeafLeaves` | sys/pging.c:176-177 | writing a leaf word changes exactly that leaf |
| `PageTable.AddRoot` | sys/pging.c:196-208 | a cleared frame with slots 510 and 511 written is a new root with an empty user half |
| `Paging.Deref` | sys/pging.c:88-112 | a kernel access through a constructed pointer reaches the table word of its level |
| `Paging.ReadPte` | sys/pging.c:88-93 | reading through the leaf pointer gives the page's entry in the current space |
| `Paging.WritePte` | sys/pging.c:88-93 | writing through it changes that entry, no other translation, no walk and no data frame |
| `Paging.FreeTemp` | sys/kmalloc.c:72-78 | unmaps the temporary window and nothing else |
| `Paging.ZeroPage` | sys/pging.c:114-122 | clears the given frame through the window, leaves the window unmapped and every other data frame as it was |
| `Paging.EnsureTable` | sys/pging.c:150-174 | adds a missing table of one level, linked with the given flags, or changes nothing when it is there; it fails exactly when the table is missing and no frame is free |
| `Paging.MapPage` | sys/pging.c:124-189 | an unmapped page then translates to the given frame and flags, and nothing else changes but the window and the tables on its path that were missing, each for one free frame; a mapped page keeps its translation and the frame goes back; it succeeds if and only if the free frames are at least the missing tables |
| `Paging.Kmalloc` | sys/kmalloc.c:33-56 | a fresh, zeroed, mapped kernel page at the old free address; user mappings, other kernel mappings and data frames stay; it succeeds if and only if there are frames for the page and the tables it lacks, and takes exactly those |
| `Paging.AllocPml4` | sys/pging.c:190-227 | a new root with an empty user half that shares the kernel half; nothing else is disturbed; it succeeds if and only if there are frames for the root and the tables its window page lacks, and takes exactly those |
| `Paging.NewRoot` | sys/pging.c:206-208 | writing the two slots of a cleared frame keeps the whole table invariant with one more root |
| `Coherence.Kfree` | sys/kmalloc.c:58-70 | gives back the frame behind a live kernel page, unmaps the page and keeps every other mapping |
| `Coherence.Do` | sys/kmalloc.c:33-70 | one operation is one entry in a ledger of pages, spaces, mappings, tables and free frames, and succeeds if and only if the ledger has the frames and window addresses for it |
| `Coherence.Run` | sys/kmalloc.c:33-70 | over any run of kmalloc, kfree, alloc_pml4, user map_page and switches, live pages, spaces, the current one, the free address, the mapped pages and tables of every space and the number of free frames are those of the ledger; slot 511 is the same in all spaces, each slot 510 its own root; a run ends early exactly at the first operation the ledger has not the frames or addresses for, and not at all with four frames an operation |
| `Boot.FillKernelTable` | sys/pging.c:67-72 | the kernel's first table maps its pages one to one |
| `Boot.WriteBootTables` | sys/pging.c:33-72 | the four boot tables hold the self-reference, the chain to one page table, and nothing else |
| `Boot.InitPging` | sys/pging.c:24-86 | the table invariant holds at boot, no user page is mapped, every page of the kernel's image maps one to one, and the video page is mapped; it succeeds if and only if a frame is free, and takes that one |
| `Cow.MapFresh` | sys/mm.c:25-36 | mapping an unmapped frame with count 1 keeps counts exact and writers alone |
| `Cow.ShareExact` | sys/schedule.c:472-491 | sharing a page copy-on-write and raising its count keeps counts exact and writers alone |
| `Cow.BreakExact` | sys/isr.c:288-302 | giving an entry a frame of its own and dropping one reference keeps counts exact and writers alone |
| `Footprint.OneMore` | sys/pging.c:150-174 | a page more costs its frame and the tables that no page beside it has |
| `Demand.TableInUse` | sys/pging.c:150-174 | a user table of any level is there if and only if a mapped page of the space lies under it |
| `Demand.MapZero` | sys/mm.c:25-36 | one round of kmmap: an unmapped page becomes a writable zero page, a mapped one stays; no process sees a change; it succeeds if and only if there are frames for the page and the tables no other page of the space has; no frame is lost |
| `Demand.NumPagesExact` | sys/mm.c:10 | the page count is the number of pages the byte range reaches into, also for negative and wrapping sizes |
| `Demand.KMmap` | sys/mm.c:8-38 | every page of the range is mapped afterwards, only such pages were added, writable; mapped ones kept; no process sees a change; it succeeds if and only if the free frames are at least what the pages and tables still missing take, with one to spare for a last page that is mapped already |
| `Demand.CopyThroughTemp` | sys/isr.c:296-299 | the new frame, mapped at the temporary window, holds a copy of the faulting page's words; no process sees a change |
| `Demand.BreakShare` | sys/isr.c:288-302 | the faulting page becomes writable with the same contents, and no process sees a change; it succeeds if and only if a frame is free, and takes one exactly when the old frame is still shared; no frame is lost |
| `Demand.CountsAreMappings` | sys/schedule.c:475-491 | the count of a mapped frame is the number of pages, over all spaces, that the hardware walk takes to it; a page user code may write is the only one |
| `Layout.AllDisjoint` | sys/elf64.c:178-203 | segments, heap and stack are pairwise page-disjoint |
| `Layout.SysBrk` | sys/syscall_handler.c:298-354 | when each result comes about and what moves: the heap ends where it did if the break is below that, and else at the end of the break's page; the list stays well formed |
| `Layout.BrkFits` | sys/syscall_handler.c:298-354 | a call keeps the break inside the heap if and only if it reports no collision, and a break that has collided stays so |
| `Layout.RunBrk` | sys/syscall_handler.c:298-354 | any sequence of calls is the same sequence of `BrkOf`, result by result; only the break and the end of the heap move, and a moved end is less than a page above the break; the break ends inside the heap if and only if no call reported a collision |
| `VmaList.LinkedOnce` | sys/schedule.c:375-396 | a list that ends holds no node twice |
| `VmaList.MmStruct.Last` | sys/elf64.c:328-336 | the walk along the links ends at the last node |
| `VmaList.MmStruct.Append` | sys/elf64.c:120-131 | a new node behind the last one: the list holds one range more and all others as they were |
| `VmaList.BuildList` | sys/elf64.c:120-201 | the list load_elf leaves in memory, for any program headers, consists of new nodes and holds the ranges of the loadable segments, with sizes cut to an int, the heap and the stack; without a segment there is none |
| `VmaList.ListIsLayout` | sys/elf64.c:91-201 | for segments that can be loaded that list is the layout of the new process, and well formed |
| `VmaList.SegRangeExact` | sys/elf64.c:95-97 | the end of a range is that of the segment, off by multiples of 2^32 from 2^31 bytes on |
| `VmaList.TopOfExact` | sys/elf64.c:134-135 | the top the heap is placed on is the highest end of a range |
| `VmaList.MmStruct.Fork` | sys/schedule.c:375-396 | the child's list consists of new nodes and holds what the parent's holds; the parent's list, node by node, is as it was, although each copy first points into it |
| `VmaList.MmStruct.Brk` | sys/syscall_handler.c:298-354 | the in-place update of the heap range is `BrkOf` on the layout, and no other node changes |
| `VmaList.BrkStep` | sys/syscall_handler.c:298-354 | brk in one process leaves the lists of all others alone |
| `VmaList.ForkStep` | sys/schedule.c:357-396 | fork adds one list and leaves all others alone |
| `VmaList.RunCalls` | sys/schedule.c:357-396 | over any run of brk and fork by any processes, each call has the answer it has on separate layouts, and the lists in memory hold exactly what those hold, share no node, and stay in order and apart; no descriptor moves |
| `Fork.MakeCow` | sys/schedule.c:475-482 | the parent's entry is copy-on-write afterwards, whatever it was |
| `Fork.ShareOne` | sys/schedule.c:472-491 | the child's page shows what the parent's shows; all other pages of all processes show what they showed; it succeeds if and only if there are frames for the tables the child lacks, and takes exactly those |
| `Fork.CopyOne` | sys/schedule.c:442-464 | the same for the eager copy of a stack page, with one frame more |
| `Fork.ShareVma` | sys/schedule.c:470-495 | every present page of the range is duplicated, or some page of it has no table, or the frames do not suffice for the parent's pages |
| `Fork.CopyStack` | sys/schedule.c:440-468 | the downward copy that stops at the first absent page duplicates every present page of the stack, or the frames do not suffice for the parent's pages |
| `Fork.ForkPages` | sys/schedule.c:433-498 | every present page of the parent is duplicated if and only if every page looked at has a table and there are frames for the child's tables and stack pages |
| `Process.FindVma` | sys/isr.c:308-319 | the first range with start <= address < end, or none has |
| `Process.NoVma` | sys/isr.c:308-319 | the walk finds nothing if and only if no range holds the address |
| `Process.FillVma` | sys/isr.c:313-317 | mapping a whole range keeps the system's invariants; the pages present afterwards are those present before and exactly those below the end of the fill; it succeeds if and only if the frames before it suffice for the pages and tables still missing |
| `Process.ReachesPage` | sys/mm.c:8-38 | the faulting page is among them if and only if it starts below the end of the fill, as it always does in a range below 2^31 bytes |
| `Process.NothingFilled` | sys/mm.c:10 | for a heap of exactly 2 GiB no page is |
| `Process.HandlePgFault` | sys/isr.c:258-334 | when each outcome comes about, as a condition on the state before: a fault outside all ranges, by their bounds, ends the process, and running out of frames; a handled fault is invisible to all processes and loses no frame; a copy-on-write page is writable afterwards; for an absent page exactly the pages of the fill are added, which may leave it out; in the upper half, page tables included, it always ends in a fault |
| `Process.UpperEntry` | sys/isr.c:272-306 | no mapped page of the upper half, a table's or the kernel's, passes the handler's copy-on-write test |
| `Process.StackTables` | sys/elf64.c:196-211 | all pages of the stack have a page table from the first one on |
| `Process.TablesCovered` | sys/schedule.c:470-495 | every page fork looks at has a page table if and only if each shares its table with a page that is present |
| `Process.ChildSpace` | sys/schedule.c:357-432 | a kernel stack and an empty address space, if and only if frames suffice for both and their tables |
| `Process.ForkProcess` | sys/schedule.c:357-504 | the child has an equal layout, its own root, the same pages present, and sees page for page what the parent sees; nobody else notices; it completes if and only if every page outside the stack shares a page table with a present one and frames and window addresses suffice; it takes exactly those frames, and loses none but the child's kernel stack |
| `User.AccessByEntry` | sys/pging.c:143-174 | what the hardware grants to user code, by the page's entry |
| `User.NeedSuffices` | sys/isr.c:258-334 | the frames counted for an access from the pages present are those a load runs out without, and enough for a store |
| `User.UpperAccess` | sys/isr.c:258-334 | every access to the upper half is refused by the hardware and ends in a fault, and nothing changes |
| `User.UserRead` | sys/isr.c:258-334 | a load, with its faults, returns the word the process sees; it completes if and only if the page is mapped in the end, faults exactly outside all ranges, runs out of frames exactly when its range cannot be filled, and changes what no process sees |
| `User.UserWrite` | sys/isr.c:258-334 | a store, with its faults, changes one word of one process and nothing any other process sees; when it completes, faults and runs out of frames, as for a load, or when a shared page needs a frame and none is free |
| `Loader.CopyIn` | sys/elf64.c:158-167 | bytes copied into writable pages of one space read back, and nothing else changes |
| `Bytes.LowByteFirst` | sys/elf64.c:158-167 | bytes are taken from a word lowest first |
| `Loader.LoadSegment` | sys/elf64.c:91-173 | the first filesz bytes are the file's, the rest up to memsz zero, other bytes of the space untouched; it succeeds if and only if frames suffice for the pages and their tables |
| `Loader.LoadSegments` | sys/elf64.c:89-177 | all loadable segments, in any number and order, and the list of their ranges, if and only if frames suffice for all their pages and tables |
| `Loader.SegmentInImage` | sys/elf64.c:91-173 | in an image of page-disjoint segments every segment shows its own bytes: those of the file from its offset on, and zeros after them |
| `Loader.OutsideImage` | sys/elf64.c:91-173 | outside all segments the image is zero |
| `Loader.LoadableAt` | sys/elf64.c:89-93 | the segments loaded are the program headers of type 1, all of them, in order |
| `Loader.LayoutBuilt` | sys/elf64.c:178-203 | each segment's range is its own, the heap starts at the first page boundary not below the end of a segment, the stack is above, and the list is well formed |
| `Loader.LoadElf` | sys/elf64.c:70-214 | the part before the argument block: a new process with the image in place, an empty heap at the first page boundary above the segments and one writable stack page joins the system; no other process sees a change; it succeeds if and only if there is a segment and frames and window addresses suffice |
| `Kernel.SystemAgrees` | sys/schedule.c:412-498 | every state of the system stands for an eager one |
| `Kernel.KernelState.constructor` | sys/schedule.c:412-498 | any state with the invariants starts a run, and stands for an eager one |
| `Kernel.KernelState.LoadWord` | sys/isr.c:258-334 | a load answers as in the eager system, from the process's own memory, unless the frames before it do not suffice; then nothing has changed |
| `Kernel.KernelState.StoreWordAt` | sys/isr.c:258-334 | a store is one store in the eager system, with the same exception |
| `Kernel.KernelState.ForkCurrent` | sys/schedule.c:357-504 | fork is a whole copy in the eager system, with the same exception; where a page table is missing it stops, as the eager system's pages tell |
| `Kernel.KernelState.BrkCurrent` | sys/syscall_handler.c:298-354 | brk is `BrkOf` on the process's layout, in the result and in what the break and the heap become, and changes no memory |
| `Kernel.KernelState.Step` | sys/schedule.c:412-498 | every event has the eager system's answer and effect unless the frames or window addresses before it do not suffice; it takes no more frames than counted and loses none but a kernel stack for each fork |
| `Kernel.KernelState.Run` | sys/schedule.c:412-498 | for every interleaving of loads, stores, forks, brk and switches over any number of processes, the answers and the state are the eager system's; a run ends early only where that one stops or the frames or addresses left do not suffice, and only where that one stops if at the start there were as many as the eager run counts; no frame is lost but a kernel stack for each fork; every break is inside its heap in the end if and only if no brk reported a collision |
| `Kernel.AnswerAt` | sys/schedule.c:412-498 | each answer of an eager run is the eager system's at that point |
| `Kernel.NeedFeeds` | sys/isr.c:258-334 | with the frames counted from the eager process's pages, the kernel does not run out in the next event |
| `Kernel.NeedTight` | sys/isr.c:258-334 | and the count is no larger than that: exact for a load, one frame over for a store, four for a fork |
| `Kernel.SpaceSmall` | sys/schedule.c:357-432 | a child's kernel stack and root take at most six frames, tables included |
| `Kernel.AccessCompletes` | sys/isr.c:308-319 | an access to the user half completes if and only if its page is present or starts below the end of the fill of its range |
| `Kernel.StackCompletes` | sys/isr.c:308-319 | every access to the stack's range completes |
| `Kernel.RangeCompletes` | sys/isr.c:308-319 | with ranges below 2 GiB, every access inside one completes |
| `Kernel.OutsideStops` | sys/isr.c:320-331 | every access to an absent page outside all ranges stops |
| `Kernel.SpinsAgain` | sys/isr.c:308-319 | an access that did not complete does not complete when it is tried again, changes nothing, and calls for at most one frame |
| `Kernel.SpinsForEver` | sys/isr.c:308-319 | so it never completes, however often it is tried |
| `Kernel.TwoGigHeapSpins` | sys/isr.c:308-319 | an access to an absent page of a 2 GiB heap never completes |
| `Kernel.BrkThenSpin` | sys/isr.c:308-319 | after load_elf, a brk by 2 GiB and a load from the new heap: brk succeeds and the load never completes |
| `Kernel.BrkThenFork` | sys/schedule.c:470-495 | after load_elf, a brk by 4 MiB and a fork: brk succeeds and fork misses a page table |
| `Exec.LoadProcess` | sys/elf64.c:70-311 | the whole of load_elf: the process joins the system, its stack page reads back, through its own page tables, as the argument block that `_start` expects, and every other byte is the image's; it succeeds if and only if there is a segment and frames and window addresses suffice |
| `Exec.ArgumentsAt` | crt/crt1.c:15-19 | the word at the stack pointer is argc, and the argument vector follows it |
| `Exec.EnvironmentAt` | crt/crt1.c:15-19 | the environment vector is behind the null that ends the arguments |
| `Exec.StringAtPointer` | sys/elf64.c:249-297 | each pointer of a vector holds the address at which the process has that string in its memory |
| `Exec.StackShown` | sys/elf64.c:205-211 | the page these speak of is the top page of the stack as the process sees it |
| `Start.PmapBoots` | sys/main.c:34-41 | what pmap_init leaves is what init_pging needs |
| `Start.KernelTasks` | sys/schedule.c:189-222 | the idle task and two more tasks get a kernel stack and an address space each, if and only if the frames suffice, by closed form |
| `Start.LaunchFrom` | sys/main.c:34-62 | from the page allocator on: the kernel starts if and only if there is a segment and the free frames are at least those of the screen's table, the kernel pages of four tasks and the first process's image; the frames left are the difference |
| `Start.Launch` | sys/main.c:34-62 | from the memory map to a running kernel with one process, whose own memory in the eager system is exactly the image and the argument block, and whose present pages are those of the image and the top of the stack; it gets there if and only if the first usable page is not reserved, there is a segment, and the unreserved pages of the memory map are enough; how many are left, and the next window address |
| `Start.LaunchAndRun` | sys/main.c:34-62 | from the memory map to the answers of any run: the eager system's, up to where that one stops, if the frames and addresses left are those it calls for |
| `Malloc.Heap.Sbrk` | libc/memory.c:18-37 | what becomes of the descriptor is what brk makes of it, failure included, and the caller is not told |
| `Malloc.BreakTells` | libc/memory.c:18-37 | the block lies below a break inside the heap if and only if the break asked for is below the stack, wrap-around included |
| `Malloc.Heap.Search` | libc/memory.c:66-84 | the first free block that is large enough, or the last block |
| `Malloc.Heap.Malloc` | libc/memory.c:41-103 | first fit or a new block at the break, and the descriptor brk leaves; the result is inside the heap if and only if the request fits, and then all invariants hold |
| `Malloc.RefusedExample` | libc/memory.c:31-32 | an input for which brk refuses, and malloc returns a payload outside the heap |
| `Malloc.Heap.Free` | libc/memory.c:105-116 | marks one block; ends the process exactly on a double free, and then changes nothing |
| `Malloc.LiveApart` | libc/memory.c:41-116 | live payloads share no byte with each other or with a header, and lie inside the heap |
| `Malloc.Run` | libc/memory.c:41-116 | after any run of malloc and free, what each call returned, the blocks, the descriptor and where the run ends are those of the calls one by one from the given descriptor; the live blocks are exactly the allocations not yet released, with their addresses and sizes, live payloads share no byte, up to a request that does not fit or a double free |
| `Malloc.RunOp` | libc/memory.c:41-116 | one call of a run is one step of it as a value, which says what it returns and exactly when it ends the run |
| `ArgBlock.StoreStrings` | sys/elf64.c:249-269 | strings copied downward sit one below the other, each whole, nothing else written |
| `ArgBlock.StoreVector` | sys/elf64.c:273-297 | the words argc, argument pointers, null, environment pointers, nothing else written |
| `ArgBlock.Build` | sys/elf64.c:205-300 | the whole block, exactly between the new and the old stack pointer and inside the one page |
| `ArgBlock.RoundTrip` | crt/crt1.c:15-19 | reading argc, argv and envp the way `_start` does gives back the same strings, with a null after argv |
| `ArgBlock.NullAfterEnvp` | sys/elf64.c:271-278 | the word after the environment pointers is null if and only if the first eight strings, or all if there are fewer, are empty |
| `ArgBlock.UnterminatedExample` | sys/elf64.c:271-278 | the block built for one argument "a" and one variable "b" has a word there that is not null |
| `Terminal.EditedKeepsDelims` | sys/kprintf.c:197-290 | editing keeps every delimiter typed |
| `Terminal.FinishedStays` | sys/kprintf.c:197-225 | finished lines are never edited again |
| `Terminal.UnfinishedExact` | sys/kprintf.c:273-290 | the line backspace may edit is what comes after the last newline or end-of-transmission |
| `Terminal.DelimsExact` | sys/kprintf.c:98-120 | the delimiters counted are the newlines and end-of-transmissions |
| `Terminal.TermBuf.Pop` | sys/kprintf.c:98-120 | delivers the first byte of the window, or -1 when it is empty |
| `Terminal.TermBuf.Read` | sys/kprintf.c:131-156 | refused exactly with 0 or 256 delimiters in the window; otherwise the next part of the first line, up to the first newline or end-of-transmission and at most size + 1 bytes |
| `Terminal.TermBuf.Push` | sys/kprintf.c:273-290 | with room, appends to the window, counts a delimiter, ends the line |
| `Terminal.TermBuf.PopLast` | sys/kprintf.c:253-259 | takes back the last byte of the window |
| `Terminal.TermBuf.PutChar` | sys/kprintf.c:197-246 | which keys are refused, and that every other key is one edit of the text, a tab four; a tab with room for one to three of its spaces loses all that was in the buffer, but for one to three spaces; with 256 delimiters nothing is taken any more |
| `Terminal.OverrunLost` | sys/kprintf.c:225-235 | after such a tab the buffer is not that of any text |
| `Terminal.OverrunPopped` | sys/kprintf.c:98-120 | after the next byte is read it holds those spaces only |
| `Terminal.TabExample` | sys/kprintf.c:225-235 | a tab after 253 letters is one |
| `Terminal.TermBuf.BackspaceIsLine` | sys/kprintf.c:200-216 | what backspace may take is the unfinished line of the whole edited text |
| `Terminal.Run` | sys/kprintf.c:98-290 | for every interleaving of keys and reads, up to such a tab, the results, the bytes delivered and the window are those of the simple terminal, and delivered bytes followed by the window are the edited text; it ends early exactly at such a tab, with the spaces it leaves |
| `Terminal.StepEvent` | sys/kprintf.c:98-290 | one key or read: which is refused, what a read takes, what a key does to the window |
| `Terminal.StuckForEver` | sys/kprintf.c:131-246 | with 256 delimiters in the buffer no later key or read takes effect |
| `Terminal.NewlinesStick` | sys/kprintf.c:131-246 | 256 newlines lead there |
| `Move.Memmove` | sys/system.c:89-103 | the memory after the copy, for every overlap: each byte is the source's, or the one already copied over it |
| `Move.CopyExact` | sys/system.c:89-103 | the destination equals the source if and only if it does not start inside it, or the source repeats itself at that distance |
| `Move.OverlapSpoils` | sys/system.c:91-97 | every overlap ahead of the source spoils some content |
| `Console.WrappedSpells` | sys/kprintf.c:368-407 | the wrapped log spells out exactly the characters printed |
| `Console.PictureScroll` | sys/kprintf.c:410-422 | one row up and a blank row is the picture of the log one row further |
| `Console.PictureShows` | sys/kprintf.c:368-425 | each cell of the screen is the character of the log it stands for: the last 24 rows, blank where there is none |
| `Console.Screen.Clr` | sys/kprintf.c:489-503 | both copies blank, cursor at the origin |
| `Console.Screen.Scroll` | sys/kprintf.c:410-418 | both copies move up by one row, out of the shadow |
| `Console.Screen.PutChar` | sys/kprintf.c:368-425 | is one character on the unbounded log |
| `Console.Show` | sys/kprintf.c:368-425 | after clr and any printable text, video memory and shadow are equal and show the last 24 rows of the log; the cursor stays inside |
| `Tarfs.OctToBin` | sys/tarfs.c:348-359 | the number the digits make in an int, as an unsigned 64-bit value |
| `Tarfs.OctIntExact` | sys/tarfs.c:348-359 | the int is the number the characters make without a bound, cut once, whatever they are |
| `Tarfs.SizeRead` | sys/tarfs.c:348-359 | the size read back is the size written if and only if it is below 2^31 |
| `Tarfs.GetNext` | sys/tarfs.c:320-345 | from a member's header the next member's, or none after the last |
| `Tarfs.Visit` | sys/tarfs.c:186-191 | the walk visits exactly the members, in order, and stops |
| `Tarfs.VisitEmpty` | sys/tarfs.c:314-318 | without members it visits the end block |
| `Tarfs.MatchesName` | sys/tarfs.c:106 | a path no longer than the name field matches exactly the names that start with it |
| `Tarfs.FirstMatchNames` | sys/tarfs.c:102-139 | so the first match is the first member whose name starts with the path |
| `Tarfs.SkipLeading` | sys/tarfs.c:99-102 | the path without its leading spaces, and with everything else |
| `Tarfs.Open` | sys/tarfs.c:67-142 | finds the first member that matches the path after its leading spaces and gives its place, size and content; exactly when it refuses, by the bits of the flags |
| `Tarfs.TarFile.Read` | sys/tarfs.c:148-163 | the next bytes of the content, at most count, and the offset moves past them |
| `Tarfs.ReadAll` | sys/tarfs.c:148-163 | each read of a sequence returns its own piece of the content, the offset ends at the sum of the counts or the end, and the pieces concatenate to the content up to there |
| `Strtok.TokensArePieces` | libc/string.c:38-76 | what repeated calls return is the text cut at every delimiter, empty pieces included, without an empty last one |
| `Strtok.SplitJoins` | libc/string.c:38-76 | no piece holds a delimiter, and the pieces with delimiters between them are the text |
| `Strtok.Tokenizer.Strtok` | libc/string.c:38-76 | the piece up to the next delimiter, terminated in place, and the position after it; null exactly at the end, then forever |
| `Strtok.All` | libc/string.c:38-76 | calling until null collects exactly those pieces |
| `Clock.Timer.AddTick` | sys/ktime.c:23-54 | keeps seconds, days, the five-second count and milliseconds in step |
| `Clock.Run` | sys/ktime.c:23-54 | after n ticks, days, seconds, s_cnt and milliseconds by closed form |

## Left out

- Paging, Demand, Fork, Process, User, Loader: the machine state is a value that each method takes and returns, not an object updated in place; the vma lists are objects in VmaList and values elsewhere.
- Paging.MapPage: the flags of the upper words on a kernel page's path are stated level by level in Paging.EnsureTable, not once more for the whole path.
- Paging.ZeroPage: clears a frame in one step instead of the 2048 stores of memsetw.
- Demand.CopyThroughTemp: copies a page by words instead of bytes.
- PmapInit.PmapInit: only for usable regions that do not overlap; a page in two regions would get two descriptors.
- Coherence.Kfree: only for null or a page kmalloc returned and kfree has not taken back; kfree of any other address is not modelled.
- Layout.SysBrk: the list always has a heap range, as load_elf builds it; a missing descriptor or an empty list is not modelled.
- Terminal.TermBuf.PutChar: the echo is not modelled.
- Terminal.Run: not beyond a tab that spoils the buffer.
- Malloc.Run: not beyond a request that does not fit.
- Console.Screen.PutChar: printable characters and newlines only; carriage return, backspace and tab (whose loop does not end) are not.
- Tarfs.Open: not for the root directory and only for archives with members; memory behind the archive is taken not to match.
- Tarfs.TarFile.Read: not for a directory, whose offset is the address of a header.
- Exec.LoadProcess: the block is built in a buffer and then stored in the stack page, not string by string; the ELF header checks, the entry point and the scheduling of the new process are not modelled.
- ArgBlock.Build: strings come as values, at most ten of each kind and shorter than 100 bytes, as the kernel's buffers hold.
- Pmap: counts are unbounded integers; the 32-bit wrap-around of map_count and of the page total is not modelled.
- User.UserRead, User.UserWrite: whole aligned words; accessed and dirty bits, the TLB and reserved bits are not modelled.
- Kernel.KernelState.Step: exit, wait, execve and sleeping are not events; an event the kernel stops in has no effect in the model.
- Fork: the kernel stack, registers, process ids and file table of the child.
- Loader.LoadElf: stops before the argument block, which Exec.LoadProcess adds.
- Start.Launch: the pages of the struct pools, and the search for the first executable in the archive.
- Scheduler queues, wait, exit and execve: their lists do not keep the properties one would state.
- Pipes, the root directory and readdir of the file system, the shell, environment code and the struct pools.
- Devices, descriptor tables, interrupt entry, the boot loader and the system call stubs.
