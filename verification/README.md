# A model of a small RISC-V kernel's memory and scheduling

This project models a teaching kernel for RISC-V with Sv39 paging and proves what its memory
management, scheduler and console are for:

- the buddy allocator: blocks tile memory, allocation fails only when it has to, freeing undoes
  allocating, and the free lists are a function of what is in use;
- page tables: mapping a page changes the translation of that page and of nothing else, whatever
  superpages have to be split for it; tables are torn down completely and exactly once;
- tasks: areas and tables agree, a fork copies every byte that can be read into frames of its own, stacks grow
  without touching anything, and when a task ends every page it took is free again;
- scheduler and UART: each task is in one place, nobody sleeps over a wakeup, tasks are dispatched
  first come first served, and no byte is lost, doubled or reordered in a ring;
- program start: segments, arguments and environment are where the program looks for them;
- the decimal printer and reader of the user library are inverse to each other.

## How it is built

| file | models |
|---|---|
| `Memlayout.dfy` | addresses and constants, results that may be panics |
| `Bits.dfy` | `^`, `&` and `~` bit by bit |
| `Buddy.dfy` | the allocator on lists of block indexes, its invariant and its laws |
| `Allocator.dfy` | the allocator as it runs: heads, and links in the first word of free pages |
| `Sv39.dfy` | entries, addresses, and the walk of section 4.3.2 of the RISC-V Privileged Architecture (20211203) |
| `PageTree.dfy` | nodes in memory as a forest of trees of depth three |
| `PageTables.dfy`, `PageRuns.dfy` | the page table operations on memory shared by all tables, and runs of them |
| `Vm.dfy`, `VmState.dfy`, `TaskRuns.dfy`, `VmOps.dfy` | areas, tasks and who holds which page; what each step keeps; runs of steps; the operations that take them |
| `Addresses.dfy` | what all of that means for the bytes at the addresses of a task, without the functions the operations are made of |
| `Loader.dfy`, `StartImage.dfy`, `ProgramStart.dfy`, `UserArguments.dfy` | segments, arguments on the stack, both together, arguments copied from user memory |
| `List.dfy`, `NodePages.dfy` | the linked lists, node by node, and `vm_add_area` on them; `list_destroy` on the bytes of pages |
| `Uart.dfy`, `Scheduler.dfy`, `RunQueues.dfy`, `Console.dfy` | the rings; scheduler and UART as a step machine; the linked queues; the code that takes those steps |
| `Stdio.dfy` | printing and reading a number |

What the source changes in place is a class here, and each of its methods is proved against a
function on values; the laws are lemmas about those functions or about invariants all methods keep.
A panic is a result. The operations on tables and tasks panic for want of memory only when every page
of the region is taken.

The kernel is entered with interrupts off, and only `idle` turns them on. So the code between two
points where the current task changes is one step of the machine in `Scheduler.dfy`; a call that
waits gives up the processor, and the loop around the `wait` is entered again by the step Resume.

## Where the code differs from the obvious claim

- `page_allocator_init` links up all areas of the largest size and then makes the first one the only
  one, so 3 MiB are ever used (`BuddyAllocator.InitialFreePages`).
- `kmalloc` rounds the page count down to a power of two (`BuddyAllocator.KmallocFits`,
  `BuddyAllocator.KmallocTooSmall`). All requests in the repository need one page.
- `expand_superpage` repairs the fields it overwrites, so splitting some misaligned leaves changes
  what they translate (`Sv39.ExpandGiga`, `Sv39.ExpandMega`). Tables never hold such leaves.
- `unset_page_1g` uses the wrong index (`PageTables.Mmu.UnsetPage1g`); `PageTables.Unset1gMeant` says when that
  does no harm.
- `vm_add_area` goes on after inserting, and pushes in any case (`AreaLists.VmAddArea`).
- `vm_area_in` counts the end address in, so a fault right above an area below a stack does not grow
  the stack (`Vm.MayGrowTo`).
- `pte_flags_from_vm_flags` grants everything (`Vm.AllPermissions`), so permissions are not kept by
  a fork.
- A segment that is neither readable, writable nor executable would make its entries pointers, and
  one that is writable and not readable would not be mapped. Segments are required to be readable, or
  executable and not writable.
- `vm_clone` ignores the result of `copy_from_user`, and the kernel cannot read a page that may only be
  executed. So a fork copies exactly the pages that can be read; the child's frame for another one keeps
  what it held before (`VmState.ForkIsolated`, `VmOps.Kernel.CopyPage`).
- `load_elf` copies a byte for a segment that has none (`Loader.StrayByte`).
- The environment's table begins in the slot that should end the arguments'
  (`StartImage.ArgvTerminated`).
- `user_copy_args` panics, instead of failing with E2BIG, when a string would begin exactly at the end
  of its buffer, and keeps the buffer when there are too many strings
  (`UserArguments.UserCopyArgs`).
- `list_shift` leaves a stale `prev` (`Lists.List.Shift`), which makes `list_remove` and
  `list_insert_before` go wrong in the cases `Lists.List.RemoveFirst` and `Lists.List.InsertBefore`
  name. While the kernel runs only the current task is removed, which is in no list.
- A byte put while the device is ready overtakes those in the ring (`Scheduler.DirectOvertakes`,
  `Scheduler.OvertakingHappens`).
- The comparison of addresses in the allocator is of virtual ones; its base is a multiple of twice
  the largest block, so `^` and `&` work on them as on offsets (`BuddyAllocator.BuddyAddress`).

## Model

| member | source | states |
|---|---|---|
| `Buddy.InitialInv` | kernel/mm.c:62-85 | What page_allocator_init leaves satisfies the allocator invariant with nothing allocated: blocks aligned, apart, tiling the region, no two free halves of a block. |
| `Buddy.AllocInv` | kernel/mm.c:87-109 | Allocation keeps the invariant, and the block it hands out was not in use. |
| `Buddy.FreeInv` | kernel/mm.c:132-163 | Freeing a block in use, with all the merging it causes, keeps the invariant and gives back exactly that block. |
| `Buddy.MergeInv` | kernel/mm.c:144-159 | Merging a block with its free sibling keeps the tiling and leaves no new pair of free halves below the merged block. |
| `Buddy.FreeRunIsInBlock` | kernel/mm.c:132-163 | Because halves are merged, any aligned run of free pages lies inside a single free block. |
| `Buddy.AllocComplete` | kernel/mm.c:92-98 | Allocation is complete: it fails exactly when no aligned run of 2^k pages is free. |
| `Buddy.OutOfMemory` | kernel/mm.c:87-109 | After any run of calls from boot, alloc_pages(k) panics exactly when no aligned run of 2^k free pages exists. |
| `Buddy.Canonical` | kernel/mm.c:132-163 | Canonical form: block i is on list k exactly when its pages are all free and those of the block it is half of are not. |
| `Buddy.FreeIffNotLive` | kernel/mm.c:48-163 | A page is free exactly when it lies in the initial region and in no block in use: no page is lost and none handed out twice. |
| `Buddy.LiveDeterminesFree` | kernel/mm.c:87-163 | Two reachable states with the same blocks in use have the same free blocks on every list, however they came about. |
| `Buddy.FreeUndoesAlloc` | kernel/mm.c:92-108 | free_pages(alloc_pages(k)) gives back all ten lists as sequences, however many splits the allocation made. |
| `Buddy.RunInv` | kernel/mm.c:87-163 | Every state of every run satisfies the invariant. |
| `Buddy.BalancedRun` | kernel/mm.c:87-163 | A run that has returned what it took leaves each list with the blocks it had, whatever the order of the calls. |
| `Buddy.SplitThenAlloc` | kernel/mm.c:99-102 | One round of the split loop does not change what the allocation will hand out or leave. |
| `Buddy.AllocExactly` | kernel/mm.c:92-108 | The first block of the smallest order that has one is halved until it fits; the lower half is kept each time, each upper half is then the only block of its list, and no other list changes. |
| `Buddy.SplitTiling` | kernel/mm.c:50-60 | In the middle of the split loop, when free siblings exist, blocks still tile the region. |
| `Buddy.FreeGrows` | kernel/mm.c:132-163 | Freeing makes the pages of the block free and takes no page away from those that were. |
| `Buddy.FreeExactly` | kernel/mm.c:144-162 | A freed block takes its sibling off its list at every order as long as it is there; what has come of it is then first on its list, and no other list changes. |
| `Buddy.SamePageSameBlock` | kernel/mm.c:144-154 | No two blocks start on the same page, so comparing addresses finds the buddy and nothing else. |
| `BuddyAllocator.BuddyAddress` | kernel/mm.c:144-145 | `address ^ area_size`, bit by bit, is the address of the other half of the block. |
| `BuddyAllocator.ParentAddress` | kernel/mm.c:155-158 | `address & ~area_size`, bit by bit, is the address of the block both halves make up. |
| `BuddyAllocator.InitialFreePages` | kernel/mm.c:62-85 | At boot exactly the pages from 1 MiB to 4 MiB are free. |
| `BuddyAllocator.Allocator.constructor` | kernel/mm.c:62-85 | The two loops leave heads and links that spell out the initial lists. |
| `BuddyAllocator.Allocator.FirstAreas` | kernel/mm.c:78-84 | The second loop leaves one area each on the lists of order 9 and 8, whatever the first one linked up. |
| `BuddyAllocator.Allocator.SplitArea` | kernel/mm.c:50-60 | Four pointer writes halve the first free block; only words of free pages are written. |
| `BuddyAllocator.Allocator.AllocPages` | kernel/mm.c:87-109 | The loops over heads and links compute the allocation on lists, with the same panics, the one for an order of ten or more among them; no word of a page in use is written. |
| `BuddyAllocator.Allocator.Scan` | kernel/mm.c:146-152 | The scan finds the buddy exactly when it is free, with the place its link is kept in. |
| `BuddyAllocator.Allocator.Unlink` | kernel/mm.c:153-154 | Writing the link over the one that led to it takes the sibling off its list. |
| `BuddyAllocator.Allocator.Push` | kernel/mm.c:161-162 | Writing one link and one head puts a block at the front of its list. |
| `BuddyAllocator.Allocator.FreePages` | kernel/mm.c:132-163 | The recursion computes the freeing on lists; it writes only first words of pages free afterwards. |
| `BuddyAllocator.Allocator.Store` | kernel/mm.c:87-109 | Whoever holds a page may write its first word without touching the lists. |
| `BuddyAllocator.Allocator.Kmalloc` | kernel/mm.c:166-177 | Which order is asked for, when it panics, what is handed out, and the order kept in the four bytes before the buffer. |
| `BuddyAllocator.Allocator.Kfree` | kernel/mm.c:179-185 | Reads the order back and gives back exactly the block kmalloc took. |
| `BuddyAllocator.KmallocFits` | kernel/mm.c:168-173 | The block holds the request and its header exactly when the page count is a power of two. |
| `BuddyAllocator.KmallocTooSmall` | kernel/mm.c:168-173 | A request of 12000 bytes gets a block of 8192. |
| `BuddyAllocator.Allocator.AllocPage` | kernel/mm.c:87-109 | alloc_pages(0) hands out a page nobody holds, writes no word of a page in use, and panics only when every page of the region is taken. |
| `BuddyAllocator.Allocator.FreePage` | kernel/mm.c:132-163 | free_pages of a single page gives back that page alone, and writes no word of a page still in use. |
| `BuddyAllocator.Allocator.NothingFree` | kernel/mm.c:92-98 | What a panic of alloc_pages(0) means: each of the pages 256 to 1023 lies in a block in use. |
| `Sv39.DecodeEncode` | kernel/mmdefs.h:67-82 | An entry survives being packed into its 64-bit word and read back. |
| `Sv39.EncodeDecode` | kernel/mmdefs.h:67-82 | A word survives the other way exactly when its rsw and reserved bits are clear. |
| `Sv39.EntryLayout` | kernel/mmdefs.h:58-82 | Bits 0 to 7 of the word are valid, read, write, execute, user, global, accessed and dirty, in that order; bits 8 and 9 are clear; from bit 10 on stands the frame number. |
| `Sv39.LeafBits` | kernel/mmdefs.h:84-92 | On the word: a leaf has one of the bits 1 to 3, and an entry is invalid or a leaf exactly when bit 0 is clear or it is a leaf. |
| `Sv39.VaRoundTrip` | kernel/mmdefs.h:24-37 | The three indexes and the offset survive being packed into an address. |
| `Sv39.VaFields` | kernel/mmdefs.h:24-37 | An address is put together again from its fields, up to 2^39. |
| `Sv39.IndexFields` | kernel/mmdefs.h:24-37 | The indexes are the bits of the address from 30, 21 and 12 on, nine each. |
| `Sv39.SamePage` | kernel/mmdefs.h:24-37 | Two addresses have the same indexes exactly when they lie on the same page. |
| `Sv39.ExpandGiga` | kernel/mm.c:229-243 | Replacing a 1G entry by the table of expand_superpage changes no translation exactly when the entry is no leaf misaligned in the middle field alone; aligned leaves expand to aligned leaves. |
| `Sv39.ExpandMega` | kernel/mm.c:229-243 | Likewise for a 2M entry: exactly when it is no misaligned leaf. |
| `PageTree.ChildNode` | kernel/mmdefs.h:84-92 | In well-formed tables a pointer leads to a node of the next level of the same table, and the lowest level has no pointers. |
| `PageTree.WalkFrame` | kernel/mm.c:282-307 | The walk from a root depends on the nodes of that table only. |
| `PageTree.SplitGiga` | kernel/mm.c:249-254 | Splitting a 1G entry into a fresh page keeps all tables trees of distinct nodes. |
| `PageTree.SplitGigaWalk` | kernel/mm.c:249-254 | And every table translates every page as before. |
| `PageTree.SplitMega` | kernel/mm.c:294-297 | The same for a 2M entry. |
| `PageTree.SplitMegaWalk` | kernel/mm.c:294-297 | And every table translates every page as before. |
| `PageTree.SetLowWalk` | kernel/mm.c:302-304 | A new lowest entry changes the translation of its page in its table and nothing else. |
| `PageTree.SetMidWalk` | kernel/mm.c:271-274 | A new middle entry changes the translation of its 2 MiB and nothing else. |
| `PageTree.SetRootWalk` | kernel/mm.c:222-224 | A new root entry changes the translation of its 1 GiB and nothing else. |
| `PageTree.SetMid` | kernel/mm.c:271-274 | Overwriting a middle entry, even one that pointed to a node, leaves a forest of trees without that node. |
| `PageTree.SetRoot` | kernel/mm.c:222-224 | Overwriting a root entry leaves a forest without the nodes that hung below it. |
| `PageTree.NextBranch` | kernel/mm.c:361-370 | The nodes below the first n+1 entries are those below the first n and the subtree entry n points to, and the two are apart: nothing is visited twice. |
| `PageTree.WholeTable` | kernel/mm.c:390-392 | The subtree of a root is exactly the nodes of that table. |
| `PageTables.MappedAddresses` | kernel/mm.c:282-307 | In addresses: after set_page, va to va+4095 lead to pa plus the offset, with the flags given, if these allow reading, or executing alone, and nowhere otherwise; every other address below 2^39 leads where it led. |
| `PageTables.MappedAddresses2m` | kernel/mm.c:265-277 | The same for the 2 MiB of set_page_2m. |
| `PageTables.UnmappedAddresses` | kernel/mm.c:309-324 | After unset_page, va to va+4095 lead nowhere; every other address leads where it led. |
| `PageTables.Unset1gMeant` | kernel/mm.c:340-348 | Unmapping the first GiB is what a caller meant exactly when va lies there, or nothing was mapped in either GiB. |
| `PageTables.KernelAddresses` | kernel/mm.h:66-73 | PA agrees with every table for the gigabyte from KERNBASE. |
| `PageTables.KernelWalkOnly` | kernel/mm.c:28-34 | The two entries of map_kernel_pages, in addresses: 0x3f00000000 to 0x3f3fffffff lead to 0x80000000 on, to be read, written and executed; the gigabyte above leads to 0 on, to be read and written, not executed; neither in user mode; all else leads nowhere. |
| `PageTables.NewTableMapped` | kernel/mm.c:28-34 | That is what a table translates that has just been made, and below 0x3f00000000 it leads nowhere. |
| `PageTables.Mmu.SetPage1g` | kernel/mm.c:215-227 | Panics exactly on misalignment; otherwise writes the one entry and keeps the trees. |
| `PageTables.Mmu.ExpandSuperpage` | kernel/mm.c:229-243 | Fills a page nobody held with the 512 entries that stand for the old one. |
| `PageTables.Mmu.EnsurePage2m` | kernel/mm.c:245-260 | The node for the 2M entries of va exists afterwards, and no table translates any page differently. |
| `PageTables.Mmu.SetPage2m` | kernel/mm.c:265-277 | The 2 MiB around va translate by the new entry and every other page of every table as before; panics exactly on misalignment or with no page left; an entry that is a pointer is written to the same place, after no more than nodes have been added. |
| `PageTables.Mmu.SetPage` | kernel/mm.c:282-307 | The page at va translates by the new entry and every other page of every table as before, whether the path was missing, a superpage or already split; a pointer entry translates nothing there. The nodes that have come belong to this table, and no word of a page held is written by the allocator. |
| `PageTables.Mmu.EnsurePage` | kernel/mm.c:294-300 | The node of lowest entries for va exists afterwards, and no table translates any page differently. |
| `PageTables.Mmu.UnsetPage` | kernel/mm.c:309-324 | The page at va no longer translates, all else does as before; -ENOENT, changing nothing, exactly when va has no node of single pages. |
| `PageTables.Mmu.UnsetPage2m` | kernel/mm.c:326-338 | The 2 MiB no longer translate; exactly when there is no middle node -ENOENT, exactly when they are split -EINVAL. |
| `PageTables.Mmu.UnsetPage1g` | kernel/mm.c:340-348 | It is the first GiB that no longer translates, whatever va was given. |
| `PageTables.Mmu.DoDestroyPageTable` | kernel/mm.c:361-375 | Frees every node of the subtree once and nothing else; "too deep" does not happen. |
| `PageTables.Mmu.DestroyPageTable` | kernel/mm.c:390-392 | Frees exactly the nodes of the table, and leaves all other tables well-formed. |
| `PageTables.Mmu.UnsetUserPages` | kernel/mm.c:377-388 | Frees exactly the nodes below SPLIT; afterwards no address below SPLIT translates, and the rest does as before. |
| `PageTables.Mmu.MapKernelPages` | kernel/mm.c:28-34 | The gigabyte of devices translates linearly with VALID, READ, WRITE and GLOBAL set, that of memory with EXEC too, neither with USER; everything else as before. |
| `PageRuns.LastCallDecides` | kernel/mm.c:265-338 | After any run of successful calls of set_page, set_page_2m, unset_page and unset_page_2m a page translates by the last call that covers it, and as at first if none does, whatever was split, shadowed or cut off on the way. |
| `PageRuns.SwapCalls` | kernel/mm.c:265-338 | Two neighbouring calls of a run that do not both cover a page may change places without changing what the page translates to in the end. |
| `PageTables.Mmu.CreatePageTable` | kernel/mm.c:351-359 | A table on a page nobody held that translates the kernel and no other address; other tables are not affected; the kernel's pages, in addresses and permissions, are out of reach of user mode, and below 0x3f00000000 nothing is mapped. |
| `Vm.AllPermissions` | kernel/vm.c:163-169 | The flags computed from any area flags allow reading, writing and executing. |
| `Vm.WalkInArea` | kernel/vm.c:28-35 | A user page of a task at rest is mapped exactly when it lies in an area, and then to a frame of that area. |
| `Vm.OneMapping` | kernel/vm.c:117-161 | No frame is mapped twice, neither at two addresses nor for two tasks. |
| `Vm.PushMaps` | kernel/vm.c:137-152 | Mapping a new frame at an unmapped page keeps every table one-to-one onto the frames of its task. |
| `Vm.PushAgrees` | kernel/vm.c:28-35 | The area that got the frame is filled one page further, and other tasks go on agreeing with their tables. |
| `Vm.VmFindStack` | kernel/vm.c:93-107 | Finds the stack that may grow down to va exactly when there is one. |
| `Vm.MayGrowTo` | kernel/vm.c:78-107 | In a sorted list the stack that may grow to an address is the area beyond it with bit 10 set, and every area before that one ends strictly below the address: one that ends right at it prevents the growth. |
| `Vm.RoomBelow` | kernel/vm.c:93-107 | In a sorted list that stack can grow to va without touching any other area. |
| `Vm.GrowAgrees` | kernel/sched.c:71-80 | A stack one page larger agrees with its table again. |
| `VmState.AddSane` | kernel/vm.c:28-35 | Taking a frame and a list node, and mapping the frame, keeps the whole state in order: each page taken has one holder, tables are one-to-one. |
| `VmState.AddFilling` | kernel/vm.c:137-155 | Only the area that got the page changes, and nothing held is moved or overwritten. |
| `VmState.SeenKept` | kernel/vm.c:117-161 | What a task sees of a mapped page stays the same while only more pages are taken and mapped. |
| `VmState.WriteIsolated` | kernel/vm.c:117-161 | A write to a page of one task changes nothing another task sees, nor any other page of its own. |
| `VmState.ForkIsolated` | kernel/vm.c:117-161 | After vm_clone the child sees in every page of every area what the parent saw, if the kernel could read it there; the parent still sees it; and no frame is seen by both. |
| `VmState.CreatedAndCloned` | kernel/sched.c:142-154 | task_create followed by vm_clone is a fork: same areas, same bytes wherever they could be read, no shared frame, other tasks undisturbed. |
| `VmState.AllItemsAre` | kernel/sched.c:156-175 | The pages given back by task_destroy are all those that hold a part of the task. |
| `VmState.OneGone` | kernel/sched.c:168-175 | Each page given back was in use, is no table node, and is given back once. |
| `VmState.GrownTwice` | kernel/sched.c:65-80 | Stack growth composes: the end stays, pages are only added, all of them zero. |
| `VmState.GoneSane` | kernel/sched.c:168-175 | When all parts and the table of a task are given back, the rest of the state is in order. |
| `Addresses.ForkMaps` | kernel/vm.c:117-161 | After a fork exactly the addresses that were mapped for the parent are mapped for the child, and for the parent. |
| `Addresses.ForkBytes` | kernel/vm.c:117-161 | Each byte that the parent could read is at the same address of the child, to be read, written and executed, and still at that of the parent with the permissions it had. |
| `Addresses.GrownBytes` | kernel/sched.c:57-83 | When a fault has made a stack grow, its address is between 0x3ee0000000 and 0x3ef0000000; from its page up to the stack nothing was mapped, and zeros are now, to be read, written and executed; every byte mapped before is where it was. |
| `Addresses.NewPageZero` | kernel/sched.c:65-80 | A page that was not mapped before a stack grew is full of zeros. |
| `Addresses.GoneBytes` | kernel/sched.c:156-183 | When a task has ended, every other task has the bytes it had, with the permissions it had. |
| `Addresses.KernelPages` | kernel/mm.c:28-34 | By the table of any task, 0x3f00000000 to 0x3f7fffffff lead to the kernel's memory and to the devices as map_kernel_pages says, never in user mode, and nothing above is mapped. |
| `Addresses.UserReach` | kernel/mm.c:28-34 | In user mode a task reaches frames of its own only, and what one task reaches no other does. |
| `TaskRuns.HeldDetermined` | kernel/sched.c:108-183 | In any two states in order with the same tasks and table nodes the same pages are in use for the same parts. |
| `TaskRuns.Conserved` | kernel/sched.c:108-183 | After any run at whose end the same tasks exist as at its beginning, and which loads, grows and ends none of these, the same pages are in use for the same parts of the same tasks and for the same table nodes, and each of the ten free lists has the blocks it had. |
| `TaskRuns.RunOlder` | kernel/sched.c:108-183 | Along such a run the older tasks keep their areas and table nodes, no new node is theirs, and the tasks there are at the end follow from the operations alone. |
| `TaskRuns.StepOlder` | kernel/sched.c:108-183 | One step of that. |
| `TaskRuns.RunRests` | kernel/sched.c:57-183 | In every state of every run that starts so, every task is at rest: its areas are sorted and apart and its table maps them one to one onto exactly the frames they own; and the free lists are in order. |
| `TaskRuns.StepRests` | kernel/sched.c:57-183 | Every single operation leaves every task at rest. |
| `TaskRuns.RunStacks` | kernel/sched.c:57-83 | In every state of every run, stacks lie between USERSTACKMIN and USERSTACK if they did at first. |
| `TaskRuns.StepStacks` | kernel/sched.c:57-83 | One operation of that. |
| `Addresses.RunClosed` | kernel/mm.c:28-34 | In every state of every run, user mode reaches no address from 0x3f00000000 on, and of memory only frames of the task itself. |
| `TaskRuns.Undisturbed` | kernel/vm.c:117-161 | Whatever else goes on, a page that a task has mapped stays mapped with the bytes it had until the task itself writes or ends. |
| `TaskRuns.ApartForGood` | kernel/vm.c:117-161 | A child goes on seeing every byte its parent could read at the fork, whatever the parent and all others do since; only its own writes and its end change that. |
| `VmOps.Kernel.AddPage` | kernel/vm.c:137-152 | Takes two pages nobody held, for a frame and its list node, and maps the frame; new table nodes belong to the table of this task, those of other tasks are as they were, and the allocator writes into no page held; panics only when memory is exhausted. |
| `VmOps.Kernel.PushArea` | kernel/vm.c:117-135 | Takes two pages nobody held, for an area and its list node, and puts the area at the end of the list. |
| `VmOps.Kernel.AddArea` | kernel/vm.c:17-76 | The same through vm_area_create and vm_add_area, for areas added in ascending order; panics exactly when misaligned or with memory exhausted. |
| `VmOps.Kernel.CopyPage` | kernel/mm.c:403-423 | Copies the page byte by byte as the source task sees it, and no other byte, exactly when it is mapped and may be read; else returns -EFAULT and copies nothing. |
| `VmOps.Kernel.ClearPage` | kernel/mm.h:55-60 | Zeroes the page and no other. |
| `VmOps.Kernel.GrowStack` | kernel/sched.c:66-80 | One round of stack growth: one zeroed page more, mapped below with all permissions, the end kept; no translation any table had is changed, no node of another table is touched, and no link is written into a page held. |
| `VmOps.Kernel.ExpandStack` | kernel/sched.c:57-83 | Ends with the page of the fault covered, by zeroed mapped pages, exactly when the address is from 0x3ee0000000 up to 0x3ef0000000 and below a stack that may grow there; otherwise nothing changes. It is the step Grow of the runs. |
| `VmOps.Kernel.TaskCreate` | kernel/sched.c:93-140 | Takes four pages nobody held; the new table maps the kernel only; other tasks are not affected. It is the step Create of the runs. |
| `VmOps.Kernel.TakeTask` | kernel/sched.c:108-133 | The four pages of a new task are distinct and held by nobody, and no link is written into a page held. |
| `VmOps.Kernel.VmAreaDestroy` | kernel/vm.c:37-44 | Gives back the frames, list nodes and record of one area, each once. |
| `VmOps.Kernel.VmDecrefAll` | kernel/vm.c:109-115 | Gives back every area and every list node of the task, each once. |
| `VmOps.Kernel.TaskDestroySched` | kernel/sched.c:156-160 | Gives back the areas and the queue node, each page once. |
| `VmOps.Kernel.ListDestroy` | kernel/list.h:77-84 | Gives back every node of the list of areas once. |
| `NodePages.LinkSparesNext` | kernel/list.h:7-12 | On the bytes of a page: the link that kfree writes at the start leaves next, at byte 28, as it is. |
| `NodePages.PageMemory.Free` | kernel/mm.c:179-185 | kfree of a node, on bytes: no page still held is written to, and of no page more than the first eight bytes. |
| `NodePages.PageMemory.ListDestroy` | kernel/list.h:77-84 | On bytes, with the allocator writing its links among them: reading next from a node just freed visits and frees every node once, and no other held page changes. |
| `VmOps.Kernel.TaskDestroy` | kernel/sched.c:156-183 | Gives back exactly the pages of the task, leaves other tasks and their tables and bytes as they were, and writes links only into pages not held. It is the step Destroy of the runs. |
| `VmOps.Kernel.VmClone` | kernel/vm.c:117-161 | Copies every area page for page into fresh frames, mapped with all permissions; the parent and all others are as they were, with their translations and nodes, and no link is written into a page held. |
| `VmOps.Kernel.ClonePage` | kernel/vm.c:137-156 | One page of it, left as it came from the allocator if the kernel cannot read the source. |
| `VmOps.Kernel.TaskClone` | kernel/sched.c:142-154 | Yields a fork, or panics with memory exhausted. It is the step Fork of the runs. |
| `Lists.List.Push` | kernel/list.h:35-41 | Four pointer writes append a node that is in no list and whose next is NULL. |
| `Lists.List.Shift` | kernel/list.h:56-65 | Takes off the first node and leaves it ready to be pushed; the new first node keeps it as its prev. |
| `Lists.List.Remove` | kernel/list.h:67-75 | Takes out a node wherever it is, if its prev is up to date; does nothing to a node in no list. |
| `Lists.List.RemoveFirst` | kernel/list.h:67-75 | With a stale prev the rest is a list exactly when it is not empty and the stale node is not back in it, and the stale node is written to. |
| `Lists.List.InsertBefore` | kernel/list.h:43-54 | Inserts, and keeps a list exactly when the prev of pos is up to date or no longer in the list. |
| `Lists.List.Destroy` | kernel/list.h:77-84 | Frees each node once, in order, although next is read after the free has overwritten value. |
| `Lists.List.NoWayBack` | kernel/list.h:7-17 | In a well-formed list no node leads back to the first one: there is no cycle. |
| `Lists.Wakeup` | kernel/sched.c:243-248 | On the linked nodes themselves: all waiters, oldest first, end up behind those already queued, and both lists are well-formed. |
| `AreaLists.VmAddArea` | kernel/vm.c:61-76 | Leaves a list exactly when no area in it starts above the new one, and then the new one is last; if the last area is above, the two lead to each other for ever. |
| `AreaLists.PutBefore` | kernel/vm.c:68-73 | The loop leaves the new node before the last area above it, or the list alone if there is none. |
| `Loader.StrayByte` | kernel/elf.c:83-91 | Segment pages hold the file bytes and zeros elsewhere exactly when the file has bytes for the segment, or the byte copied by mistake is zero, or there is no page. |
| `Addresses.SegmentBytes` | kernel/elf.c:42-94 | After load_elf every address of every page that a loadable segment meets is mapped for user mode with exactly the segment's permissions; at the addresses of the segment stand the bytes of the file, and zeros before and behind them, but for the one byte copied for a segment that has none. |
| `Addresses.MappedExactly` | kernel/elf.c:51-94 | And nothing else is mapped below 0x3f00000000 but the page of stack. |
| `Addresses.SegmentArea` | kernel/elf.c:42-65 | The area of a segment begins on the page where the segment begins, ends on the page where it ends, and is marked with its permissions. |
| `Addresses.StackPage` | kernel/elf.c:97-117 | The page below USERSTACK can be read and written in user mode, and executed exactly when the last PT_GNU_STACK header says so. |
| `Addresses.StackZero` | kernel/elf.c:103-107 | Before the arguments are written it is full of zeros. |
| `Addresses.AcceptableIs` | kernel/elf.c:14-41 | Accepted are programs for machine 0xf3 that have no header of type 2 or 3. |
| `Loader.FillPage` | kernel/elf.c:83-91 | The loop with its running offset and pointer fills the page with the bytes that belong at its addresses. |
| `Loader.LoadPage` | kernel/elf.c:67-94 | One page of a segment is taken, mapped and filled. |
| `Loader.LoadSegment` | kernel/elf.c:42-94 | One more area, of the size of the segment, every page mapped to its own frame with the segment bytes and with the permissions of the segment; all else as it was. |
| `Loader.LoadSegments` | kernel/elf.c:13-95 | Every loadable segment, in order, has its area and its bytes; -EINVAL exactly for the wrong machine or a dynamic program. |
| `Loader.LoadElf` | kernel/elf.c:13-125 | The task has the areas of the segments with their contents and one zeroed page of stack, executable exactly when the last stack header says so; areas are sorted and apart, and agree with the table. It is the step Load of the runs, whether it succeeds or not. |
| `Loader.LoadStack` | kernel/elf.c:97-117 | The stack part of it. |
| `Loader.SegmentsBefore` | kernel/elf.c:22-62 | With ascending segments every area already there ends at or below the next one, so vm_add_area is within what it does right. |
| `StartImage.WordRoundTrip` | kernel/elf.c:162-170 | A pointer stored byte by byte is read back whole. |
| `StartImage.Strlcpy` | kernel/string.c:10-20 | Copies the string and its NUL when they fit, else the first n-1 bytes and a NUL. |
| `StartImage.InitArguments` | kernel/elf.c:138-178 | On the bytes of the stack page: every string is whole where its pointer says, tables and strings are apart, the stack pointer is the highest multiple of 16 with all of it above, and the assertion on the size holds; too big exactly when eight bytes for each slot and all strings with their NULs exceed 4096. |
| `StartImage.StackPointer` | kernel/elf.c:138-178 | The stack pointer is USERSTACK less the size of strings and tables, rounded up to a multiple of 16. |
| `StartImage.StartAddresses` | kernel/elf.c:159-176 | In addresses: which word leads to which string, whole and ended by a NUL, between the stack pointer and the tables; the last two words are NULL; what is in a0, a1 and a2. |
| `StartImage.WordJoin` | kernel/elf.c:163-169 | Further up in a word, bytes weigh more. |
| `StartImage.ArgvTerminated` | kernel/elf.c:159-170 | The slot behind the last argument is NULL exactly when there is no environment. |
| `StartImage.StringsApart` | kernel/elf.c:162-173 | Strings do not overlap, terminating NUL included. |
| `ProgramStart.TaskInitElf` | kernel/elf.c:131-181 | Through the table of the task: the segments are loaded, and on the page mapped below USERSTACK every pointer leads to its whole string; the arguments are too big exactly when table and strings exceed a page. |
| `ProgramStart.PutArguments` | kernel/elf.c:151-178 | Finds the frame of the stack and writes the arguments there, and to no other page. |
| `Addresses.ArgumentBytes` | kernel/elf.c:159-176 | Through the table of the task: each byte of each string stands where the word in its slot says, and the bytes of that word where the register says. |
| `ProgramStart.ArgumentsKeep` | kernel/elf.c:151-178 | Writing to the stack leaves the loaded segments, the areas and the table as they are. |
| `UserArguments.UserCopyArgs` | kernel/mm.c:446-488 | Copies exactly when table and strings fit; too many exactly when the table alone does not; panics exactly when a string would begin at the very end; then every pointer leads to its whole string and the table ends in NULL. |
| `UserArguments.WithArgumentHolds` | kernel/mm.c:471-480 | A string and its pointer written in one round are found there. |
| `UserArguments.WithArgumentKeeps` | kernel/mm.c:471-480 | And the strings and pointers of earlier rounds are still there. |
| `Uart.WrapKeepsPlace` | kernel/uart.c:50-56 | Adding to a 64-bit counter moves its place in the buffer by as much, across the wrap-around too. |
| `Uart.Counters` | kernel/uart.c:87-92 | With counters at most 32 apart, comparing them tells full and empty correctly, across the wrap-around too. |
| `Uart.WindowWrite` | kernel/uart.c:103-104 | Writing behind the newest byte changes no byte that is waiting. |
| `Uart.WindowGrow` | kernel/uart.c:103-104 | And makes that byte the newest. |
| `Uart.Ring.Put` | kernel/uart.c:103-104 | The ring holds one byte more, at the end. |
| `Uart.Ring.Get` | kernel/uart.c:149-151 | The oldest byte is taken. |
| `Uart.Ring.Full` | kernel/uart.c:87-92 | True exactly when 32 bytes are waiting. |
| `Uart.Ring.Empty` | kernel/uart.c:117-120 | True exactly when none is. |
| `Scheduler.StepPartition` | kernel/sched.c:185-248 | Every step of the machine leaves every live task in exactly one of current, tasks, wait_in and wait_out, and no dead one in any. |
| `Scheduler.StepWaiters` | kernel/uart.c:94-180 | Every step leaves wait_in empty unless the input ring is empty, and wait_out empty unless the output ring is full. |
| `Scheduler.StepQueues` | kernel/uart.c:94-180 | Every step leaves the rings within 32 bytes, what has left them what entered them in order, and the device output an interleaving of the two paths. |
| `Scheduler.StepAccounted` | kernel/uart.c:94-113 | Every byte given to uartputc is sent directly, or buffered, or waited with, and only once. |
| `Scheduler.StepInv` | kernel/sched.c:185-248 | Every step keeps all of it. |
| `Scheduler.RunInv` | kernel/sched.c:185-248 | Every run keeps all of it. |
| `Scheduler.Reachable` | kernel/uart.c:94-180 | In every state reachable from boot each task is in one place, nobody waits for what is there, and the rings are bounded queues. |
| `Scheduler.BoundedWaiting` | kernel/sched.c:185-248 | A task with k others before it is dispatched by exactly the (k+1)-th dispatch from then on, whatever forks, yields, waits, wakeups and exits intervene. |
| `Scheduler.StepQueue` | kernel/sched.c:185-221 | Only do_schedule takes tasks off the queue; all else at most adds at its end. |
| `Scheduler.ReceiveExactly` | kernel/uart.c:159-169 | Of the bytes that arrive as many as fit are kept, in order, and only the rest is dropped. |
| `Scheduler.InterruptDoes` | kernel/uart.c:157-180 | An interrupt puts the oldest bytes of the output ring on the wire, as many as the device takes, and keeps the rest; writers are woken exactly when that leaves room, readers exactly when a byte has come; those woken queue up, readers first. |
| `Scheduler.BufferedDoes` | kernel/uart.c:99-106 | A byte put while the device is busy, at first or after a wait, goes to the end of the ring, and as many of the ring as the device takes by then are sent, oldest first; with a full ring the task waits behind the other writers. |
| `Scheduler.DirectDoes` | kernel/uart.c:107-112 | A byte put while the device is ready is sent at once and nothing else changes. |
| `Scheduler.ReadDoes` | kernel/uart.c:145-152 | A byte read, at first or after a wait, is the oldest of the ring, or the task waits behind the other readers. |
| `Scheduler.QueueDoes` | kernel/sched.c:185-221 | Who yields or is interrupted goes to the end of the queue, as a new task does; who ends is nowhere; the first of the queue is dispatched. |
| `Scheduler.WhatMayHappen` | kernel/sched.c:185-221 | Which steps there are in user mode, in a call that waits, with a task to dispatch, and when idle. |
| `Scheduler.NeverStuck` | kernel/sched.c:185-213 | In every reachable state there is a task to dispatch, or the current one goes on, or an interrupt may come. |
| `Scheduler.DirectOvertakes` | kernel/uart.c:97-111 | A byte sent directly keeps its place behind the buffered ones exactly when they are all equal to it. |
| `Scheduler.OvertakingHappens` | kernel/uart.c:97-111 | From boot a state is reached with a byte in the ring and the device ready, where the next byte overtakes it. |
| `Console.Processor.DoSchedule` | kernel/sched.c:185-213 | On the linked lists: dispatches the first task of the queue, or goes idle exactly when there is none. |
| `Console.Processor.ScheduleNext` | kernel/sched.c:216-221 | On the linked lists: the current task goes to the end of the queue. |
| `Console.Processor.TimerTick` | kernel/irq.c:33-51 | What a timer interrupt does is the Tick of the machine. |
| `Console.Processor.Start` | kernel/sched.c:93-106 | What task_init_sched does to the queue is the Fork of the machine. |
| `Console.Processor.Quit` | kernel/sched.c:168-183 | What task_destroy of the current task does to the linked lists is the Exit of the machine. |
| `RunQueues.Queues.DoSchedule` | kernel/sched.c:185-199 | list_shift hands the node over: it is then in no list, with a NULL next, and the queue is a list again. |
| `RunQueues.Queues.ScheduleNext` | kernel/sched.c:216-221 | The node of the current task may be pushed, and is the last of the queue afterwards. |
| `RunQueues.Queues.WaitIn` | kernel/sched.c:230-234 | The node of the current task is the last of wait_in afterwards. |
| `RunQueues.Queues.WaitOut` | kernel/sched.c:230-234 | And of wait_out. |
| `RunQueues.Queues.WakeupIn` | kernel/sched.c:243-248 | Node by node all readers move behind the tasks already queued, in order, and the three lists stay lists. |
| `RunQueues.Queues.WakeupOut` | kernel/sched.c:243-248 | And all writers. |
| `RunQueues.Queues.Start` | kernel/sched.c:97-103 | A new node is the last of the queue afterwards. |
| `RunQueues.Queues.Quit` | kernel/sched.c:156-160 | list_remove of the current node changes nothing, as it is in no list. |
| `RunQueues.Queues.Separate` | kernel/list.h:35-65 | No node is in two lists, nor the node of the current task in any. |
| `Console.StartOne` | kernel/uart.c:115-134 | Sending one byte and then up to n more is sending up to n+1. |
| `Console.Processor.SendBuffered` | kernel/uart.c:115-134 | The loop sends as many buffered bytes as the device takes, in order, each once. |
| `Console.Processor.Getchar` | kernel/uart.c:145-152 | Takes the oldest byte, or waits exactly when there is none. |
| `Console.Processor.Buffer` | kernel/uart.c:99-105 | Buffers the byte and sends what the device takes, or waits exactly when the ring is full. |
| `Console.Processor.Uartputc` | kernel/uart.c:94-113 | What uartputc does is the Putchar of the machine. |
| `Console.Processor.ReceiveAll` | kernel/uart.c:159-169 | The loop keeps what fits and drops the rest, as the machine does. |
| `Console.Processor.Uartintr` | kernel/uart.c:157-180 | What uartintr does is the interrupt of the machine, with all it sends and wakes. |
| `Stdio.PrintUint` | user/stdio.h:21-30 | The two loops print the sign, a NUL and the decimal digits. |
| `Stdio.FillDigits` | user/stdio.h:21-27 | The buffer holds the digits backwards, at most 20 of them, with a NUL above. |
| `Stdio.NoLeadingZero` | user/stdio.h:21-27 | No number but zero is printed with a zero in front. |
| `Stdio.ValueOfDigits` | user/stdio.h:24-27 | The digits printed make up the number. |
| `Stdio.ValueInFront` | user/stdio.h:46-48 | Digits count by their place: one put in front counts as a power of ten for each digit behind it. |
| `Stdio.Putint` | user/stdio.h:32-38 | Every 32-bit int is printed, the least one too. |
| `Stdio.GetDigits` | user/stdio.h:46-48 | With every operation wrapping at 32 bits the loop computes the wrapped value of the digits, and no operation left the range exactly when none had to. |
| `Stdio.Getint` | user/stdio.h:40-50 | Skips to the first digit, takes the sign from the bytes skipped, reads one byte beyond the digits. |
| `Stdio.SkippedSign` | user/stdio.h:41-49 | For any bytes skipped and any digits: the value is negated exactly when some skipped byte is a minus sign, wherever it stands. |
| `Stdio.WrapDigit` | user/stdio.h:47 | Wrapping after each of the three operations is wrapping once. |
| `Stdio.WrapIs` | user/stdio.h:47-49 | Wrapping leaves the number of the range of int that is equal modulo 2^32. |
| `Stdio.PutThenGet` | user/stdio.h:21-50 | getint of what putint printed, followed by a byte that is no digit, is the number, for every 32-bit int and anywhere in the input; nothing overflows on the way exactly up to 2147483599 in magnitude. |
| `Stdio.ExactDigits` | user/stdio.h:46-48 | Reading the digits of x overflows nowhere exactly when x is at most 2147483599. |

## Left out

- Boot, trap entry, `ksetjmp` and `klongjmp`, control registers and the timer: assembly and hardware. They appear as steps of the scheduler machine.
- TLB flushes, and the registers of PLIC and UART: how many bytes the device takes, and which bytes arrive, are parameters.
- The time before `early` becomes false, when `PA` and `VA` are not inverse to each other.
- execve: `task_reinit` frees the node that is still named as the current one and queues a new one, so the scheduler machine has no such step; `user_copy_args` and the loading it does are modelled on their own.
- `printk`, dumping functions, system call numbers, the user programs and the build: they would add easy members only.
- Branches for a NULL from `alloc_pages` or `kmalloc`, which panic instead of returning it.
- PageTables.Mmu.SetPage1g: it may overwrite an entry that pointed to a node, which is then lost, as in the source; the trees are kept and the node's page stays in use.
- PageTables.Mmu.SetPage2m: overwriting an entry that pointed to a node loses that node likewise, as in the source.
- PageTables.Mmu.SetPage: after a pointer entry, which no caller asks for, the table is no tree of depth three any more, and the operations that need one are not modelled on it.
- PageTables.Mmu.DestroyPageTable: a table from which a node was lost is destroyed without that node.
- Sv39.DecodeEncode: the rsw and reserved bits of an entry are always clear, as no code sets them.
- BuddyAllocator.Allocator.FreePages: callers return blocks in use with their own order; a block returned twice is not modelled.
- BuddyAllocator.Allocator.Kfree: the four bytes before the buffer are intact, which any caller that stays in its buffer ensures.
- VmOps.Kernel.PushArea: `kmalloc` of a record or a list node is modelled as the single page it takes; the order word in front of the record is covered by the allocator alone.
- VmOps.Kernel.ListDestroy: runs over the list of areas as a sequence; that next can be read from a node just freed is proved in `NodePages.dfy`.
- VmOps.Kernel.AddPage: task records, area records and list nodes are values beside memory, each with the page that holds it. The bytes of frames, the entries of table nodes and the first words of pages are three arrays; no page is used through two of them at a time, as each has one holder, and every operation on tasks and tables promises that the allocator has written its links into no page held before and after. Lists of areas and pages are sequences here, and linked nodes in `List.dfy` and `NodePages.dfy`.
- VmOps.Kernel.TaskCreate: pid, parent, mode and saved registers are not modelled, nor is their initialisation in `load_elf`.
- VmOps.Kernel.AddArea: areas are added in ascending order, which is all that `vm_add_area` does right.
- VmOps.Kernel.CopyPage: the recovery from a page fault in `user_memcpy` is its outcome, a return of -EFAULT; the jump out of the copy is not modelled.
- VmOps.Kernel.TaskDestroy: the panic for init is the condition of Exit in the scheduler machine. What links are written into pages given back is left open, except in `NodePages.dfy`.
- VmOps.Kernel.VmDecrefAll: every area has one reference, as areas are never shared.
- VmOps.Kernel.ExpandStack: what a fault that ends the task leads to is `task_destroy`, modelled on its own.
- Loader.LoadElf: segments are readable, or executable and not writable, ascending with no page in common, below the page of stack, and their bytes lie in the file, as the System V ABI asks of loadable segments; program headers are values, not bytes of the file.
- StartImage.InitArguments: strings are sequences without NUL, and the tables of pointers to them in kernel memory are not modelled.
- UserArguments.UserCopyArgs: that the buffer is freed or kept is told by the outcome alone; the user strings can be read; the recovery from page faults is not modelled, and copied strings do not change meanwhile.
- Lists.List.RemoveFirst: the case that a node is its own stale `prev` is left out, as pushing a node onto an empty list clears its `prev`.
- Console.Processor.Uartputc: polling until the device is ready, and the loop entered after a panic, are left out.
- Stdio.Getint: characters come from a sequence, and a read that would block for ever is None.
