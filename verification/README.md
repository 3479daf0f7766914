# Verification model of the MOS kernel and its file servers

MOS is a small MIPS kernel with two user-level file servers. This project models the parts of it whose correctness
depends on more than one function at a time, and proves what those parts are for:

* **Memory** (`Mmu`, `PageTables`, `AddressSpaces`, `KernelMemory`). Page tables are words inside the physical pages
  that the allocator hands out. A ghost role per page (free, held, reserved, directory, table of a given directory
  slot, user page) is the anti-aliasing invariant: with it, the two-level tables stand for one flat map from
  (directory, virtual page) to a page-table word, each `pp_ref` is the number of slots that name the page, the free
  list is exact, and every TLB entry is the current entry of the one address space that owns its ASID. The class
  `KernelMemory.Kernel` holds the fields the kernel updates in place; each method keeps all of this and says what it
  does to the flat map.
* **Copy-on-write** (`CowPerms`, `CowMachine`, `CowInvariant`, `CowRefinement`, `CowFork`, `CowLimits`, `ForkCalls`). Fork and the fault handler
  run in user mode, so every system call, store and copied word is one step and any two environments interleave. The
  eager machine, which copies each private page when `duppage` visits it, is the reference; `CowFork` proves that it is a
  fork, `CowLimits` shows where the code leaves it, and `ForkCalls` that its steps are the kernel's calls on the page tables.
* **Environments** (`EnvMachine`, `EnvInvariant`, `EnvRuns`, `EnvLaws`, `EnvKernel`, `Links`, `Queues`). Ids, the free list, the
  runnable queue, the scheduler with priorities, and blocking receive with try-send. Kernel entries are atomic steps
  (interrupts are off); the functions of `EnvMachine` specify the methods of the class `EnvKernel.EnvTable`, which
  works on the intrusive queues of `Queues`, themselves proved against sequences.
* **Both together** (`Processes`). The class `Processes.System` joins the env table with the memory: each live env owns
  the address space that its ASID and page directory name, no two share an ASID, and every receiver waits at a legal
  address, so that the system calls can be stated by env id, page transfer by IPC among them.
* **Pipes** (`PipeFifo`, `PipeClosed`, `PipeCounts`). One reader and one writer at load and store granularity over a
  32-byte ring with wrapping 32-bit positions; and the closed test, with its two counts read at different times, against all
  interleavings of `dup`, `close`, exit, preemption, and a fork that shares one page after the other.
* **Disk blocks** (`DiskBlocks`, `DiskTruncate`, `DiskMap`, `DiskRuns`, `FileServer`, `DiskImage`, `ImageBuilder`). Who
  owns each block: the bitmap, the boot, super and bitmap blocks, or one slot of one file; which blocks the
  cache holds, since reads put them there and nothing takes them out; and the image builder that has to agree with the
  server.
* **FAT chains** (`FatChains`, `FatTable`), the **segment loader** (`ElfLoader`) and the **number printer**
  (`PrintNum`), each working in place on its array, page map or buffer.

## Conventions

* A 32-bit page-table word or permission is `Word(ppn, low)`: the page number and the low twelve bits, kept as a
  bit-vector. A 32-bit bitmap word is the sequence of its 32 bits. `pp_ref` is incremented modulo 2^16, pipe positions modulo 2^32,
  and environment ids come from a counter that wraps; the rest is unbounded.
* Addresses are page numbers where only pages matter (`page_insert`, `sys_mem_map`, fork), and byte addresses in the
  segment loader.
* Negative error returns are negative integers with the numbers of include/error.h. A choice made outside the code
  (which TLB slot is overwritten, whether the allocator has a page, which environment a timer tick finds running) is a
  parameter, a field counting what is left, or a step.
* Where the code keeps a property only under a side condition, the condition is a `requires` or part of an `Enabled` or
  `Allowed` predicate, and a lemma shows either that it is exact or how the property fails without it: `EntryNames`,
  `MapExact`, `RemapExact` and `GlobalExact` for permissions; `LinkExact`, `StaleLinkExact`, `StaleRun`,
  `StalePermissionShares`, `WritableCowShares`, `FaultExact` and `MapCopyExact` for fork; `RemoveExact`, `SecondRemoveBreaks`, `EnvFreeExact`,
  `LastRunner`, `SetStatusExact` and `MkEnvIdWraps` for environments; `AnswerExact` and `FdBeforeDataMisleads` for
  pipes; `MapKeepsPartition`, `ReuseBreaks`, `GrowIndirectExact`, `ShrinkIndirectExact` and `TruncateKeepsPartition` for
  the disk; `FreshShape`, `LastRunSpills`, `RollbackExact`, `DeleteExact`, `EmptyTwice` and the contract of
  `AppendCluster` for chains; `BlankExact`, `LoadsUnmapped` and the contract of `LoadSeg` for segments.

Where code and comments disagree the model follows the code. `schedule` is said to panic on an empty queue, but it
reads the priority of the missing head first. `env_free` removes every env from the run queue, queued or not.
`sys_mem_map` stores all 32 bits of a permission. `duppage` ignores that `sys_mem_map` refuses addresses below UTEMP. A
freed disk block stays in the cache, so that a block taken for an indirect block may hold another file's old data.
`sys_ipc_try_send` drops the result of `page_insert`, so
it reports success when no page table could be had; with an unmapped `srcva` it has already woken the target when it
returns -E_INVAL. `env_alloc` leaves the new directory allocated when no ASID is free. `_pipe_is_closed` reads the fd
page's count before the pipe page's, and the retry on `env_runs` is what makes the pair a snapshot. Slots 10 to 1023 of
a file are words 10 to 1023 of its indirect block, whose first ten words are never used.

## Model

| member | source | states |
|---|---|---|
| PageTables.WritePte | kern/pmap.c:174-212 | writing one word of a page table changes the flat map at exactly one address, because no two directory slots share a table and no table is a user page |
| PageTables.FlatAt | include/pmap.h:47-59 | the two-level walk finds an entry exactly where the flat map has one, and finds that entry |
| PageTables.FreeListExact | kern/pmap.c:128-156 | the free list holds, once each, exactly the pages whose count is zero and that no caller holds |
| PageTables.MapStep | kern/pmap.c:244-253 | mapping a page at an empty slot keeps layout, counts and free list, and adds exactly that entry to the flat map |
| PageTables.RemapStep | kern/pmap.c:224-233 | inserting the page already mapped there changes only that entry and no count |
| PageTables.UnmapStep | kern/pmap.c:298-314 | dropping an entry keeps every count equal to the number of entries naming the page, frees the page exactly when it was the last, and removes one entry of the flat map |
| PageTables.InstallTableStep | kern/pmap.c:188-203 | a page table taken from the free list changes no mapping and keeps all counts |
| PageTables.EntryInFlat | kern/env.c:382-391 | each valid word of a table page is an entry of the flat map of the directory that owns the table |
| AddressSpaces.MapExact | kern/pmap.c:244-253 | one more mapping keeps the counts exact if and only if the page's 16-bit counter is below 65535 and the bits of the permission above the twelve lie within the page number |
| Mmu.EntryNames | kern/pmap.c:250 | the entry built from a page number and a 32-bit permission names that page if and only if the permission's bits above the twelve lie within the page number |
| Mmu.EntryBits | kern/pmap.c:250 | bit for bit, the entry is the page number and the permission together, made valid |
| Mmu.StrayPermission | kern/pmap.c:250 | permission 0x1000 on an even page makes an entry for the next page |
| AddressSpaces.RemapExact | kern/pmap.c:224-233 | rewriting the entry of a mapped page keeps the counts exact under the same condition on the permission, and only then |
| AddressSpaces.SoundHits | include/mmu.h:20-22 | whatever entry the hardware finds for an ASID that is owned, its own or a global one, is the current entry of that address space |
| AddressSpaces.GlobalExact | include/mmu.h:20-22 | one global entry is harmless if and only if every address space maps that page by that very entry |
| AddressSpaces.RemoveSound | kern/pmap.c:298-314 | removal with its flush keeps TLB coherence, counts and layout, removes one address, and touches no other page's count |
| AddressSpaces.InsertFresh | kern/pmap.c:221-254 | mapping at an empty slot keeps the TLB coherent for every owner of an ASID |
| AddressSpaces.FlushCovers | kern/pmap.c:323-325 | after its (page, asid) entry is flushed a slot may be changed or cleared without a stale TLB entry remaining |
| AddressSpaces.RefillSound | kern/tlbex.c:34-49 | loading what the walk finds keeps every TLB entry equal to the current entry of the owner of its ASID, and no entry is global |
| AddressSpaces.FreeConserves | kern/env.c:371-410 | freeing an environment lowers each user page's count by the number of its entries on that page, takes its tables and directory from 1 to 0, and puts on the free list exactly the pages that reach zero |
| AddressSpaces.ReleaseSound | kern/env.c:393-398 | once its entries are gone, a table can be dropped from its directory slot keeping layout, counts and coherence |
| AddressSpaces.SetupSound | kern/env.c:193-217 | a new directory changes no mapping and keeps all invariants |
| AddressSpaces.AdoptSound | kern/env.c:238-276 | an unused ASID given to an unserved, empty directory finds no TLB entry of its earlier owner |
| KernelMemory.Kernel.constructor | kern/pmap.c:89-120 | page_init leaves an empty flat map, one free page for every page past the kernel, and no shared tables yet |
| KernelMemory.Kernel.EnvInit | kern/env.c:157-185 | env_init takes three pages for base_pgdir and two tables, or panics with fewer; the tables map the kernel's arrays of pages and envs read-only and global, and stay out of the allocator for good |
| KernelMemory.Kernel.MapSegment | kern/env.c:69-83 | one segment of the template: a table whose first entries are the given pages |
| PageTables.StoreStep | include/mmu.h:27-29 | a program's writes into its own page change no mapping and no count |
| AddressSpaces.SharedKept | kern/env.c:193-217 | as long as reserved pages keep use and contents, the tables of [UTOP, UVPT) are what they were |
| KernelMemory.Kernel.Store | include/mmu.h:27-29 | a store through a writable TLB entry goes to the page its address space maps there now, and changes no mapping of anyone and no shared table |
| KernelMemory.Kernel.PageAlloc | kern/pmap.c:128-143 | the head of the free list, zeroed and held; fails exactly on an empty list; no mapping changes |
| KernelMemory.Kernel.PgdirWalk | kern/pmap.c:174-212 | which of table, absent and out of memory results; creating a table changes no mapping |
| KernelMemory.Kernel.PageInsert | kern/pmap.c:221-254 | for a 32-bit permission whose entry names the page and that is not global: on success exactly one address of the flat map changes; failure means that no page was left for a table, and changes no mapping and no count; in both cases the TLB entry of the address is flushed |
| KernelMemory.Kernel.PageLookup | kern/pmap.c:261-281 | finds a page exactly where the flat map has an entry |
| KernelMemory.Kernel.PageDecref | kern/pmap.c:287-293 | lowers the count and frees the page at zero |
| KernelMemory.Kernel.PageFree | kern/pmap.c:151-156 | puts a page with count zero at the head of the free list |
| KernelMemory.Kernel.PageRemove | kern/pmap.c:298-314 | exactly one address leaves the flat map, and the TLB entry with it |
| KernelMemory.Kernel.AsidAlloc | kern/env.c:32-47 | the lowest ASID that no live address space owns, or failure exactly when all 64 are owned |
| KernelMemory.Kernel.AsidFree | kern/env.c:54-59 | the bitmap stays the set of owned ASIDs |
| KernelMemory.Kernel.EnvSetupVm | kern/env.c:193-217 | a fresh directory with the shared tables of [UTOP, UVPT) and its self-map, and nothing below UTOP; the shared tables are untouched |
| KernelMemory.Kernel.SpaceAlloc | kern/env.c:238-276 | a live directory gets an ASID of its own and maps nothing; -E_NO_MEM exactly when no page is free, -E_NO_FREE_ENV exactly when a page is free and all 64 ASIDs are owned |
| KernelMemory.Kernel.EnvFree | kern/env.c:371-410 | every user mapping of the environment goes, all others stay, the shared tables of [UTOP, UVPT) are untouched, pages are conserved, and its directory and ASID are free |
| KernelMemory.Kernel.SysMemAlloc | kern/syscall_all.c:136-159 | on success a fresh zero page is mapped at one address; -E_NO_MEM exactly when no page is free, or one and a table is missing; then no mapping changes and at most one page stays held |
| KernelMemory.Kernel.SysMemMap | kern/syscall_all.c:170-202 | both addresses name the same physical page afterwards; -E_INVAL exactly for illegal addresses and an unmapped source, -E_NO_MEM exactly when the target lacks a table and no page is free |
| KernelMemory.Kernel.SysMemUnmap | kern/syscall_all.c:213-232 | one address is unmapped, or -E_INVAL exactly for an illegal address |
| KernelMemory.Kernel.IpcSendPage | kern/syscall_all.c:413-423 | with a mapped source, unless no page is left for a table, sender and receiver then map the same physical page and no other address changes; without one nothing changes |
| KernelMemory.Kernel.TlbRefill | kern/tlbex.c:4-49 | the TLB stays coherent while absent pages are mapped to fresh zero pages on demand; it fails exactly for the low or guard addresses and when too few pages are free |
| CowInvariant.StepInv | user/lib/fork.c:15-151 | every enabled fork, duppage, fault-handler and store step keeps: a writable private page has one slot, library pages are library everywhere, copy-on-write or not, and every half-done copy or link is what the code needs it to be |
| CowInvariant.LinkShareInv | user/lib/fork.c:88-92 | mapping the parent's page into the child unchanged keeps private pages exclusive |
| CowPerms.OtherBits | user/lib/fork.c:93-95 | duppage and cow_entry set and clear PTE_COW and PTE_D and keep every other bit |
| CowInvariant.MapCopyInv | user/lib/fork.c:41-43 | remapping the filled copy over the faulting page keeps the invariant |
| CowRefinement.StepAbs | user/lib/fork.c:15-151 | each step of the copy-on-write system is one enabled step of the eager-copy system, or one that changes nothing there |
| CowRefinement.CowRefinesEager | user/lib/fork.c:76-151 | over every interleaving the copy-on-write system stands for the eager one |
| CowRefinement.ReadsAgree | user/lib/fork.c:76-101 | each running environment reads at each mapped address the word the eager system holds there |
| CowRefinement.SharedPagesReadOnly | user/lib/fork.c:82-101 | with no fork or fault half done, a page mapped twice is writable only if it is a library page |
| CowRefinement.StartInv | user/lib/fork.c:114-151 | the conditions on an initial state from which all runs are covered: library pages may carry any bits, private ones are not writable and copy-on-write at once, and nothing is mapped below UTEMP |
| CowFork.EagerFork | user/lib/fork.c:117-151 | the eager machine is a fork: from its call to its end the child gets every page that its parent had at the call, with the cell it had when it was visited; if the parent stood still, the cell it had at the call |
| CowFork.ForkIsCopy | user/lib/fork.c:76-151 | whatever all environments do between the call of fork and its end, the child then runs with every page below USTACKTOP that its parent had at the call, holding what the parent's page held when duppage visited it; if the parent's program stood still, what it held at the call |
| CowFork.ForkAddsNothing | user/lib/fork.c:136-140 | and it has no page that was not visited in its parent |
| CowLimits.LinkExact | kern/syscall_all.c:178 | the page that duppage links reaches the child if and only if its address is at or above UTEMP |
| CowLimits.StaleLinkExact | user/lib/fork.c:76-92 | duppage's link keeps private pages exclusive if and only if the current entry is still harmless under the permission read before |
| CowLimits.StaleRun | user/lib/fork.c:76-92 | from every state in which fork is about to visit a private copy-on-write page, a fault on it between look and link ends with the new page writable in the parent and mapped in the child |
| CowLimits.StalePermissionShares | user/lib/fork.c:76-92 | a page that becomes writable between duppage's look and its link ends up writable and mapped twice |
| CowLimits.WritableCowShares | user/lib/fork.c:86-92 | a page both writable and copy-on-write is shared writable by fork |
| CowLimits.FaultRun | user/lib/fork.c:15-56 | what a whole fault does: the address maps a new page with the private permission, which holds what the old one held, and all else is as before |
| CowLimits.FaultExact | user/lib/fork.c:15-56 | a whole fault is invisible to the eager system if and only if the page is not a library page, which cow_entry does not test |
| CowLimits.MapCopyExact | user/lib/fork.c:41-43 | in the middle of any interleaving: remapping the finished copy is invisible if and only if the page is not a library page |
| ForkCalls.LinkChildCall | user/lib/fork.c:90-96 | duppage's first sys_mem_map on the page tables is the step of the copy-on-write system, -E_INVAL below UTEMP included |
| ForkCalls.LinkParentCall | user/lib/fork.c:97 | the second sys_mem_map is its step |
| ForkCalls.AllocCopyCall | user/lib/fork.c:32-34 | sys_mem_alloc at UCOW is its step, with the page at the head of the free list, which is unused there |
| ForkCalls.DemandCall | kern/tlbex.c:34-49 | a TLB refill of an absent page is the step that fills it with zeros |
| ForkCalls.MapCopyCall | user/lib/fork.c:41-43 | sys_mem_map from UCOW is its step |
| ForkCalls.UnmapCopyCall | user/lib/fork.c:46-48 | sys_mem_unmap of UCOW is its step |
| ForkCalls.StoreCall | user/lib/fork.c:38 | a store through the TLB is its step |
| Links.InsertHeadThreads | include/queue.h:191-199 | inserting at the head threads the new element before all others and re-aims the old head's back pointer |
| Links.InsertTailQueue | include/queue.h:201-207 | inserting at the tail threads the new element last and moves the tail pointer |
| Links.RemoveThreads | include/queue.h:227-234 | removing any member by its own links leaves the others threaded in order, tail pointer included |
| Links.RemoveExact | include/queue.h:227-234 | removing an element that is not queued leaves the queue intact if and only if the element's stale links agree with it |
| Links.InsertOthers | include/queue.h:191-207 | inserting leaves the links of elements outside the queue alone; one that was never queued keeps its null back pointer and cannot be removed |
| Links.RemoveOthers | include/queue.h:227-234 | and so does removing a member |
| Links.SecondRemoveBreaks | include/queue.h:227-234 | for every queue and every inner element: removing it, then its predecessor, and then it once more breaks the queue |
| Queues.TailQueue.PushFront | include/queue.h:191-199 | refines cons for any queue length |
| Queues.TailQueue.PushBack | include/queue.h:201-207 | refines snoc for any queue length |
| Queues.TailQueue.Delete | include/queue.h:227-234 | refines deletion of a member, wherever it stands; for an element that is not queued the class stays valid if and only if its stale links agree with the queue |
| Queues.List.PushFront | include/queue.h:141-147 | refines cons |
| Queues.List.Delete | include/queue.h:155-160 | refines deletion of the member |
| EnvInvariant.StepInv | kern/env.c:18-19 | every enabled kernel entry keeps: the queue is exactly the RUNNABLE envs, once each, the free list exactly the FREE ones, a receiving env is NOT_RUNNABLE, and the current env heads the queue |
| EnvInvariant.ScheduleInv | kern/sched.c:17-56 | schedule keeps that state and leaves a runnable env current |
| EnvInvariant.EnvFreeExact | kern/env.c:371-410 | freeing a live env keeps the state if and only if the env is not receiving |
| EnvInvariant.LastRunner | kern/sched.c:40-47 | taking the caller off the queue leaves schedule nothing to run if and only if no other env is RUNNABLE |
| EnvInvariant.TrySendInv | kern/syscall_all.c:383-426 | a send keeps the queue and the receivers consistent, also when it reports an error after waking the target |
| EnvInvariant.RecvInv | kern/syscall_all.c:345-367 | blocking in receive takes the caller off the queue and schedules another env |
| EnvInvariant.InitInv | kern/env.c:157-185 | the state after env_init |
| EnvLaws.BootState | kern/env.c:157-185 | every slot free, slot 0 first, nothing running and no id given |
| EnvInvariant.EnvCreateInv | kern/env.c:351-365 | env_create keeps the state, the new env at the head of the queue |
| EnvRuns.ResolvesExactly | kern/env.c:113-148 | an id resolves to an env if and only if that env is live and has the id, wherever it stands in the table, and with the permission check is the caller or its child; id 0 is the caller |
| EnvKernel.EnvTable.constructor | kern/env.c:157-185 | the intrusive lists hold every slot free, slot 0 first, and an empty queue |
| EnvKernel.EnvTable.Schedule | kern/sched.c:17-56 | the static count and the intrusive queue become what `EnvMachine.Schedule` gives, of which `EnvLaws` says when it rotates, who runs and for how long |
| EnvKernel.EnvTable.EnvAlloc | kern/env.c:238-276 | the in-place allocation is the specified one |
| EnvKernel.EnvTable.EnvCreate | kern/env.c:351-365 | the first free slot becomes a runnable env at the head of the queue, in place as specified |
| EnvKernel.EnvTable.SysExofork | kern/syscall_all.c:243-260 | the child is allocated not runnable, with its parent's id and priority |
| EnvLaws.ForkGives | kern/syscall_all.c:243-260 | the child in the first free slot has its caller as parent, its priority and a new id, and does not run; which error occurs when |
| EnvLaws.CreateGives | kern/env.c:351-365 | an environment without parent, of the given priority, at the head of the queue |
| EnvLaws.StatusSets | kern/syscall_all.c:274-298 | the target gets the status asked for and joins the queue at its tail or leaves it; which error occurs when |
| EnvLaws.DestroyEnds | kern/env.c:415-426 | the target's slot is free and the next to be handed out; a caller that ends itself is followed by the next in the queue |
| EnvKernel.EnvTable.SysSetEnvStatus | kern/syscall_all.c:274-298 | status and queue membership change together, also for the caller and for a receiver in the cases that keep the state; which error occurs when |
| EnvKernel.EnvTable.EnvFree | kern/env.c:371-410 | any live env joins the free list; the table stays valid if and only if the env is queued, or is not receiving and its stale queue links agree with the queue; RUNNABLE is enough |
| EnvKernel.EnvTable.SysEnvDestroy | kern/env.c:415-426 | destroying the current env schedules another; destroying a blocked child does what env_free does to it, with the exact condition under which the table survives |
| EnvKernel.EnvTable.SysIpcRecv | kern/syscall_all.c:345-367 | in place, the outcome that `EnvLaws.RecvArms` spells out; -E_INVAL exactly for an illegal address |
| EnvKernel.EnvTable.SysIpcTrySend | kern/syscall_all.c:383-426 | value, sender and permission are stored, the target disarmed and queued at the tail; which error occurs when |
| EnvRuns.StepWait | kern/sched.c:17-56 | each schedule call takes at least one slice off the wait of a queued env, and no other kernel entry adds to it |
| EnvLaws.TickKeeps | kern/sched.c:37-55 | with slices left a clock tick leaves the current environment running, the queue as it is, and one slice less |
| EnvLaws.TurnPasses | kern/sched.c:37-55 | on the last slice, and by sys_yield at any time, the current environment goes to the tail and the new head gets exactly its priority in slices |
| EnvLaws.RationKept | kern/sched.c:37-55 | over every run in which nobody yields or blocks the current environment keeps the processor for as many clock ticks as it has slices, and the last of them passes it on |
| EnvLaws.FullRation | kern/sched.c:17-56 | an environment that is passed the processor with priority p keeps it for max(1, p) clock ticks |
| EnvRuns.BoundedWaiting | kern/sched.c:17-56 | an env that stays queued is run within max(1, count) plus max(1, priority) summed over the envs ahead of it, counted in schedule calls, whatever else happens |
| EnvRuns.MkEnvIdParts | kern/env.c:95-98 | before the wrap the id is non-zero, carries the counter above the slot, and ENVX recovers the slot |
| EnvRuns.MkEnvIdDistinct | kern/env.c:95-98 | two calls among the first 2^21 - 1 return equal ids only for the same call and slot |
| EnvRuns.MkEnvIdExact | kern/env.c:95-98 | over all calls: two ids are equal if and only if the slots are and the counters are modulo 2^21 |
| EnvRuns.MkEnvIdWraps | kern/env.c:95-98 | ids repeat with period 2^21, and the call at the wrap returns 0 for slot 0 |
| EnvRuns.LiveResolves | kern/env.c:113-148 | a live env's id resolves to that env |
| EnvRuns.LiveIdsDiffer | kern/env.c:95-98 | two live envs never have the same id |
| EnvRuns.DestroyKillsId | kern/env.c:371-410 | once an env is destroyed its id does not resolve |
| EnvRuns.DeadForever | kern/env.c:113-148 | a retired id never resolves again over any run, however long, in which fewer than 2^21 ids are handed out in all, even after its slot is reused |
| EnvRuns.DeadSinceBoot | kern/env.c:351-365 | the same from boot: any number of env_create calls and any run behind them lead to a state with these ids, whose retired ids never resolve again |
| EnvRuns.MessageSteps | kern/syscall_all.c:383-426 | only a send addressed to a receiver wakes it or writes its message, and only its own receive arms it or moves the address it waits at |
| EnvLaws.RecvArms | kern/syscall_all.c:345-367 | sys_ipc_recv leaves its caller receiving at the address given, blocked and off the queue, and the next in the queue running; an illegal address changes nothing |
| EnvLaws.StaysArmed | kern/syscall_all.c:345-367 | a receiver waits at its address until a send reaches it, over every run |
| EnvLaws.FirstSendDelivers | kern/syscall_all.c:383-426 | from the receive on, the first legal send by the receiver's id is accepted, wakes it and delivers value, sender and permission |
| EnvLaws.SendOutcomes | kern/syscall_all.c:383-426 | every result of sys_ipc_try_send with its exact condition; a refused send changes nothing |
| EnvRuns.MessageStays | user/lib/ipc.c:24-39 | until the env receives again, value, sender, permission and address stay those of one send |
| EnvRuns.ReceiverReadsOneSend | user/lib/ipc.c:24-39 | what ipc_recv reads after any delay is exactly what one sys_ipc_try_send wrote |
| EnvRuns.SetStatusExact | kern/syscall_all.c:274-298 | setting a status keeps the state consistent if and only if it does not make a receiving env runnable, and leaves the current env running if and only if it does not stop the caller |
| Processes.System.Resolve | kern/env.c:113-148 | an env that envid2env finds owns the address space that its ASID and directory fields name |
| Processes.System.EnvCreate | kern/env.c:351-365 | a booted env is live and owns an empty address space |
| Processes.System.Exofork | kern/syscall_all.c:243-260 | the child is live, its address space is its own and maps nothing; -E_NO_MEM exactly when a slot but no page is free; no mapping changes |
| Processes.System.Destroy | kern/syscall_all.c:77-83 | table and memory together, for a blocked target as well: its mappings go, pages are conserved, its ASID is free again and every other env keeps its own; whether the queue survives is exact |
| Processes.System.IpcRecv | kern/syscall_all.c:345-367 | the caller is armed at the address it gave, which is 0 or legal, and every env keeps its address space |
| Processes.System.IpcTrySend | kern/syscall_all.c:383-426 | an accepted send with a page puts the page mapped at srcva where the receiver armed itself and changes no other mapping, unless no page is left for a table |
| Processes.System.MemAlloc | kern/syscall_all.c:136-159 | the call by env id: a zero page in the address space the id names; -E_NO_MEM exactly when no page is free, or one and a table is missing |
| Processes.System.MemMap | kern/syscall_all.c:170-202 | the call by env ids: the target's address names the source's page and no other address changes; -E_NO_MEM exactly when a mapped page lacks only its table and no page is free |
| Processes.System.MemUnmap | kern/syscall_all.c:213-232 | the call by env id: exactly one address leaves the map, or which error |
| Processes.System.SetStatus | kern/syscall_all.c:274-298 | the pairing of live envs with address spaces survives a change of status |
| Processes.System.Tick | kern/sched.c:17-56 | and a change of the current env |
| Processes.Born | kern/env.c:238-276 | an env that starts with an unowned ASID keeps the pairing of live envs with address spaces |
| Processes.Died | kern/env.c:371-410 | an env that ends gives back exactly its own ASID |
| PipeFifo.RingIndex | user/lib/pipe.c:20-26 | wrapped positions index the ring like the true byte count, since 32 divides 2^32 |
| PipeFifo.Distance | user/lib/pipe.c:189-204 | the 32-bit comparison of positions decides full and not full correctly across wraps |
| PipeFifo.StepInv | user/lib/pipe.c:144-204 | every load and store of reader and writer keeps each outstanding byte in its ring slot |
| PipeFifo.Fifo | user/lib/pipe.c:131-211 | over every interleaving the bytes read are a prefix of the bytes written and at most 32 are outstanding |
| PipeFifo.NoOverwrite | user/lib/pipe.c:189-204 | the byte about to be stored goes to a slot that holds no unread byte |
| PipeFifo.EmptyTest | user/lib/pipe.c:147 | the reader goes on exactly when a byte is there |
| PipeFifo.FullTest | user/lib/pipe.c:191 | the writer goes on, with its byte, exactly when fewer than 32 are under way |
| PipeFifo.StepBytes | user/lib/pipe.c:144-204 | each step of either side: the reader's last takes the next byte, the writer's last adds the byte it set out with, the others move none |
| PipeFifo.ReadTurn | user/lib/pipe.c:146-159 | a turn of pipe_read with a byte in the pipe takes exactly that byte |
| PipeFifo.WriteTurn | user/lib/pipe.c:190-201 | a turn of pipe_write with room in the pipe adds exactly its byte |
| PipeClosed.StepInv | user/lib/pipe.c:242-247 | every slot with its fd page mapped has its pipe page mapped, except the one page that a fork in progress has shared ahead of it, over all dup, close, fork, exit and switch steps |
| PipeClosed.CountsAreSnapshot | user/lib/pipe.c:95-116 | the two counts that the env_runs retry accepts are the counts of one moment |
| PipeClosed.CompareExact | user/lib/pipe.c:110-115 | with env_runs unchanged the test returns the comparison of the two sizes, and otherwise starts over from the new env_runs; nothing else moves |
| PipeClosed.AskAlone | user/lib/pipe.c:110-115 | asked without an interruption it returns at its first turn |
| PipeClosed.CloseWhole | user/lib/pipe.c:242-247 | a whole pipe_close takes both pages of its slot and nothing else |
| PipeClosed.DupWhole | user/lib/fd.c:115-156 | a whole dup gives the new slot the pipe page and the end of the old one |
| PipeClosed.DupUndone | user/lib/fd.c:115-156 | a dup that fails leaves every slot as it was |
| PipeClosed.ForkWhole | user/lib/fork.c:117-151 | when fork is done the child has exactly its parent's slots, each at the same end |
| PipeClosed.DieWhole | kern/env.c:371-410 | an environment that ends leaves its slots and the others keep theirs |
| PipeClosed.AnswerExact | user/lib/pipe.c:95-116 | the value returned is 1 if and only if the slots of the other end and the pipe pages without their fd page are together as many as the fd pages that fork has shared ahead of their pipe page |
| PipeClosed.ClosedExact | user/lib/pipe.c:95-116 | while no fork has shared an fd page ahead of its pipe page: the value returned is 1 if and only if the other end has no mapping and nobody is half-way through a close or dup |
| PipeClosed.ClosedStays | user/lib/fd.c:115-156 | an end without mappings is never opened again |
| PipeClosed.ClosedIsSound | user/lib/pipe.c:95-116 | from a new pipe, over every interleaving: a run that ends with a return of 1, while no fork is half-way through a descriptor, leaves the other end closed then and ever after |
| PipeClosed.ClosedOutsideForks | user/lib/pipe.c:95-116 | in particular a return of 1 while no child is being filled is right for good |
| PipeCounts.PageRef | user/lib/pageref.c:3-17 | pp_ref of a pipe's page is the number of descriptor slots that map it |
| PipeCounts.StepReadsRef | user/lib/pipe.c:110-114 | the counts that the closed test reads are pp_ref of the fd page and of the pipe page |
| PipeCounts.AcceptedAreRefs | user/lib/pipe.c:110-116 | the two counts that the retry accepts are the pp_refs of one moment |
| PipeClosed.FdBeforeDataMisleads | user/lib/fork.c:136 | a run from a new pipe, without a crash, that ends with a return of 1 while two envs hold the other end: fork shares fd pages before pipe pages |
| DiskBlocks.Partition | fs/fs.c:187-216 | each block is exactly one of free, reserved, or in a slot, and in one slot only |
| DiskBlocks.GrowStep | fs/fs.c:370-437 | giving a free block to an empty slot keeps the partition |
| DiskBlocks.GrowIndirectExact | fs/fs.c:149-160 | a new indirect block keeps the partition if and only if its words 10 to 1023 read as zero, which a block still cached from earlier need not |
| DiskBlocks.ShrinkStep | fs/fs.c:446-460 | freeing a slot's block and emptying the slot keeps the partition |
| DiskBlocks.ShrinkIndirectExact | fs/fs.c:716-720 | freeing an indirect block keeps the partition if and only if it names no block |
| DiskBlocks.DataWrite | fs/fs.c:469-480 | writing file data keeps the partition unless the block is an indirect one |
| DiskBlocks.FreeBlockExact | fs/fs.c:201-212 | frees the block given, unless it is 0 or past the end, and nothing else |
| DiskTruncate.ClearRangeExact | fs/fs.c:712-725 | the clearing loop empties exactly the slots of its range, frees exactly their blocks, and reads in no block but the indirect one |
| DiskTruncate.TruncateEffect | fs/fs.c:705-729 | for every file, mapped within its size or not: which slots become empty and which blocks free |
| DiskTruncate.TruncateFrame | fs/fs.c:705-729 | other files and all blocks but the file's indirect block are unchanged |
| DiskTruncate.TruncateExact | fs/fs.c:705-729 | with no block past the size, every slot at or past the new count is empty and exactly their blocks, with the indirect block when the count is at most 10, are freed |
| DiskTruncate.TruncateBytes | fs/fs.c:705-729 | in bytes: a file without blocks past its size keeps exactly the blocks that start at or before the new size, loses its indirect block below 40960 bytes, and exactly the blocks of the emptied slots become free |
| DiskTruncate.SetSizeBytes | fs/fs.c:734-746 | setting the size does the same to a file that gets shorter and leaves the blocks of any other alone |
| DiskTruncate.EmptiedBytes | fs/fs.c:705-729 | which slots any truncation empties and which blocks it frees, in bytes |
| DiskTruncate.TruncateKeepsPartition | fs/fs.c:705-729 | truncation keeps the partition if and only if no block number past the old size goes with the indirect block |
| DiskMap.FirstFree | fs/fs.c:220-233 | the first free block at or after a given one |
| DiskMap.FillExact | fs/fs.c:237-253 | which error occurs when, and that success takes one free block into one slot |
| DiskMap.MapFileExact | fs/fs.c:370-442 | the result in every case, with alloc and without; only the slot asked for and a missing indirect block change; nothing leaves the cache and the indirect block is in it; the partition stays |
| DiskMap.MapKeepsPartition | fs/fs.c:149-160 | a mapping call keeps the partition if and only if the block it would make an indirect block is out of the cache or reads as zeros |
| DiskMap.MapPaid | fs/fs.c:105-160 | a mapping call takes exactly one page for each block that it brings into the cache |
| DiskBlocks.TouchPaid | fs/fs.c:105-145 | and a read takes one exactly when the block was not there |
| DiskRuns.RunPartition | fs/fs.c:370-746 | over every run of mapping, resizing, truncating, reading and writing calls on the real cache the partition holds and no slot past a file's size is filled |
| DiskRuns.ApplyDoes | fs/fs.c:370-746 | what each call of a run does to slots, sizes, cache and contents |
| DiskRuns.ReuseBreaks | fs/fs.c:734-746 | the run that reads a file's block, writes data, cuts the file to nothing and maps another file's eleventh block breaks the partition, as the freed block stays in the cache |
| FileServer.Server.BlockIsFree | fs/fs.c:187-197 | the bitmap test |
| FileServer.Server.FreeBlock | fs/fs.c:201-212 | sets the block's bit; block 0 and blocks past the end are ignored |
| FileServer.Server.AllocBlockNum | fs/fs.c:220-233 | takes the first free block from 3 on, or -E_NO_DISK exactly when there is none |
| FileServer.Server.MapBlock | fs/fs.c:149-160 | a new cache page is zero, an old one keeps its contents |
| FileServer.Server.AllocBlock | fs/fs.c:237-253 | without memory for the page the bitmap is as before |
| FileServer.Server.FileBlockWalk | fs/fs.c:370-405 | the specified walk, allocating the indirect block if asked and reading it in if it is there |
| FileServer.Server.FileMapBlock | fs/fs.c:418-442 | the block number or the right error, with the partition kept and the cache as the specification says |
| FileServer.Server.ReadBlock | fs/fs.c:105-145 | the block is in the cache afterwards, and takes a page exactly when it was not |
| FileServer.Server.FileGetBlock | fs/fs.c:469-484 | maps the slot's block and reads it in, so that it may be written |
| FileServer.Server.FileClearBlock | fs/fs.c:446-460 | empties one slot and frees its block, which stays in the cache |
| FileServer.Server.FileTruncate | fs/fs.c:705-729 | the specified truncation in place, with the partition kept when nothing is stray |
| FileServer.Server.FileSetSize | fs/fs.c:734-746 | truncates exactly when shrinking, and keeps partition and sizes consistent |
| DiskImage.ImagePartition | tools/fsformat.c:142-148 | a finished image satisfies the server's ownership partition and its free blocks read as zeros |
| DiskImage.ImageSound | tools/fsformat.c:142-148 | a finished image whose files keep their blocks within their sizes is a state from which all runs of the server keep the partition |
| DiskImage.ReaderAgrees | fs/fs.c:370-442 | for a file of n linked blocks the server finds the builder's number for i < n, -E_NOT_FOUND up to 1024 and -E_INVAL from there, and changes nothing but its cache |
| DiskImage.LinkBlock | tools/fsformat.c:172-184 | linking a block that was handed out fills one slot and keeps every handed-out block accounted for |
| ImageBuilder.Builder.constructor | tools/fsformat.c:105-133 | exactly the bits of the 1024 blocks are set and nothing is linked |
| ImageBuilder.Builder.NextBlock | tools/fsformat.c:136-139 | hands out the next block |
| ImageBuilder.Builder.SaveBlockLink | tools/fsformat.c:172-184 | fills one slot, with a fresh indirect block on first need, and nothing else |
| ImageBuilder.Builder.MakeLinkBlock | tools/fsformat.c:187-192 | the directory's next slot gets a new block, its size grows by one block, and blocks stay within sizes |
| ImageBuilder.Builder.WriteFile | tools/fsformat.c:264-272 | the file's slots are exactly its blocks in order, one per started 4096 bytes of its size, which hold its data; no other file changes |
| ImageBuilder.Builder.FlushBitmap | tools/fsformat.c:142-148 | block i is free if and only if nextbno <= i < 1024, and the finished image is a sound disk for the server's runs |
| FatChains.RunShape | fs/fatfs.c:152-173 | every aligned run of k entries is all free or one linked run |
| FatChains.RunLength | fs/fatfs.c:156-160 | a run is as many clusters as fill a page, and at least one |
| FatChains.FirstFreeStartsRun | fs/fatfs.c:152-156 | the first zero entry starts a free run that lies in the table |
| FatChains.TakeKeeps | fs/fatfs.c:152-173 | taking a run keeps the shape and all chains, and meets none of them |
| FatChains.StartKeeps | fs/fatfs.c:398-410 | the first run of an empty file becomes its chain, apart from all others |
| FatChains.AppendKeeps | fs/fatfs.c:369-391 | linking a chain's end to a new run keeps shape, acyclicity and disjointness, and extends that chain by the run |
| FatChains.DeleteKeeps | fs/fatfs.c:721-735 | freeing a chain keeps the shape and every other chain |
| FatChains.DeleteExact | fs/fatfs.c:721-735 | deleteUpdateFat ends having freed exactly the file's clusters if and only if the file has any |
| FatChains.EmptyTwice | fs/fatfs.c:721-735 | on a fresh table, deleting a file without clusters frees entry 0, and deleting another never ends |
| FatChains.RollbackExact | fs/fatfs.c:175-186 | undoing an allocation by its first entry keeps the shape if and only if runs have length 1 |
| FatChains.FreshShape | fs/fatfs.c:280-287 | a table of free entries has the shape if and only if k divides the number of clusters |
| FatChains.LastRunSpills | fs/fatfs.c:152-173 | when k does not divide it, the last run handed out reaches past the table |
| FatTable.AllocClusterNum | fs/fatfs.c:152-173 | takes the first free run, or -E_NO_DISK exactly when no entry is free |
| FatTable.AllocCluster | fs/fatfs.c:175-186 | with the page mapping refused only the first entry is freed |
| FatTable.AppendCluster | fs/fatfs.c:375-386 | appends a run; on a full disk the chain loses its end |
| FatTable.DeleteUpdateFat | fs/fatfs.c:721-735 | terminates, and exactly the entries of the chain are free afterwards |
| ElfLoader.Space.MapPage | kern/env.c:290-309 | maps a fresh page holding the copied bytes and zeros around them, or -E_NO_MEM |
| ElfLoader.Space.LoadSeg | lib/elfloader.c:25-59 | it succeeds if and only if there is memory for the pages it maps, counted exactly; then the segment is loaded right if and only if the zero-filling loop keeps off the first page, or all file bytes are zero and the last page, which the loop may not reach, holds zeros already |
| ElfLoader.MapNext | lib/elfloader.c:36-49 | one more page extends the correctly loaded range |
| ElfLoader.NotRight | lib/elfloader.c:51-57 | once the first page is replaced by zeros a non-zero file byte is lost |
| ElfLoader.BlankExact | lib/elfloader.c:51-57 | after the loop that starts on the first page the image is right exactly under that condition |
| ElfLoader.LoadsUnmapped | lib/elfloader.c:51-57 | over unmapped pages, an unaligned segment of zeros is loaded right if and only if the count of pages from the end of the file bytes reaches its last page |
| ElfLoader.BssFallsShort | lib/elfloader.c:51-57 | 4096 bytes of uninitialized data at address 100 leave their last page unmapped; 10 bytes are loaded right |
| PrintNum.TextParses | lib/print.c:203-276 | the text has length max(width, digits and sign) and parses back to value and sign, for every base, width, alignment and padding with spaces or zeros |
| PrintNum.AnyPad | lib/print.c:244-257 | for any other pad character the number stands unbroken behind the padding |
| PrintNum.LeftText | lib/print.c:259-276 | a left-adjusted number comes first and is followed by spaces |
| PrintNum.ZeroText | lib/print.c:246-250 | zeros go between the sign and the digits |
| PrintNum.NoLeadingZero | lib/print.c:220-230 | the digits do not start with a zero unless the number is 0 |
| PrintNum.TextCase | lib/print.c:220-230 | digits above nine are letters of the case asked for |
| PrintNum.FewDigits | lib/print.c:217-234 | a 32-bit number has at most 32 digits, so digits and sign fit the 70 spare characters |
| PrintNum.FilledTurned | lib/print.c:259-276 | turning the buffer round gives the text |
| PrintNum.Format | lib/print.c:203-276 | the method sends out exactly the text, and every write is inside the buffer |

## Left out

- Trap entry, saved registers, the clock, console and device access: a TLB modification fault is a step into the fault handler, a timer tick is `schedule(0)`.
- Addresses at or above UTOP and the self-mapping at UVPT: the tables there are read-only views; only their directory slots are kept.
- The identity mappings of the boot directory.
- Permissions that are global or whose bits above the twelve lie outside the page number: `Mmu.EntryNames`, `AddressSpaces.MapExact` and `AddressSpaces.GlobalExact` say what they break, and the memory calls exclude them.
- A page lost when `sys_mem_alloc` fails after `page_alloc`, and a directory left over when no ASID is free, count as held; nothing in the code returns them.
- `page2pa`, `pa2page`, `page2ppn`: page numbers are used throughout, so that these conversions are identities.
- KernelMemory.Kernel.PageInsert: assumes fewer than 65535 mappings of a page and a permission that fits the page, the exact condition of `AddressSpaces.MapExact`, and no PTE_G.
- KernelMemory.Kernel.IpcSendPage: without a page for the receiver's table nothing is mapped although the call reports success, because the code drops that error.
- CowRefinement.CowRefinesEager: leaves out running out of memory during a fork or a fault, where the user library panics, and excludes mappings below UTEMP, private entries both writable and copy-on-write, a fault on a page that is library and copy-on-write, and a fault on the very page whose permission `duppage` has just read; `CowLimits.LinkExact`, `CowLimits.WritableCowShares`, `CowLimits.FaultExact`, `CowLimits.StaleLinkExact` and `CowLimits.StaleRun` say what happens there.
- CowMachine models `fork`, `duppage` and `cow_entry` as interleaved steps on values, since other environments run between any two of their system calls; setting the fault entry and the child's status belong to other modules.
- EnvInvariant.StepInv: needs that a destroyed env is runnable, that `sys_set_env_status` neither wakes a receiving env nor stops the caller, and that some env stays runnable; the exact conditions are those of `Links.RemoveExact` with `EnvInvariant.EnvFreeExact`, `EnvRuns.SetStatusExact` and `EnvInvariant.LastRunner`.
- EnvKernel.EnvTable.SysIpcRecv: the last runnable env does not call it, since `schedule` would then find nobody.
- Removing an env that was never queued and whose links are still null: `TAILQ_REMOVE` writes through a null pointer, so `EnvKernel.EnvTable.EnvFree` asks for links that can be followed; `Links.InsertOthers` and `Links.RemoveOthers` show that such links stay null.
- Processes.System.EnvCreate: assumes that a slot, a page and an ASID are left; `env_create` does not look at the result of `env_alloc` and goes on with an uninitialized pointer.
- EnvRuns.BoundedWaiting: counts calls of `schedule`, not time.
- EnvRuns.DeadForever: covers runs in which fewer than 2^21 ids have been handed out since boot; `EnvRuns.MkEnvIdWraps` shows the repetition after that.
- `sys_set_tlb_mod_entry`, `sys_set_trapframe`, `sys_panic`: they store one field or stop.
- `LIST_INSERT_AFTER` and the other queue macros that the kernel does not use.
- `ipc_send`'s retry loop may run forever when its target never receives; only what a successful send does is claimed.
- PipeFifo.Fifo: one reader and one writer; that `pipe_read` returns 0 only after everything was read is not claimed, because its emptiness test and its closed test are separate steps.
- PipeClosed.ClosedIsSound: speaks of answers given while no fork has shared an fd page ahead of its pipe page; `PipeClosed.AnswerExact` is exact without that, and `PipeClosed.FdBeforeDataMisleads` shows the wrong answer. `spawn` shares its pages in fork's steps.
- PipeClosed.CountsAreSnapshot: an env is not run 2^32 times between two reads of its own run counter.
- `fd2data`, `fd2num`, `num2fd`, `fd_alloc` and the device table: address arithmetic on descriptor slots.
- DiskRuns.RunPartition: requires a cached block that becomes an indirect block to read as zeros, the exact condition of `DiskMap.MapKeepsPartition`, which `DiskRuns.ReuseBreaks` violates with ordinary calls.
- FileServer.Server.FileMapBlock: requires the same.
- FileServer.Server.ReadBlock: without memory the kernel panics while the page is read in; the model goes on with none left.
- FileServer.Server.FileTruncate: keeps the partition when no block lies past the size, the exact condition being that of `DiskTruncate.TruncateKeepsPartition`.
- File structures inside directory blocks: files are a list, and a file's name, type and place in its directory are not kept, so `dir_lookup`, `walk_path` and the search in `create_file` are not part of this model.
- The words of the bitmap block and of directory blocks as file data: the bitmap and the files are kept beside the blocks.
- Writing blocks back to disk, dirty marks, and byte order of the image.
- FatTable.DeleteUpdateFat: requires a file with clusters, the exact condition of `FatChains.DeleteExact`.
- FatTable.AppendCluster: assumes that `map_cluster` succeeds; `FatChains.RollbackExact` says what its failure does.
- `fatfile_truncate`, the pointer from `fatfile_cluster_walk`, `fat_flush` and FAT directories.
- `open_lookup` and `fatopen_lookup` in the servers' open-file tables.
- ForkCalls.LinkChildCall: `duppage` does not look at the results of its calls, so that a table page missing in the kernel leaves the child without the page; loads and the copying loop are plain memory accesses.
- ElfLoader.Space.LoadSeg: pages that two segments share are not considered; the page tables behind the mapping are those of `KernelMemory`.
- `vprintfmt`'s parsing of the format string, `print_char` and `print_str`.
