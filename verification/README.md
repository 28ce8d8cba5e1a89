# A model of a small AArch64 kernel

The system is a uniprocessor teaching kernel with a physical page allocator,
three-level page tables, environments with fork, a round-robin scheduler and
IPC. Interrupts are masked inside the kernel, so one trap (a system call or a
timer interrupt) is one atomic step. The project models it in layers:

| file | what it models |
|---|---|
| Bits, Mmu, Attributes | shifts, masks and ors on naturals; rounding, table indices and descriptors (include/mmu.h, include/pmap.h) |
| Queue | the intrusive lists of include/queue.h: a back pointer is the place of the pointer that leads to the node |
| Memory, MemoryProofs, PageTable | memory as frames of 512 words with reference counts and a free list; mm/pmap.c as functions on such memory; the global invariant and the finite map the tables stand for |
| Pmap | mm/pmap.c in place: arrays of frames and counts, the free list as an intrusive list |
| AddressSpace, ForkCost, Startup | page directories, fork's page loop and what it costs, the first environment |
| Sched, Kernel | the scheduler; environments and system calls as functions on one kernel state; `Step` is one trap, `Run` a series of them |
| Answers | what each system call answers and does in the fields of the environments, and what follows over runs |
| Isolation, Transfer, Conservation, Ids, Context, Ipc, Revivals, Fairness | results over every run: the invariant, isolation, fork, page transfer, where pages go, identifiers, register contexts, IPC pairing and ipc_send, bounded bypass |
| Hardware | what the processor's walk makes of the tables of an environment, and of each permission bit |
| Syscalls | lib/env.c, lib/sched.c and lib/syscall_all.c in place: one object whose methods compute the functions of Kernel |
| BootTree, BootMap, BootMmu, Boot | the boot tables, the translation the hardware makes of them, and the boot sequence up to the first environment |
| HelpFunct, Print, Format | bcopy and bzero; number formatting; lp_Print |

How the code is read:

- A page number is the triple of table indices (u, m, t) of an address; `Private`
  page numbers have u >= 2. Slots 0 and 1 of every page directory are copied
  from `_pg_dir` (lib/env.c:92-94) and lead to shared tables, so the counting
  and isolation results are about private page numbers.
- Each frame has a ghost `role`: boot memory, data, page directory, or a table
  that remembers the one slot it is linked from. `Inv` is the global invariant:
  roles agree with the descriptors in memory, the free list has no duplicates
  and holds unused pages only, and `pp_ref` is the number of private entries
  that point at a page plus its `pins`, the explicit increments at lib/env.c:89
  and lib/env.c:137.
- `Mapping(m, root, v)` is the finite map that the tree below `root` stands for.
  The refinement lemmas are about the words in memory.
- `halted` stands for a panic, a fault inside the kernel, or a scheduler that
  finds nothing to run.
- The permission word is or-ed into the descriptor unmasked (mm/pmap.c:193,
  212), so bits from bit 12 up can change the page an entry names.
  `Memory.LeafEntryKeepsPage` says exactly when they do not, for every page and
  every 32-bit word. `Fits` is the condition under which an insertion keeps the
  counts, 16-bit overflow included; `PageTable.InsertKeepsInvIff` shows that it
  is exact, and the results about insertion require it and nothing narrower.
- Where comments and code disagree, the code is modelled: the second loop of
  bcopy and bzero handles up to 7 bytes, not the 0-3 its comment says
  (lib/helpfunct.c:18, 43), and boot_map_segment gives up on a size that is no
  multiple of a page after printing a message (mm/pmap.c:70-73).

## Model

| member | source | states |
|---|---|---|
| Queue.List.constructor | include/queue.h:102-104 | an initialised head denotes the empty sequence |
| Queue.List.Clear | include/queue.h:102-104 | LIST_INIT on a head in use gives the empty sequence |
| Queue.List.InsertHead | include/queue.h:143-148 | the new node comes first, all links again agree in both directions |
| Queue.List.InsertAfter | include/queue.h:113-119 | the node comes right behind the given member |
| Queue.List.InsertBefore | include/queue.h:132-137 | the node comes right before the given member, through that member's back pointer |
| Queue.List.InsertTail | include/queue.h:155-168 | the loop that uses the new node's own link as cursor ends, and the node comes last |
| Queue.List.Remove | include/queue.h:178-183 | any member is taken out without traversal, the others keep their order |
| Queue.List.Traverse | include/queue.h:94-97 | the loop visits the members in order, each once, and ends |
| Queue.WithoutUndoes | include/queue.h:113-183 | removing a node undoes each of the insertions |
| Queue.InsertedLinked | include/queue.h:113-148 | the five pointer updates common to all insertions keep both link directions consistent, at every position |
| Queue.DeletedLinked | include/queue.h:178-183 | the two pointer updates of LIST_REMOVE keep both link directions consistent, at every position |
| Mmu.VpnNumber | include/mmu.h:28-30 | PUDX, PMDX and PTEX together are exactly the page number modulo 2^27 |
| Mmu.SamePage | include/mmu.h:28-30 | two addresses share a slot exactly when they lie on the same page modulo 2^39 |
| Mmu.AddressRoundTrip | include/mmu.h:28-32 | the indices of a page's address are the page's indices |
| Mmu.RoundUp | include/mmu.h:24-25 | for every argument and every power of two, ROUND is the least multiple not below its argument if and only if the sum does not wrap, and 0 if it does |
| Mmu.RoundDownPage | include/mmu.h:26 | ROUNDDOWN gives the start of the page |
| Mmu.PteAddrIsFrame | include/mmu.h:31-32 | PTE_ADDR and PPN name the same frame |
| Mmu.DescriptorParts | mm/pmap.c:212 | what the or-ed words decode to, for every frame and every permission word |
| Mmu.DescriptorKeepsFrame | mm/pmap.c:162-212 | a descriptor keeps its frame exactly when the permission bits above the page offset are bits of the frame number |
| Memory.LeafEntryKeepsPage | mm/pmap.c:190-215 | for every page and every 32-bit permission word, the entry page_insert stores still names the page if and only if the high permission bits are bits of the page number |
| Memory.LeafEntryDecodes | mm/pmap.c:203-212 | for every permission word that keeps the page, the stored entry is a page descriptor and decodes to the page and its attribute bits |
| Memory.InitialInv | mm/pmap.c:110-124 | page_init establishes the global invariant |
| MemoryProofs.LinkInv | mm/pmap.c:156-181 | growing a table keeps the global invariant |
| MemoryProofs.SetLeafInv | mm/pmap.c:212-213 | writing a leaf and counting it keeps the global invariant |
| MemoryProofs.ClearLeafInv | mm/pmap.c:244-248 | dropping a leaf, its count and possibly its page keeps the global invariant |
| MemoryProofs.LeafSlotInjective | mm/pmap.c:148-188 | two pages, of one or of two address spaces, never share a third-level slot |
| PageTable.WalkCreates | mm/pmap.c:148-188 | pgdir_walk maps and unmaps nothing, takes one free page per missing table, and fails exactly when the free list is shorter than the number of missing tables |
| PageTable.LookupRefines | mm/pmap.c:216-231 | page_lookup is lookup in the finite map, and does not panic on private pages |
| PageTable.RemoveRefines | mm/pmap.c:237-251 | page_remove deletes one key of one map; every other page of every address space and all data in use stay |
| PageTable.InsertRefines | mm/pmap.c:190-215 | page_insert updates one key of one map, or returns -E_NO_MEM with the map as it was; the failure condition is exact, and so is the premise on count and permission word |
| PageTable.InsertCounts | mm/pmap.c:190-215 | the page gains one reference unless it was mapped there already; a failed insertion gives it none |
| PageTable.InsertFreshCounts | mm/pmap.c:207-214 | a fresh mapping costs one free page per missing table and no other page in use changes its count |
| PageTable.InsertReplaces | mm/pmap.c:196-214 | replacing a mapping is one update of the map, including when the old page is freed |
| PageTable.InsertKeepsInvIff | mm/pmap.c:190-215 | for every page that may be mapped, every count and every 32-bit permission word: page_insert keeps the global invariant if and only if it fails for lack of tables, or the permission word keeps the page and the 16-bit count has room or need not grow |
| Hardware.TranslateAgrees | mm/pmap.c:148-188 | for every private address below 2^39 the hardware walk of the tables, descriptor types included, gives the page and the attributes that the finite map gives, or faults |
| Hardware.LeafAttrsOr | mm/pmap.c:212 | the attributes of an inserted page are the low twelve permission bits or-ed with those of a normal page |
| Hardware.PermissionReaches | mm/pmap.c:212 | a permission bit is set in the entry exactly when it was asked for or belongs to every page; the page is read-only exactly when bit 7 was asked for |
| Hardware.TableWordIs | mm/pmap.c:162 | the whole word stored for a new table, bit by bit |
| Hardware.LeafWordIs | mm/pmap.c:212 | the whole word stored for a page, bit by bit |
| Hardware.StackAttrs | mm/pmap.c:212 | the attributes of a page that fork or env_create_priority maps are 0x743 |
| Hardware.InsertTranslates | mm/pmap.c:190-215 | after page_insert the processor sees the page at its addresses with the permission asked for, every other private address of every environment as before; on failure no translation changes |
| Hardware.RemoveTranslates | mm/pmap.c:237-251 | after page_remove the page faults, and every other private address translates as before |
| Pmap.PhysMemory.constructor | mm/pmap.c:85-86 | cleared page structures: all counts 0, no page on the free list |
| Pmap.PhysMemory.PageInit | mm/pmap.c:110-124 | the two loops produce the initial memory for any end of used memory |
| Pmap.PhysMemory.PageAlloc | mm/pmap.c:126-136 | the first free page, zeroed and taken off the list, or -E_NO_MEM and no change |
| Pmap.PhysMemory.PageFree | mm/pmap.c:138-147 | the page is put on the list if and only if its count is 0 |
| Pmap.PhysMemory.TableBehind | mm/pmap.c:154-169 | one level of the walk: the linked table, a grown one, or failure |
| Pmap.PhysMemory.PgdirWalk | mm/pmap.c:148-188 | in place equals the walk on values, with create and without |
| Pmap.PhysMemory.PageLookup | mm/pmap.c:216-231 | in place equals the lookup on values and changes nothing |
| Pmap.PhysMemory.PageRemove | mm/pmap.c:237-251 | in place equals the removal on values |
| Pmap.PhysMemory.PageInsert | mm/pmap.c:190-215 | in place equals the insertion on values, in all four branches |
| Pmap.PhysMemory.EnvSetupVm | lib/env.c:76-98 | a zeroed page, counted once, becomes a copy of `_pg_dir` |
| Pmap.PhysMemory.CopyKernelRoot | lib/env.c:92-94 | the 512-word loop makes the frame equal to the kernel's root |
| Pmap.PhysMemory.CopyPage | lib/syscall_all.c:173 | a page copy makes the destination frame equal to the source frame |
| AddressSpace.SetupRefines | lib/env.c:76-98 | a new page directory keeps the invariant, maps no private page, and leaves every other map and all data alone |
| AddressSpace.AllocRefines | mm/pmap.c:126-136 | a page handed out was mapped by nobody; no map and no data in use changes |
| AddressSpace.ForkPageRefines | lib/syscall_all.c:167-174 | one round of fork maps one fresh page for the child, with the exact condition for its insertion to succeed |
| AddressSpace.ForkPagesRefines | lib/syscall_all.c:165-175 | fork's loop, whether the parent maps the pages or not: no fault if it maps all; when complete, every page cloned into a page that was free, with a count of 1; all other maps, counts and data kept in every outcome |
| ForkCost.LoopEnds | lib/syscall_all.c:165-175 | where the loop stops, and whether it completes or faults there, from the length of the free list and the first page the parent does not map |
| ForkCost.StopIs | lib/syscall_all.c:165-175 | the stop in closed form: everything before it is paid for by pages, third-level and second-level tables, and it is not, or is the first gap |
| ForkCost.WalkMissing | mm/pmap.c:148-188 | a successful creating walk makes the tables of its page and no others, for every page of the address space |
| AddressSpace.SoleMapping | mm/pmap.c:190-215 | a page counted once and not pinned is mapped at one place in all address spaces together |
| AddressSpace.ClonesAreSole | lib/syscall_all.c:165-175 | a cloned page is mapped by the child alone, at one address |
| Sched.PickIsNearest | lib/sched.c:4-13 | the choice is the first runnable environment after pos in cyclic order, and exists exactly when one is runnable |
| Sched.NeverSkipped | lib/sched.c:4-13 | a runnable environment that is not chosen comes strictly closer to pos |
| Sched.ChosenWithin | lib/sched.c:4-13 | it is chosen within as many decisions as its cyclic distance |
| Sched.BoundedBypass | lib/sched.c:4-13 | runnable at NENV consecutive decisions, it is chosen by one of them, whatever the other statuses do |
| Fairness.RunIsFair | lib/sched.c:4-13 | over kernel runs with any traps: runnable at every decision, an environment is chosen within as many decisions as its cyclic distance |
| Fairness.NenvDecisionsSuffice | lib/sched.c:4-13 | ... so within any NENV decisions of a run |
| Fairness.OthersKeepPos | lib/sched.c:5-8 | traps that return to their caller leave the persistent position alone |
| Sched.Scheduler.Choose | lib/sched.c:4-13 | the search loop ends after exactly the cyclic distance of its choice, at most NENV rounds |
| Isolation.EnvAllocGood | lib/env.c:99-122 | env_alloc keeps the invariant and every existing address space |
| Isolation.ForkGood | lib/syscall_all.c:143-181 | fork keeps the invariant and every existing mapping, complete or not, also when the caller does not map its whole stack |
| Isolation.MemAllocGood | lib/syscall_all.c:50-83 | sys_mem_alloc keeps the invariant and changes at most the one mapping it names, none when it is refused, error paths included |
| Isolation.MemMapGood | lib/syscall_all.c:85-129 | the same for sys_mem_map, also when both environments map the page, and when the call is refused whatever its addresses |
| Isolation.MemUnmapGood | lib/syscall_all.c:130-142 | the same for sys_mem_unmap, also when the last reference goes |
| Isolation.IpcSendGood | lib/syscall_all.c:248-296 | the same for sys_ipc_can_send, which names the receiver's page; a refused send, also one to an environment that has never received, or one without a page, changes no mapping |
| Isolation.DestroyGood | lib/env.c:166-207 | destroying an environment without a table from top-level slot 3 up, for which the sweep of env_free finds nothing to visit, keeps the invariant and every mapping of the others |
| Isolation.StepGood | lib/syscall_all.c:17-296 | every modelled trap keeps the invariant and changes at most one mapping, the one its call names, or takes out the environment it destroys |
| Isolation.RunKeepsInv | lib/syscall_all.c:17-296 | the invariant holds after every run, refused calls with any arguments and destroys that sweep nothing included |
| Isolation.Isolation | lib/env.c:76-98 | over every series of kernel traps, page v of environment e keeps its frame, its permissions and, as far as the kernel writes, its contents until a call names that very page or destroys e, whatever is mapped, unmapped or dropped elsewhere, in e too; user stores are not events |
| Isolation.TreesDisjoint | lib/env.c:76-98 | the table trees of two environments share no root, no second-level and no third-level table |
| Hardware.RunTranslates | mm/pmap.c:148-215 | after every run, for every environment, the processor translates each private address as the map says |
| Hardware.IsolationTranslates | lib/env.c:76-98 | no series of traps that does not name its page changes the translation of a private address of e |
| Transfer.ForkClonesStack | lib/syscall_all.c:143-181 | a complete fork: the child has the parent's registers with 0 in x0; each stack page is a fresh page of its own with the parent's contents; the parent and all others are as they were |
| Transfer.ForkCompletes | lib/syscall_all.c:165-175 | fork completes if and only if the caller maps its whole stack and the free list is as long as the root, the pages and their tables need; it faults if and only if it gets to an unmapped page with a page left |
| Transfer.MemMapShares | lib/syscall_all.c:85-129 | the exact condition of each of its three answers; on 0 both pages are the same frame, counted once more unless it was there already; on an error no mapping has changed, and in no case any other one or anything but memory |
| Transfer.SendDelivers | lib/syscall_all.c:248-296 | the exact condition of each of its four answers; on 0 the receiver is RUNNABLE and out of its receive, holds value, sender, permission and page, and is otherwise as it was; an error leaves every environment and mapping alone, and in no case another page changes |
| Transfer.MemAllocGives | lib/syscall_all.c:50-83 | the exact condition of each of its four answers; on 0 the page is zeroed, at va with the permission asked for, and mapped nowhere else; every other mapping and every environment is as it was |
| Transfer.MemUnmapRemoves | lib/syscall_all.c:130-142 | the page is gone from one map, its frame has one reference less and is free again with the last; nothing else changes |
| Answers.ResolvesIff | lib/env.c:24-52 | an id other than 0 resolves to e if and only if e is its slot, in use under this very id and, where permission is asked for, the caller itself or a child of the caller; 0 is the caller |
| Answers.SetStatusDoes | lib/syscall_all.c:182-208 | -E_INVAL, -E_BAD_ENV and 0 exactly when; on 0 the status alone of the one environment is free, runnable or not runnable for 0, 1 or 2 |
| Answers.RecvDoes | lib/syscall_all.c:227-247 | the caller is NOT_RUNNABLE, receiving at dstva, with the registers of its call saved; an address from UTOP up changes nothing |
| Answers.DestroyDoes | lib/env.c:190-207 | the answer, every field of the destroyed environment, the free list, and that the others only get scheduled |
| Answers.AllocDoes | lib/env.c:99-122 | when env_alloc succeeds, gives up or panics, every field of the new environment, and that nothing else is new |
| Answers.ForkAnswers | lib/syscall_all.c:143-181 | -E_NO_FREE_ENV if and only if no environment is free, and then nothing changes; -E_NO_MEM if and only if the loop runs short of pages, and then the child stays NOT_RUNNABLE; the child's id otherwise, the child RUNNABLE; every field of the child, and every other environment as it was |
| Answers.IdIsNoError | lib/syscall_all.c:180 | no id, cut down to an int, reads as an error code of fork |
| Answers.PermissionIsInt | mm/pmap.c:190 | the upper half of a permission argument does not matter to any call |
| Answers.OnlyOwnChange | lib/env.c:43-49 | over every run: a trap that changes a mapping of e, or destroys e, is a trap of e or of its parent, or a send to e blocked in a receive, and then at the page e receives at |
| Answers.OnlyOwnDestroyed | lib/env.c:43-49 | in any state: only a destroy by the environment itself or its parent takes its page directory away, and nothing replaces it |
| Answers.EnvKept | lib/syscall_all.c:17-296 | in any state: a trap that does not name an environment in a call that sets statuses leaves its id, parent, status, page directory, priority and message alone |
| Answers.WokenIsChosen | lib/syscall_all.c:287-293 | over every run: the receiver of a successful send is RUNNABLE and, unless its status is set again, chosen within its cyclic distance |
| Answers.SuspendedStays | lib/syscall_all.c:182-208 | over every run: an environment set to 2 still resolves and is not chosen until its status is set again or a send reaches it |
| Transfer.MemAllocStrands | lib/syscall_all.c:50-83 | the page taken is stranded if and only if the environment does not resolve or the tables cannot be had afterwards; otherwise it is mapped once |
| Conservation.InsertStrays | mm/pmap.c:190-215 | page_insert strands no page, in any of its branches, also when it fails half-way |
| Conservation.LoopStrays | lib/syscall_all.c:165-175 | fork's loop strands exactly the page at hand when it stops with one left, and nothing otherwise, from the length of the free list and the parent's map |
| Conservation.CallStrays | lib/syscall_all.c:50-296 | which page a system call strands, told from the state before it: at most one, by sys_mem_alloc without an environment or without pages for the tables, or by a fork that runs short in the middle of a page |
| Conservation.RunStrays | lib/syscall_all.c:50-296 | over every run, stranded pages stay stranded, and their number grows by one with each call that the state before it tells to strand one |
| Conservation.PagesConserved | lib/syscall_all.c:50-296 | if the free list holds every unreferenced data page before a run, it does so after it if and only if no call of the run strands a page |
| Conservation.InitialListed | mm/pmap.c:110-124 | page_init lists every data page |
| Ids.MakeIdPacks | lib/env.c:14-22 | shift and or put serial number and slot side by side, for every counter value |
| Ids.MakeIdParts | lib/env.c:14-22 | below 2^53 the id holds the whole serial number, and ENVX recovers the slot |
| Ids.FreshId | lib/env.c:99-122 | a new id was never issued before and names its own slot |
| Ids.IssuedForever | lib/env.c:14-52 | over every run, however long, with fewer than 2^53 - 1 allocations so far, the counter grows by exactly one per allocation and an issued id is not issued again |
| Ids.DestroyRetires | lib/env.c:190-193 | destroying an environment retires its id |
| Ids.RetiredUnresolved | lib/env.c:24-52 | a retired id does not resolve |
| Ids.RetiredForever | lib/env.c:24-52 | over every run, however long, with fewer than 2^53 allocations so far, a retired id never resolves again, even after its slot is used again |
| Ids.AllocationsAreForks | lib/syscall_all.c:143-160 | a run makes at most as many allocations as fork calls |
| Ids.SameIdIff | lib/env.c:14-22 | two ids are the same if and only if they are for the same slot and their counters agree modulo 2^53 |
| Ids.IdComesBack | lib/env.c:14-22 | over every run from any state, an id comes back if and only if it is for the same slot and the run made a multiple of 2^53 allocations |
| Ids.ForkReturnsId | lib/syscall_all.c:180 | the int fork returns is the child's id if and only if fewer than 2^20 ids have been issued |
| Context.SavedAndRestored | lib/entry.S:16-44 | saving and restoring gives back every register but x16 and x17 |
| Context.StepContexts | lib/env.c:208-231 | one trap keeps the saved registers of every waiting environment, and a switch hands the next one its own |
| Context.RunContexts | lib/env.c:208-231 | the same over every run of any traps |
| Context.ResumesOwnContext | lib/irq.S:20-50 | after any run, an environment that is switched to resumes with the registers of its own last trap |
| Answers.SwitchDoes | lib/env.c:208-231 | sched_yield saves all registers of the interrupt frame with pc taken from elr, counts one more run of its choice, makes it current and pos its slot, and changes nothing else |
| Answers.YieldDoes | lib/syscall_all.c:17-24 | sys_yield saves the frame of its own call |
| Answers.TrapSaves | lib/env.c:215-218 | every switching trap saves the frame it was entered with for the environment it interrupts; no trap changes the registers of another one in use |
| Ipc.StepIpc | lib/syscall_all.c:227-296 | what each trap, in any state, does to an environment's receive bit and message |
| Ipc.Account | lib/syscall_all.c:227-296 | over every run from any state: the env_ipc_recving bit moves by receives begun minus sends that succeeded, exactly when no receive begins with the bit still set |
| Ipc.NeverDoubled | lib/syscall_all.c:227-247 | unless a fork takes a slot freed in mid-receive, or a receiver is set RUNNABLE, no receive begins with the bit still set |
| Ipc.Pairing | lib/syscall_all.c:227-296 | over every run, destroys included, in which no receiver is revived without a send: receives begun minus sends that succeeded equals the env_ipc_recving bit |
| Ipc.BlockedUntilSent | lib/syscall_all.c:227-247 | in such runs, a blocked receiver is not scheduled, and keeps the address it receives at, before a send reaches it |
| Ipc.MessageStays | lib/syscall_all.c:287-291 | over every run, what was delivered stays until the next receive |
| Ipc.ReceiveMeetsSend | user/ipc.c:25-36 | in runs without such revivals, when a receiver runs again, exactly one send has reached it, and the fields it reads are those of that send |
| Ipc.ReusedSlotPairs | lib/env.c:99-122 | a forked environment pairs from its creation on, in every run without revivals, if and only if its slot was not freed in mid-receive |
| Revivals.ReuseBreaksPairing | lib/env.c:99-122 | a run from power-on, safe for memory, in which pairing fails: a child destroyed in mid-receive, its slot forked again, the new child receives; two receives, no send, and the bit has moved by one |
| Revivals.StatusBreaksPairing | lib/syscall_all.c:182-208 | the same from power-on without a destroy: a receiver that sys_set_env_status makes RUNNABLE receives again |
| Ipc.ReturnsIffSent | user/ipc.c:8-20 | over every run in which an environment's system calls are those of the loop: ipc_send has returned if and only if one send of the run is its own, and otherwise none is |
| Ipc.IpcSend | user/ipc.c:8-20 | fed with the answers the kernel gives in a run, the loop yields once per refusal, and returns if and only if exactly one send of the run is its own; it panics if and only if none is |
| Startup.GiveStackRefines | lib/env.c:135-142 | the first environment's stack page is zeroed, its own, and counted twice |
| Startup.EnvCreateGood | lib/env.c:124-151 | env_create_priority: a runnable environment without parent at its entry point with its priority, nobody else's space changed |
| Startup.BootedReady | lib/env.c:53-74 | after page_init and env_init every run-level invariant holds |
| Startup.StartedReady | init/main.c:26-29 | ... and still holds when the first interrupt starts environment 0, which resumes at its entry point on top of its stack |
| Startup.StartedListed | init/main.c:26-29 | the free list then holds every data page without a reference |
| Startup.StartedShape | init/main.c:26-29 | environment 0 then has id 2048, no parent, priority 1 and one run; every other slot is blank, in order on the free list, and at most four pages are gone |
| Startup.EveryRun | init/main.c:26-29 | from there, after every run and each under its own premise: the memory invariant, page conservation, the id invariant with the exact counter, every waiting environment with the registers of its own last trap or of its start, and IPC pairing for every environment |
| Syscalls.KernelObject.constructor | lib/env.c:6-11 | a cleared kernel state with nothing allocated |
| Syscalls.KernelObject.MkEnvId | lib/env.c:14-22 | the counter advances and the or-ed word is the packed id |
| Syscalls.KernelObject.Envid2Env | lib/env.c:24-52 | resolves exactly the live ids, the caller for 0, and with checkperm only the caller and its children |
| Syscalls.KernelObject.EnvInit | lib/env.c:53-74 | every environment free, the free list in slot order |
| Syscalls.KernelObject.EnvSetupVm | lib/env.c:76-98 | the environment gets a fresh page directory, or the kernel panics without a page |
| Syscalls.KernelObject.EnvAlloc | lib/env.c:99-122 | in place equals the allocation on values, all three outcomes |
| Syscalls.KernelObject.EnvCreate | lib/env.c:124-151 | in place equals the creation on values |
| Syscalls.KernelObject.EnvFree | lib/env.c:190-192 | the environment is free, first on the free list, without page directory |
| Syscalls.KernelObject.SweepFinds | lib/env.c:170-173 | the outer loop of env_free's sweep up to the first slot with a table: there is none if and only if the sweep visits nothing |
| Syscalls.KernelObject.EnvDestroy | lib/env.c:196-207 | in place equals the destruction on values, with memory left as it is; a destroyed caller is switched away from |
| Syscalls.KernelObject.EnvRun | lib/env.c:208-231 | the interrupted registers are saved before the switch, with pc taken from elr |
| Syscalls.KernelObject.SchedYield | lib/sched.c:4-13 | in place equals the scheduling step on values |
| Syscalls.KernelObject.SysYield | lib/syscall_all.c:17-24 | the system-call frame replaces the interrupt frame before the switch |
| Syscalls.KernelObject.SysEnvDestroy | lib/syscall_all.c:25-37 | in place equals the call on values with memory left as it is, and reports whether the sweep finds nothing, in which case that is what the code does |
| Syscalls.KernelObject.SysMemAlloc | lib/syscall_all.c:50-83 | in place equals the call on values, in every error path |
| Syscalls.KernelObject.SysMemMap | lib/syscall_all.c:85-129 | the same, with both addresses rounded down first |
| Syscalls.KernelObject.SysMemUnmap | lib/syscall_all.c:130-142 | the same |
| Syscalls.KernelObject.SysFork | lib/syscall_all.c:143-181 | the same, with the page loop over the rounded stack pointer |
| Syscalls.KernelObject.SysSetEnvStatus | lib/syscall_all.c:182-208 | the same, apart from the scheduling lists |
| Syscalls.KernelObject.SysIpcRecv | lib/syscall_all.c:227-247 | the same |
| Syscalls.KernelObject.SysIpcCanSend | lib/syscall_all.c:248-296 | the same, with the checks in the order of the code |
| Syscalls.KernelObject.Start | init/main.c:26-29 | page_init, env_init, one creation and the first interrupt, in place, end in a state that satisfies the invariant |
| Syscalls.KernelObject.Trap | lib/entry.S:148-171 | one trap in place is one `Step`, and keeps the invariant |
| BootTree.LeafWritten | mm/pmap.c:76 | writing a third-level slot changes the translation of its page only |
| BootTree.LinkTableRefines | mm/pmap.c:49-62 | linking an empty table changes no translation |
| BootMap.WindowsDisjoint | include/mmu.h:60-63 | from the structure sizes, the four kernel windows do not meet |
| BootMap.BootMemory.Alloc | mm/pmap.c:27-42 | cleared pages at the old freemem, panic exactly at the end of memory |
| BootMap.BootMemory.BootPgdirWalk | mm/pmap.c:43-65 | tables appear where missing, every translation stays |
| BootMap.BootMemory.BootMapSegment | mm/pmap.c:66-78 | va+k is mapped to pa+k for the whole segment, every other address is translated as before, and a size that is no multiple of a page changes nothing |
| BootMap.BootMemory.VmInit | mm/pmap.c:79-108 | the union of the four maps on top of the old translation, on disjoint memory |
| BootMmu.BootMmuSetup | init/mmu.c:6-50 | the nested loops fill 507 tables with exactly these descriptors and touch nothing else |
| BootMmu.BootTranslation | init/mmu.c:6-50 | the hardware walk is the identity on [0, 0x40200000) and faults above, with the exact attribute bits: device memory from 0x3f000000, read-only on [0x80000, _data), writable memory elsewhere |
| BootMmu.BootIsTree | init/mmu.c:14-44 | all boot tables are different frames, each linked from one slot |
| Boot.BuildTables | init/main.c:21-25 | the kernel's address space after both boot steps, for every address, and a root with no private entry |
| Boot.BootAndStart | init/main.c:21-29 | from blank tables to the first environment, ending in a state that satisfies the invariant |
| HelpFunct.BcopyInPlace | lib/helpfunct.c:6-25 | the two loops compute the round-by-round copy on values, for any overlap |
| HelpFunct.BcopyIsIdeal | lib/helpfunct.c:6-25 | for every length and alignment, unless the destination starts inside the source, the copy is that of the original bytes |
| HelpFunct.BcopyIdealIff | lib/helpfunct.c:6-25 | the exact condition: every memory is copied faithfully if and only if the destination does not start inside the source or exactly one word is copied |
| HelpFunct.BcopyOutside | lib/helpfunct.c:6-25 | bytes outside the destination are untouched, for any overlap |
| HelpFunct.Bzero | lib/helpfunct.c:27-49 | exactly the range is cleared |
| Print.PrintNum | lib/print.c:294-377 | the buffer holds the signed, padded numeral, through the in-place reversal of number or field |
| Print.ReversePrefix | lib/print.c:355-373 | the swap loop reverses the first n characters and no other |
| Print.RawReversed | lib/print.c:337-373 | reversing the number alone, or the whole field, gives each of the three padding modes |
| Print.NumTextLength | lib/print.c:330-335 | the length is the larger of the width and the number with its sign |
| Print.NumTextReads | lib/print.c:294-377 | for every 64-bit number and beyond, base 2 to 16, sign, width and mode: removing the padding and parsing gives back sign and number |
| Print.NumTextIs | lib/print.c:294-377 | the field holds the numeral of the number, in digits of its base and case without leading zeros, at the end the mode says, with its sign and nothing but padding around it |
| Print.NumeralUnique | lib/print.c:311-323 | there is one such numeral for each number, base and case |
| Format.PrintChar | lib/print.c:232-256 | the character, padded on the right side |
| Format.PrintString | lib/print.c:258-292 | the string, padded on the right side, without reading past its terminator |
| Format.LpPrint | lib/print.c:29-228 | for every format string, also one that ends in '%' or in half a directive: outputs the pure rendering and reads nothing past the terminator; enters the endless loop behind the fatal message if and only if some run of literal text is longer than 1000 characters |
| Format.StuckIff | lib/print.c:36-42 | the rendering ends in that loop if and only if the literal text between the directives, read off the format alone, does not fit, whatever the arguments |
| Format.LongLiteralSticks | lib/print.c:36-42 | 1001 plain characters print the fatal message and stick |
| Format.ParseWritten | lib/print.c:77-120 | the prefixes of a written directive, a precision included, are read back as written, whatever follows |
| Format.RenderConcat | lib/print.c:59-224 | a literal, a directive with or without precision, and a rest are rendered as the literal, the formatted argument and the rest on its own |
| Format.RenderSigned | lib/print.c:138-154 | d, i and D print the argument in base 10 with its sign, all 64 bits with l and the low 32 sign-extended without |
| Format.RenderUnsigned | lib/print.c:127-200 | b, o and O, u and U, x and X print its 64 bits in base 2, 8, 10 and 16, with capital letters for X and small ones for x |
| Format.RenderChar | lib/print.c:202-206 | c prints the low byte at the right end of a field of blanks, at the left end with - |
| Format.RenderString | lib/print.c:208-212 | s prints its string in the same way |
| Format.RenderOther | lib/print.c:218-220 | any other character is printed as it is and takes no argument |
| Format.RenderLiteral | lib/print.c:59-75 | text without '%' is output as it is |
| Format.RenderCutShort | lib/print.c:214-216 | a directive cut short prints nothing |

## Left out

- The page-table sweep of `env_free` (lib/env.c:170-189): its guard selects
  invalid leaves and it passes physical addresses as virtual ones, so it does
  not release an environment's pages. Runs with a destroy may leave memory in
  any state (the `after` argument of `EnvDestroy`). The memory results are
  about runs whose destroys sweep nothing, the environment having no table from
  top-level slot 3 up; the id, context, scheduling and IPC results are about
  runs with any destroys.
- Syscalls.KernelObject.SysEnvDestroy: leaves memory as it is, which is right when the sweep finds nothing; what it does otherwise is not modelled.
- Isolation.Isolation: private page numbers only, as the tables behind slots 0 and 1 are shared by all environments; contents across kernel traps only, since user stores, also through a frame that e shares, are not events.
- Ipc.Pairing: fails when a receiver becomes runnable without a send, by a fork into a slot freed in mid-receive or by `sys_set_env_status`; `Revivals.ReuseBreaksPairing` and `Revivals.StatusBreaksPairing` are such runs, and `Ipc.Account` gives the exact account of every run.
- Transfer.ForkClonesStack: the success case; `Transfer.ForkCompletes` says when it is, and `AddressSpace.ForkPagesRefines` what stays unchanged otherwise.
- Syscalls.KernelObject.SysSetEnvStatus: membership in `env_sched_list` is not modelled; scheduling reads `env_status` only.
- Sched.Scheduler.Choose: requires a runnable environment, because the source spins for ever without one.
- Syscalls.KernelObject.Trap: a call that gets as far as the page tables must name private pages there, insert only where the counts hold, fork with a stack pointer in a private slot, and destroy only where the sweep finds nothing; outside these the page tables may be corrupted and nothing is claimed.
- BootMap.BootMemory.Alloc: whole pages with page alignment, which is what its callers ask for; byte-granular clearing is not modelled.
- BootMap.BootMemory.BootMapSegment: page-aligned addresses and permissions below 4096, and no block descriptor on the path, since boot_pgdir_walk would take it for a table.
- BootMap.BootMemory.VmInit: memory is large enough for the kernel arrays; alloc clears before it looks for the end of memory.
- Boot.BuildTables: memory above `_pg_dir` is zero, as boot_mmu_setup does not clear its first and last table itself.
- Print.PrintNum: field widths up to the 1000 characters of the buffer, as the source does not guard against wider ones.
- Format.LpPrint: widths and string arguments up to 1000 characters; a missing argument reads as 0 or the empty string; the precision is read and then ignored, as in the source.
- HelpFunct.BcopyInPlace: addresses lie in memory, pointer arithmetic does not wrap.
- The kernel's own arrays (`pages`, `envs`, stacks) are objects beside the modelled frames, not bytes inside them.
- Entry code, UART, timer, interrupt controller, enabling the MMU, and TLB maintenance: hardware access; translation is the ideal walk of the tables in memory.
- The device window: page_init frees every frame up to npage, so frames are treated as RAM.
- page_check, env_check, unimplemented system calls, sys_putchar, sys_getenvid, sys_set_pgfault_handler, user demo programs and makefiles.
