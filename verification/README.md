# Verified models of the JOS kernel, fisopfs, the shell and the prime sieve

A Dafny 4.11 project that models the hard parts of this repository and proves
their properties. `dafny verify dfyconfig.toml` checks all of it.

## What is modelled

| files | system |
|---|---|
| `Common`, `Mmu`, `Entries`, `PageTables`, `Pmap`, `LostPage` | physical pages, reference counts and two-level page tables of the kernel: a class over the memory itself, refined to flat maps |
| `Cow`, `ForkLib` | copy-on-write fork: a state machine of all address spaces, its refinement of eager copying, and `fork`, `duppage` and `pgfault` on the kernel model |
| `Sched`, `Starvation`, `Priorities`, `RoundRobin` | both schedulers, optimal selection, starvation freedom with an explicit bound, bounded waiting |
| `EnvStatus`, `Lifecycle`, `Statuses`, `DoubleRun`, `Ipc` | several CPUs, the big kernel lock and environment statuses, every step of every CPU; on top of it the IPC rendezvous |
| `EnvIds` | generation-stamped environment ids and the free list |
| `Upcall` | the frame that a user page fault pushes and the assembly that unwinds it, byte by byte, nested to any depth |
| `SieveStreams`, `Sieve`, `SieveOutput` | the prime sieve as a network of processes and bounded pipes, and what of its printing reaches the output |
| `Paths`, `FsTree`, `FsData` | fisopfs: the inode table as a tree, and file contents as byte sequences |
| `ShellParse`, `ShellExec`, `ShellWords` | pipelines: from the line buffer, and from the words typed, to the arguments and descriptor table of every process |
| `Stab`, `Numbers` | the binary search over debugging symbols; printing and reading numbers |

Code that changes state is a class with methods proved against specification
functions. Concurrent code is a state machine over atomic steps, with theorems
about every run. Clocks, devices, `getenv` and other unseen calls are parameters.

## Where the code and its documentation differ, and what the code relies on

Each of these is a lemma, an `ensures` in both directions, or a precondition.

- `pgfault` tests `(err & FEC_WR) & !(pte & PTE_COW)`, which is always zero
  (`CowTestNeverFires`), so it copies every page it is called for, also read-only
  ones (sched/lib/fork.c:28).
- The first exception frame lies one byte below a word boundary, at
  UXSTACKTOP-53, because exstk_top is UXSTACKTOP-1. For the three stack pointers
  from UXSTACKTOP to UXSTACKTOP+2 the scratch word overlaps the frame and the
  return is wrong (`ReturnsExactlyOffTheEdge`).
- `sys_env_set_status` checks nothing about the target. That it is NOT_RUNNABLE is
  not enough: waking an environment that is still receiving ends with it on two
  CPUs (`WakingAReceiverRunsItTwice`). `GuardIsNeeded` gives the exact condition.
- `sys_ipc_recv` with an invalid address, UTOP and above included although its
  comment allows it, returns an error but leaves the environment receiving; the
  next send to it ends with it on two CPUs (`InvalidReceiveRunsItTwice`).
- The round-robin scan leaves the table exactly from slot NENV-1.
- `sys_set_priority` accepts negative values; below -1 an environment is not
  eligible until boosts bring it back. The boost is +5, not +1 as sched/sched.md
  has it.
- `env_page_alloc` does not give its page back when `page_insert` fails: it loses
  the last free page exactly when a page table is missing (`EnvPageAlloc`,
  `AllocationLosesThePage`).
- `sys_page_map` adds permission bits and checks none, and `page_insert` or-s them
  all into the entry: the entry names the page, and its count is right, if and only
  if the permissions have no bits above the twelfth but those of the page's own
  address (`PageInsert`, `EnvPageMap`, `EntryOfAnotherPage`).
- `pgfault` reads the page that it copies, so at an unmapped page it faults again.
- What the stages of the sieve have printed is copied by each fork as long as it is
  in a buffer: the output is right if and only if no stage forks with anything in
  its buffer (`OutputIsThePrimes`); with full buffering for n = 2 it shows 2 twice
  (`TwoComesOutTwice`).
- `fisopfs_unlink` does not lower the link count of the directory, so an empty
  directory from which a file was unlinked cannot be removed
  (`EmptyDirectoryStays`); `inodes_amount` never falls, so creation fails for good
  after 255 creations. Creation checks nothing about the parent: the tree is kept
  if and only if it is an existing directory (`CreateEntry`).
- `fisopfs_write` clears the hole before it checks the size: for offsets above
  MAX_DATA it clears what follows the buffer.
- `stab_binsearch` goes on for addr + 1 after an exact match. It brackets addr if and
  only if no entry at addr + 1 is then still ahead (`BinSearch`, `NeighbourIsFound`).
  Its comment promises left > right when addr is in no region; it gives that only
  without any entry of the type.
- A line that ends in pipes is parsed without them; an empty segment before a
  nonempty one gives a tree with a null pointer (`NullsAreGaps`). The process
  that waits for a pipe keeps the read end of the pipe before it open.
- A word with > after its second character, like `ls>out`, is dropped whole
  (`WordsMeanCommand`). An & after 2>&1 does not put the command into the background
  but is passed to the program (`BackgroundIsLost`).
- A negative number padded by spaces is not read back, as the sign comes first.

## Model

| member | source | states |
|---|---|---|
| Mmu.AddressSplit | sched/inc/mmu.h:29-45 | PDX, PTX and PGOFF split a linear address without loss, PGADDR puts it together again, and an address is below UTOP exactly when its directory index is below PDX(UTOP) |
| Mmu.AddressBuild | sched/inc/mmu.h:29-45 | the three parts of a built address are the ones it was built from |
| Entries.OrKeeps | sched/kern/pmap.c:501 | or-ing bits to a word leaves it as it is if and only if it has all of them |
| Entries.EntryIsOr | sched/kern/pmap.c:501 | the stored entry is the bitwise or of the page's address, the permission argument and PTE_P, field by field |
| Entries.EntryOfAnotherPage | sched/kern/syscall.c:293 | for the page at frame 2 and permissions 0x1007 the entry names frame 3 |
| Entries.WithPUIsOr | sched/kern/syscall.c:293 | what sys_page_map passes on is its argument with PTE_P and PTE_U or-ed to it |
| PageTables.SpaceAfterPteStore | sched/kern/pmap.c:412-429 | a store into one table entry changes one address space at one virtual page, and no other space, because tables are never shared |
| PageTables.SpaceAfterStoreAt | sched/kern/pmap.c:489-568 | the same by virtual address: a nonzero entry is a map update, zero a deletion |
| PageTables.SpaceAfterEmptyTable | sched/kern/pmap.c:412-429 | installing a zeroed page table changes no address space |
| PageTables.SpaceAfterNewDir | sched/kern/env.c:161-195 | a new page directory shows an empty user space and leaves the others as they are |
| PageTables.SpaceDependsOnTables | sched/kern/pmap.c:412-429 | a flat map depends only on its own directory and tables, so other stores cannot change it |
| PageTables.MappedIsData | sched/kern/pmap.c:489-568 | every page that an address space shows is a counted data page |
| PageTables.SoundAfterAlloc | sched/kern/pmap.c:346-360 | taking a page off the free list keeps every count exact; the page is in transit |
| PageTables.SoundAfterHold | sched/kern/pmap.c:499 | counting a page before its mapping is stored keeps counts exact, given the reference that the kernel holds meanwhile |
| PageTables.SoundAfterMap | sched/kern/pmap.c:501-503 | storing the held reference into an empty entry keeps every count exact |
| PageTables.UnsoundAfterStrayMap | sched/kern/pmap.c:499-502 | an entry that does not name the page counted for it leaves the count of that page one too high |
| PageTables.SoundAfterUnmap | sched/kern/pmap.c:563-565 | clearing an entry and uncounting its page keeps every count exact, and the page becomes free exactly when this was its last reference |
| PageTables.SoundAfterNewTable | sched/kern/pmap.c:412-429 | installing a page table keeps counts and table structure |
| PageTables.SoundAfterNewDir | sched/kern/env.c:161-195 | setting up a page directory keeps counts and table structure |
| PageTables.SoundAfterDropTable | sched/kern/env.c:439-441 | dropping an emptied page table keeps counts and frees it |
| PageTables.SoundAfterDropDir | sched/kern/env.c:444-447 | dropping an emptied page directory keeps counts and frees it |
| PageTables.SoundAfterDataStore | sched/lib/fork.c:42 | a store of a program into one of its pages changes no mapping and no count |
| PageTables.SoleReference | sched/kern/env.c:408-454 | a page table or directory has exactly one reference, the one it was made for |
| PageTables.ReferencesAreMappings | sched/kern/pmap.c:383-388 | the references to a data page are in bijection with the virtual pages that show it, over all address spaces |
| PageTables.CountIsMappings | sched/kern/pmap.c:383-388 | pp_ref of a data page is the number of (address space, virtual page) pairs that map it |
| Pmap.InitialFreeMembers | sched/kern/pmap.c:291-332 | the free list that page_init builds holds exactly the allocatable pages |
| Pmap.InitialFreeDecreases | sched/kern/pmap.c:291-332 | and holds them in decreasing order |
| Pmap.AllocatableIsOrdinary | sched/kern/pmap.c:312-331 | by physical addresses: the allocatable pages are those without a byte in page 0, the start-up code at 0x7000, the I/O hole, or the kernel from 1 MB to the end of boot_alloc |
| Pmap.ReservedIsUnused | sched/kern/pmap.c:312-331 | a page that page_init left out is never free, referred to or mapped, as every operation keeps it left out |
| Pmap.CheckPermIsMask | sched/kern/syscall.c:17-24 | check_perm accepts exactly the words with PTE_U and PTE_P and nothing but PTE_SYSCALL |
| Pmap.Machine.PageInit | sched/kern/pmap.c:291-332 | the loop builds that list and establishes the memory invariant, with every count zero |
| Pmap.Machine.PageAlloc | sched/kern/pmap.c:346-360 | pops the head of an acyclic, duplicate-free list; fails exactly when it is empty; zeroes the page on request; no address space changes |
| Pmap.Machine.PageFree | sched/kern/pmap.c:366-377 | pushes an uncounted page; both panics are out of reach |
| Pmap.Machine.PageDecref | sched/kern/pmap.c:383-388 | one count less, and free exactly at zero |
| Pmap.Machine.PgdirFind | sched/kern/pmap.c:412-429 | pgdir_walk without create: finds the entry exactly when the table exists; the page is mapped exactly when the entry is nonzero |
| Pmap.Machine.PgdirWalk | sched/kern/pmap.c:412-429 | pgdir_walk with create: fails exactly without table and memory, then changes nothing; a new table changes no address space |
| Pmap.Machine.Install | sched/kern/pmap.c:412-429 | the new table is counted once and named by its directory entry with P, W and U |
| Pmap.Machine.PageLookup | sched/kern/pmap.c:518-532 | map lookup; the nonzero test is a presence test since nonzero entries always carry PTE_P |
| Pmap.Machine.PageRemove | sched/kern/pmap.c:549-568 | map deletion in one space; the page loses one count and goes to the free list with its last; nothing at all changes for an unmapped address |
| Pmap.Machine.Replace | sched/kern/pmap.c:489-505 | page_insert once the table is there: counting before removing is safe also for the same page at the same address; the counts stay exact if and only if the stored entry names the page |
| Pmap.Machine.PageInsert | sched/kern/pmap.c:489-505 | for every permission argument: map update in one space, or, exactly when a table is missing and memory is out, no change at all; the counts stay exact if and only if the argument has no frame bits beyond those of the page |
| Pmap.Machine.EnvPageAlloc | sched/kern/syscall.c:46-58 | each result exactly in its case: a fresh zeroed page mapped, bad permissions, or out of memory; the allocated page is lost, in transit for good, exactly when it was the last free page and a table was missing |
| Pmap.Machine.EnvPageMap | sched/kern/syscall.c:61-73 | shares the page behind an address, refusing exactly unmapped sources, added write access and a missing table without memory, and then changing nothing; the counts stay exact if and only if the permissions have no frame bits beyond those of the page |
| Pmap.Machine.EnvSetupVm | sched/kern/env.c:161-195 | a counted directory with an empty user space, the kernel half of kern_pgdir, and itself at UVPT |
| Pmap.Machine.FlushTable | sched/kern/env.c:433-437 | the inner loop of env_free empties one table and releases only data pages |
| Pmap.Machine.DropTable | sched/kern/env.c:439-441 | the table goes back to the free list and its directory entry is zero |
| Pmap.Machine.EnvFree | sched/kern/env.c:408-454 | gives back exactly the pages that only this address space referred to; every other space, and every remaining page, is unchanged |
| Pmap.FreedExactly | sched/kern/env.c:408-454 | after the teardown a page is free exactly when it was free or only the environment held it |
| Pmap.RefsOfOthers | sched/kern/env.c:408-454 | the references left are precisely those that the environment did not own |
| Pmap.FreeListAfterPop | sched/kern/pmap.c:346-360 | popping keeps the list linked, duplicate-free and equal to the free pages |
| Pmap.FreeListAfterPush | sched/kern/pmap.c:366-377 | pushing keeps the list linked, duplicate-free and equal to the free pages |
| LostPage.TransitIsUnreachable | sched/kern/syscall.c:46-58 | a page in transit between kernel calls is not free, not counted and mapped by nobody |
| LostPage.AllocationLosesThePage | sched/kern/syscall.c:46-58 | a run from boot, with three pages, that loses a page this way |
| Cow.DupStep | sched/lib/fork.c:61-96 | sharing a page is, to everybody, a copy of it; the invariant of private writable pages is kept |
| Cow.StoreStep | sched/lib/fork.c:61-96 | a store through a writable mapping shows at that page and nowhere else |
| Cow.PfAllocStep | sched/lib/fork.c:37-39 | first fault step: the scratch page appears, nobody sees a change |
| Cow.PfCopyStep | sched/lib/fork.c:41-42 | second fault step: the copy shows nowhere |
| Cow.PfMapStep | sched/lib/fork.c:43-44 | third fault step: replacing the shared page by its copy shows nowhere |
| Cow.PfUnmapStep | sched/lib/fork.c:46-47 | last fault step: the copy is private and writable again |
| Cow.ExoforkStep | sched/kern/syscall.c:137-160 | a new environment has an empty memory and changes no other |
| Cow.NewExStackStep | sched/lib/fork.c:239-242 | the child gets an exception stack of its own, invisible to programs |
| Cow.AllocStep | sched/kern/syscall.c:230-249 | a page allocation is a zero page in the specification too |
| Cow.UnmapStep | sched/kern/syscall.c:303-318 | an unmap removes one page of one environment |
| Cow.ExitStep | sched/kern/env.c:408-454 | an exit removes one environment and changes nothing for the rest |
| Cow.StackStoreStep | sched/lib/fork.c:224-227 | stores to an exception stack stay private since fork never shares it |
| Cow.StepRefines | sched/lib/fork.c:14-96 | every step keeps the invariant and is a step of the eager-copy specification |
| Cow.RunKeepsInv | sched/lib/fork.c:14-96 | the invariant holds in every state of every run |
| Cow.CowRefinesEagerCopy | sched/lib/fork.c:14-251 | over any interleaving of forks, stores, fault steps, allocations, unmaps and exits, what every environment reads is what it would read had fork copied every page |
| Cow.TwoMapsAreDup | sched/lib/fork.c:80-87 | the two system calls of duppage are together one sharing step |
| Cow.OneMapIsDup | sched/lib/fork.c:88-92 | the one call for a read-only page is one sharing step |
| Cow.CallsArePgfault | sched/lib/fork.c:37-47 | the effects of the system calls of pgfault are its four steps |
| Cow.ForkStarts | sched/lib/fork.c:211 | after sys_exofork the child sees nothing and nobody else sees a change |
| Cow.ForkShares | sched/lib/fork.c:225-237 | each duppage extends what the child sees by one page of the parent |
| Cow.ForkSkips | sched/lib/fork.c:225-237 | the pages that the loop skips are pages the parent does not see |
| Cow.ForkEnds | sched/lib/fork.c:239-242 | at the end the child sees exactly what the parent sees |
| ForkLib.ReadPte | sched/lib/fork.c:229-235 | reading uvpt is a lookup in the flat map |
| ForkLib.SysPageMap | sched/kern/syscall.c:267-294 | refused exactly for unmapped sources and added write access; the new mapping shows the page, with exact counts, if and only if the permission argument has no frame bits beyond those of the page |
| ForkLib.SysPageAlloc | sched/kern/syscall.c:230-249 | on the kernel model, sys_page_alloc is the allocation step, or memory is out |
| ForkLib.SysPageUnmap | sched/kern/syscall.c:303-318 | on the kernel model, sys_page_unmap deletes one mapping and keeps all contents |
| ForkLib.CopyPage | sched/lib/fork.c:42 | memmove makes one page equal to another and changes nothing else |
| ForkLib.DupPerm | sched/lib/fork.c:73-80 | the copies are read-only user pages, marked copy-on-write if and only if the page is writable or copy-on-write, and with both cache bits if and only if the page has one of them |
| ForkLib.Duppage | sched/lib/fork.c:61-96 | duppage on the kernel model is one sharing step of the machine |
| ForkLib.CowTestNeverFires | sched/lib/fork.c:28 | the test for write faults on other pages is zero for every error code and entry, and differs from the logical test exactly on such faults |
| ForkLib.Pgfault | sched/lib/fork.c:14-48 | on the kernel model: a run of the four fault steps for a mapped page, a panic only without memory, and for an unmapped page a second fault at the same page |
| ForkLib.SysExofork | sched/kern/syscall.c:137-160 | env_setup_vm gives the child an empty memory in the machine |
| ForkLib.ShareAll | sched/lib/fork.c:225-237 | the loop over all pages shares exactly the pages the parent sees |
| ForkLib.Fork | sched/lib/fork.c:206-251 | the child reads at every page with PTE_U what the parent reads, no other environment sees a difference, the child has a writable exception stack, and failure means memory is out |
| Cow.InheritedIsAll | sched/lib/fork.c:225-237 | for a parent whose pages all carry PTE_U that is everything the parent reads |
| ForkLib.StoreWord | sched/lib/fork.c:61-96 | a store of a program on the kernel model is a store step of the machine |
| ForkLib.ExitEnv | sched/kern/env.c:408-454 | env_free on the kernel model is the exit step of the machine |
| ForkLib.AllocPage | sched/kern/syscall.c:230-249 | sys_page_alloc of a program is the allocation step of the machine |
| ForkLib.UnmapPage | sched/kern/syscall.c:303-318 | sys_page_unmap of a program is the unmap step of the machine |
| Sched.ChoiceIsUnique | sched/kern/sched.c:72-90 | priority, runs and circular distance leave exactly one choice |
| Sched.CallConserves | sched/kern/sched.c:86-105 | work conservation: a call leaves the CPU without an environment if and only if nothing is eligible and its own is not running; with nothing eligible its own running one goes on |
| Sched.CallRuns | sched/kern/env.c:512-521 | after a call the CPU's environment is running and has run once more, one that was running here and lost the CPU is runnable, and no other status or count changes |
| Sched.CallPriorities | sched/kern/sched.c:51-99 | every 20th call adds five to the runnable environments below five; then the one picked loses one unless at zero or below; no other priority changes |
| Sched.CallPicks | sched/kern/sched.c:71-90 | the one picked has the highest priority, then the fewest runs, then comes first going around the table from the place after the CPU's own |
| Sched.TurnConserves | sched/kern/sched.c:19-49 | round robin: the CPU is left without an environment if and only if no other one is runnable and its own is not running; else it runs the one found or goes on with its own |
| Sched.TurnRuns | sched/kern/sched.c:19-49 | and the statuses and run counts after it |
| Sched.TurnPicks | sched/kern/sched.c:19-41 | the one chosen comes first going around the table from the place after the CPU's own |
| Sched.Scheduler.ImprovePriorities | sched/kern/sched.c:51-60 | the boost loop raises exactly the runnable environments below 5 |
| Sched.Scheduler.EnvRun | sched/kern/env.c:495-533 | the old environment becomes runnable if it was running, the new one runs once more, other CPUs keep theirs |
| Sched.Scheduler.Scan | sched/kern/sched.c:72-90 | the circular scan finds nothing exactly when nothing eligible exists, and otherwise the unique preferred environment |
| Sched.Scheduler.SchedWithPriority | sched/kern/sched.c:62-106 | one call: boost every 20th time, scan, lower the priority of the choice, run it; else keep the current one if it is running, or halt; the CPU is left without one exactly when neither is there |
| Sched.Scheduler.RoundRobinScan | sched/kern/sched.c:19-41 | terminates; finds the nearest other runnable environment; leaves the table exactly when the current environment is in slot NENV-1 |
| Sched.Scheduler.SchedRoundRobin | sched/kern/sched.c:19-49 | one call: the scan, then the choice, the current environment, or a halt |
| RoundRobin.TurnNearer | sched/kern/sched.c:19-49 | a turn given to another brings a waiting environment strictly nearer and keeps the next scan inside the table |
| RoundRobin.WaitWithin | sched/kern/sched.c:19-49 | an environment that waits until it is chosen is chosen within its circular distance, in runs of any length |
| RoundRobin.BoundedWaiting | sched/kern/sched.c:19-49 | an environment that stays runnable until it is chosen is chosen within NENV calls on one CPU without exits, with nothing running in slot NENV-1 |
| RoundRobin.AWaitThatEnds | sched/kern/sched.c:19-49 | such runs, longer than the bound, exist: here the environment waits for one turn |
| Starvation.BoostKeepsWeight | sched/kern/sched.c:51-60 | a boost does not change how much an environment is in the way |
| Starvation.PassedOver | sched/kern/sched.c:62-106 | every call that passes over a waiting environment of priority 5 or more lowers the ranking |
| Starvation.OneWait | sched/kern/sched.c:62-106 | whatever the others do between calls, the bound does not grow |
| Starvation.OneWaitAbove | sched/kern/sched.c:62-106 | a call and the time to the next lower the ranking |
| Starvation.LimitFalls | sched/kern/sched.c:62-106 | below priority 5 each call brings the next boost nearer |
| Starvation.RankBound | sched/kern/sched.c:51-106 | the ranking is at most 6 * runs + 11 for each other live environment |
| Starvation.AllowanceIsProduct | sched/kern/sched.c:51-106 | the allowance in closed form |
| Starvation.WaitBound | sched/kern/sched.c:51-106 | a wait is never longer than the time to the boost and the allowance |
| Starvation.NoStarvation | sched/kern/sched.c:51-106 | an environment that stays runnable until it is picked is picked within 20 + (live others) * (6 * runs + 11) calls, on any CPUs, whichever others block, wake, run or exit |
| Starvation.AWaitThatEnds | sched/kern/sched.c:51-106 | such runs, longer than the bound, exist: here the environment is passed over once |
| Priorities.RangeKeptUnlessNegative | sched/kern/syscall.c:441-453 | every scheduling, creation, fork and status event keeps priorities in 0..10; sys_set_priority does exactly when its argument is not negative |
| Priorities.HistoryInRange | sched/kern/sched.c:51-106 | priorities stay in 0..10 over any history without negative settings |
| Priorities.ChildInherits | sched/kern/syscall.c:150-156 | a child begins with its parent's priority, no runs, and not runnable |
| Priorities.CreatedAndSet | sched/kern/syscall.c:441-453 | environments of the kernel start at priority 10, and sys_set_priority only ever lowers one |
| Priorities.TopIsLost | sched/kern/sched.c:51-60 | over any history: once no live environment has the top priority none gets it again, however often it forks and boosts come, unless the kernel creates one |
| Priorities.SelectionIsOptimal | sched/kern/sched.c:62-99 | in any such history the choice is a runnable environment of highest priority, then fewest runs, then nearest; none exactly when nothing is runnable |
| Lifecycle.RunStep | sched/kern/env.c:495-533 | env_run keeps the invariant |
| Lifecycle.OutsideStep | sched/kern/spinlock.c:60-79 | traps, timer interrupts and the atomic exchange keep it; the exchange lets one CPU in |
| Lifecycle.UnlockIdle | sched/kern/sched.c:187-202 | halting and releasing the lock keeps it |
| Lifecycle.ZombieKeepsInv | sched/kern/trap.c:267-278 | freeing a zombie on entry keeps it |
| Lifecycle.StatusCallKeepsInv | sched/kern/env.c:461-478 | guarded status changes, destruction and exofork keep it |
| Lifecycle.OtherCallKeepsInv | sched/kern/syscall.c:359-429 | receive, send, yield and other calls keep it |
| Lifecycle.ExitKeepsInv | sched/kern/trap.c:291-301 | every way out of the kernel keeps it |
| Lifecycle.GuardedStepKeepsInv | sched/kern/trap.c:244-301 | every step of every CPU under the guard keeps the invariant |
| Lifecycle.GuardIsNeeded | sched/kern/syscall.c:169-189 | a step keeps the invariant if and only if it meets the guard: no status for an environment running elsewhere, no waking of a receiver, no second destruction, a valid receive address |
| Lifecycle.NeverOnTwoCpus | sched/kern/sched.c:156-202 | over every interleaving at most one CPU holds the lock, no environment is current on two CPUs, and outside the lock only running or dying ones are |
| Statuses.OthersKeepTheirs | sched/kern/syscall.c:137-429 | an action changes at most the environment that it names and the current one of its CPU, and no other CPU |
| Statuses.TargetStatus | sched/kern/syscall.c:137-189 | what the named environment is after a call: a child not runnable, a receiver of a message runnable, a set status as given, a destroyed one dying if and only if it runs on another CPU; all others as before |
| Statuses.CallerStatus | sched/kern/syscall.c:417-429 | a valid receive blocks the caller, any marks it as receiving, and the other calls change no environment |
| Statuses.CallReturns | sched/kern/trap.c:294-301 | after a call that does not give up the CPU the caller itself runs again, running, with the lock released |
| Statuses.GivingUpChooses | sched/kern/sched.c:86-105 | after one that does, the scheduler can pick exactly the runnable environments, and the caller if it yielded; it can halt unless the caller yielded |
| Statuses.PickedRuns | sched/kern/env.c:495-533 | what is picked runs in user mode with the lock released, and the one that ran before is runnable |
| Statuses.TrapEnters | sched/kern/trap.c:265-285 | a trap leads, once the lock is free, into the kernel with the environment that ran, or to the end of a dying one |
| Statuses.TimerSchedules | sched/kern/trap.c:256-259 | a timer interrupt takes a halted CPU into the scheduler, and halting again restores the state |
| Statuses.NoCpuIsStuck | sched/kern/trap.c:244-301 | in every state of the invariant each CPU has something that it can do next |
| Statuses.ChildWaitsForFork | sched/kern/syscall.c:137-160 | over every interleaving: from sys_exofork until it is set runnable a child is not runnable, runs on no CPU, and no scheduler can pick it |
| DoubleRun.WakingAReceiverRunsItTwice | sched/kern/syscall.c:169-189 | a concrete run: waking a receiving environment, although it is NOT_RUNNABLE, ends with it on both CPUs after the next send |
| DoubleRun.AsleepIsReached | sched/kern/syscall.c:409-429 | the state in which that happens is reached from the start |
| DoubleRun.InvalidReceiveRunsItTwice | sched/kern/syscall.c:409-429 | in a state reached from the start, a receive with an invalid address breaks the invariant, and after the next send the receiver runs on both CPUs |
| Ipc.KernelKeepsBoxes | sched/kern/syscall.c:359-429 | through every kernel step a receiving environment is inside ipc_recv |
| Ipc.KernelDelivers | sched/kern/syscall.c:395-403 | a kernel step adds to what an environment gets exactly the sends to it: the sender is the environment current on the CPU of the call, the value the one passed |
| Ipc.ReaderIsAwake | sched/lib/ipc.c:22-38 | a program past its receive has been sent to |
| Ipc.ExactlyOnceInOrder | sched/kern/syscall.c:359-429 | over any run what an environment received, senders and values, is the list of successful sends among the events since it was created, in order, but for at most one pending message; while it waits there is none |
| Ipc.ReadMatchesSend | sched/lib/ipc.c:22-38 | each return of ipc_recv hands over exactly the latest successful send among the events, its sender and its value, and nothing else is outstanding |
| EnvIds.IdsFollow | sched/kern/env.c:219-223 | env_alloc's arithmetic, wrap-around included, takes the k-th id of a slot to the next |
| EnvIds.IdsTellTheirSlot | sched/inc/env.h:28-30 | ids are positive and ENVX recovers the slot |
| EnvIds.IdsRepeatByCycle | sched/kern/env.c:219-223 | two ids of a slot are equal exactly when their allocations are a multiple of 2^19-1 apart |
| EnvIds.EnvTable.constructor | sched/kern/env.c:114-128 | all slots are free, in order |
| EnvIds.EnvTable.Alloc | sched/kern/env.c:205-266 | hands out the head of the free list with its k-th id; without slot or memory nothing changes |
| EnvIds.EnvTable.Free | sched/kern/env.c:449-453 | the slot goes to the front of the list and keeps its id |
| EnvIds.EnvTable.Envid2Env | sched/kern/env.c:72-106 | accepts exactly ids of live environments that the caller may manage; zero is the caller |
| EnvIds.EnvTable.StaleIdsAreRejected | sched/kern/env.c:72-106 | an id names no environment but the one in its slot, and a stale id none, until 2^19-1 reallocations of the slot |
| EnvIds.EnvTable.OnlyParentAndItself | sched/kern/env.c:97-102 | a live environment may be managed by the live environment that created it and by itself, and by no other |
| Upcall.PushedLayout | sched/kern/trap.c:353-374 | by offsets: the fault address at 0, the error code at 4, the registers in the order of pusha from 8 on, eip at 40, eflags at 44 and esp at 48 of the frame, which lies 56 bytes below the stack pointer or 53 below the top of the exception stack |
| Upcall.PushedHolds | sched/kern/trap.c:346-368 | after the push the frame lies at its base, word by word, at any alignment |
| Upcall.PushedKeepsOthers | sched/kern/trap.c:346-368 | a recursive push touches nothing from the trap-time stack pointer up |
| Upcall.UnwindRestores | sched/lib/pfentry.S:34-91 | unwinding an intact frame restores all registers, eip, eflags and esp |
| Upcall.UnwindKeepsOthers | sched/lib/pfentry.S:34-91 | unwinding writes only the scratch word and the last word of the frame |
| Upcall.ClearUnlessAtEdge | sched/kern/trap.c:361-368 | the scratch word misses the frame exactly off the top edge of the exception page |
| Upcall.FaultReturns | sched/kern/trap.c:346-377 | push, any handler that leaves the frame alone, and unwind give back the trap-time context |
| Upcall.ReturnsExactlyOffTheEdge | sched/kern/trap.c:361-368 | this works for every context with a given esp if and only if esp is not one of the three at the top edge |
| Upcall.NestedFaultsReturn | sched/lib/pfentry.S:34-91 | at any nesting depth that fits, every fault returns to its context and no outer frame is touched |
| Upcall.ProgramResumes | sched/kern/trap.c:346-377 | from a first fault on the program's stack, with any nesting below it, the program resumes where it was |
| Upcall.Machine.PageFault | sched/kern/trap.c:346-387 | resumes in the upcall, panics exactly on overflow (after the write), or destroys exactly without upcall or stack |
| Upcall.Machine.FaultToHandler | sched/lib/fork.c:17-18 | the first two words that pgfault reads through its pointer are the fault address and the error code |
| Upcall.Machine.PushEip | sched/lib/pfentry.S:67-72 | eip goes below the trap-time stack, and the frame remembers where |
| Upcall.Machine.PopAllRegisters | sched/lib/pfentry.S:76-78 | popal takes the registers in pusha order, skipping esp |
| Upcall.Machine.SwitchStack | sched/lib/pfentry.S:84-91 | popfl, popl %esp and ret take eflags, esp and eip from the frame and the trap-time stack |
| Upcall.Machine.Return | sched/lib/pfentry.S:67-91 | the instructions together are the unwinding that the round trip is proved of |
| SieveStreams.TotalMembers | fork/primes.c:60-67 | a stage reads exactly the numbers that no earlier stage divides |
| SieveStreams.FirstIsPrime | fork/primes.c:38-43 | what a stage prints is prime |
| SieveStreams.PrimeIsHeld | fork/primes.c:38-43 | once a stage reads nothing, every prime up to n has been printed |
| SieveStreams.HeldArePrimes | fork/primes.c:34-79 | the stages print the primes up to n, increasing and once each |
| SieveStreams.TotalShrinks | fork/primes.c:60-67 | each stage forwards a strictly shorter stream with a larger first number |
| Sieve.ReadKeepsInv | fork/primes.c:38-67 | reads keep the invariant on streams, pipes and open ends |
| Sieve.ForkKeepsInv | fork/primes.c:45-57 | creating the next pipe and stage keeps it |
| Sieve.WriteKeepsInv | fork/primes.c:61-66 | forwarding a number keeps it |
| Sieve.StepKeepsInv | fork/primes.c:34-119 | every step of every process keeps it |
| Sieve.StageGetsItsStream | fork/primes.c:34-79 | at any time a stage has a prefix of its stream, and all of it once its pipe has no writer |
| Sieve.PrintedSoFar | fork/primes.c:43 | at any time the numbers passed to printf are a prefix of the primes |
| Sieve.FinishedPrintsPrimes | fork/primes.c:34-119 | when all have exited the numbers passed to printf are exactly the primes |
| Sieve.NoDeadlock | fork/primes.c:34-119 | while not finished, some process can move, with pipes of any positive capacity |
| Sieve.StepAdvances | fork/primes.c:34-119 | every step makes progress |
| Sieve.ProgressLimit | fork/primes.c:34-119 | progress is bounded, as the chain has at most one stage more than there are numbers |
| Sieve.SievePrintsPrimes | fork/primes.c:34-119 | every interleaving ends within the limit, has passed only primes to printf, in order, and, when it cannot go on, exactly the primes up to n |
| SieveOutput.RunConserves | fork/primes.c:43-50 | what is written and what lies in buffers is, at any time, what was printed and what forks have copied |
| SieveOutput.OutputIsThePrimes | fork/primes.c:34-119 | with any buffering: every printed number comes out once and once more for each fork that copied it; the output is the primes up to n, increasing and once each, if and only if no stage forks with something in its buffer |
| SieveOutput.LineBufferedPrintsPrimes | fork/primes.c:43 | with line buffering the output is exactly the primes up to n |
| SieveOutput.CopiesWhenFull | fork/primes.c:43-50 | without any flush each live stage has all in its buffer that it and those before it have printed |
| SieveOutput.FullyBufferedRepeats | fork/primes.c:43-50 | with full buffering the prime with index j of p comes out p - j + 1 times |
| SieveOutput.TwoComesOutTwice | fork/primes.c:43-50 | a run for n = 2 that writes 2 twice |
| Paths.SplitJoin | fisopfs/fs.c:18-42 | name and parent path of a path put it together again; the parent path is shorter |
| Paths.SplitInjective | fisopfs/fs.c:131-148 | comparing name and parent path is comparing paths |
| Paths.DepthOfChild | fisopfs/fisopfs.c:126-144 | an entry is one deeper than its parent |
| Paths.PathDepth | fisopfs/fisopfs.c:126-144 | the loop counts the names of the path |
| FsTree.CreatedIsTree | fisopfs/fs.c:110-128 | creation in an existing directory keeps unique paths, existing parents, exact link counts and the depth bound |
| FsTree.OrphanIsNoTree | fisopfs/fs.c:110-128 | creation anywhere else leaves an orphan |
| FsTree.RemovedDirIsTree | fisopfs/fisopfs.c:191-194 | removing a directory without links to spare keeps the tree: nothing is orphaned |
| FsTree.RemovedFileIsTree | fisopfs/fisopfs.c:288-290 | removing a file keeps the tree; its directory keeps a link too many, which is accounted for |
| FsTree.ChildlessHasNone | fisopfs/fisopfs.c:183-186 | a directory with at most two links has no entries |
| FsTree.CreatedEntries | fisopfs/fs.c:110-128 | creation adds exactly one path |
| FsTree.CreatedInodes | fisopfs/fs.c:40-71 | the new inode has the path, kind and owner asked for and one or two links, its directory one link more, and all others are unchanged |
| FsTree.RemovedEntries | fisopfs/fisopfs.c:169-195 | removal takes away exactly one path |
| FsTree.ConnectedToRoot | fisopfs/fs.c:73-148 | every entry is connected to the root by as many steps as its path is deep |
| FsTree.ListingIsExact | fisopfs/fisopfs.c:86-92 | readdir names each entry of a directory exactly once |
| FsTree.ListingMembers | fisopfs/fisopfs.c:86-92 | and nothing else |
| FsTree.MatchIsPath | fisopfs/fs.c:131-148 | what lookup compares identifies the path |
| FsTree.RmdirStatusAt | fisopfs/fisopfs.c:183-190 | the link count decides: not empty exactly with entries or with files unlinked earlier |
| FsTree.RmdirMeans | fisopfs/fisopfs.c:183-190 | rmdir of a directory answers not empty if it has an entry or has lost a file to unlink, the root included, else not permitted for the root, else success |
| FsTree.EmptiedStays | fisopfs/fisopfs.c:183-186 | unlinking the only entry of any directory leaves it empty and refused by rmdir |
| FsTree.EmptyDirectoryStays | fisopfs/fisopfs.c:169-195 | a run from a fresh file system that ends with an empty directory that rmdir refuses |
| FsTree.FileSystem.constructor | fisopfs/fs.c:151-161 | the initial table is a tree with the root alone |
| FsTree.FileSystem.Lookup | fisopfs/fs.c:131-148 | finds the entry with the path, or none when there is none |
| FsTree.FileSystem.FindFreeSlot | fisopfs/fs.c:6-15 | finds a free slot exactly when there is one |
| FsTree.FileSystem.AddInode | fisopfs/fs.c:74-92 | takes a free slot for a new path, links an existing one, or fails exactly when all are used |
| FsTree.FileSystem.ModifyNlink | fisopfs/fs.c:95-107 | changes the link count of exactly the entry with the path |
| FsTree.FileSystem.CreateEntry | fisopfs/fs.c:110-128 | fails exactly when 256 inodes have been made, otherwise creates; never runs out of slots before that; the tree is kept if and only if the parent is an existing directory |
| FsTree.FileSystem.Mkdir | fisopfs/fisopfs.c:146-158 | each outcome exactly in its case; the tree is kept if and only if nothing is made or the parent is an existing directory |
| FsTree.FileSystem.Create | fisopfs/fisopfs.c:160-167 | each outcome exactly in its case; the tree is kept if and only if nothing is made or the parent is an existing directory |
| FsTree.FileSystem.Rmdir | fisopfs/fisopfs.c:169-195 | never orphans an entry; refuses an empty directory exactly when a file was unlinked from it |
| FsTree.FileSystem.Unlink | fisopfs/fisopfs.c:270-291 | removes exactly the file, or refuses exactly directories and strangers |
| FsTree.FileSystem.ReadDir | fisopfs/fisopfs.c:67-94 | lists dot, dot-dot and, for a directory, its entries |
| FsData.ReadBack | fisopfs/fisopfs.c:96-123 | a read of a written range gives the bytes written |
| FsData.ReadsCompose | fisopfs/fisopfs.c:96-123 | reading in two steps is reading at once, also across the end of the file |
| FsData.ReadElsewhere | fisopfs/fisopfs.c:197-234 | other ranges read as before, and the hole as zeros |
| FsData.LastWriteWins | fisopfs/fisopfs.c:197-234 | a later write replaces an earlier one |
| FsData.CutAndGrow | fisopfs/fisopfs.c:236-268 | what truncation cuts off is zero when the file grows again |
| FsData.FileData.Read | fisopfs/fisopfs.c:96-123 | returns the bytes from the offset on, up to the size asked for or the end of the file |
| FsData.FileData.Write | fisopfs/fisopfs.c:197-234 | refines writing the byte sequence; a rejected write leaves it alone; in the memory around the buffer exactly the bytes between its end and an offset beyond it become zero |
| FsData.FileData.Truncate | fisopfs/fisopfs.c:236-268 | refines resizing the byte sequence; rejected exactly by size or owner; the memory around the buffer is left alone |
| ShellParse.ParsesToPiped | shell/parsing.c:206-223 | parse_line on any line joins the commands of its segments from the right |
| ShellParse.PipedIsNested | shell/parsing.c:206-223 | segments empty at most at the end of the line give the right-nested tree of the others, in order |
| ShellParse.NullsAreGaps | shell/parsing.c:206-223 | the tree is free of null commands if and only if no empty segment comes before a nonempty one |
| ShellParse.SegmentsOfJoin | shell/utils.c:4-20 | joining segments by pipes and splitting are inverse |
| ShellParse.TokensOfWords | shell/parsing.c:143-150 | words joined by single spaces are the tokens that parse_exec takes |
| ShellParse.WordsAreArguments | shell/parsing.c:132-168 | a command of plain words has exactly these as arguments, in order |
| ShellParse.ErrorsFollowOutput | shell/parsing.c:24-60 | 2>&1 after the words keeps the command in the foreground and sends its errors where the output goes |
| ShellParse.SplitLine | shell/utils.c:4-20 | cuts the text in the buffer at the pipe and skips spaces, leaving the rest of the buffer alone |
| ShellParse.FindChar | shell/utils.c:22-33 | the first position of a character, or -1 |
| ShellParse.GetToken | shell/parsing.c:4-20 | the characters up to a space or the end |
| ShellParse.ParseExec | shell/parsing.c:132-168 | the words of the text, each taken as redirection, environment setting or argument |
| ShellParse.ParseCmd | shell/parsing.c:170-204 | no command exactly for an empty text; a background command, cut at the first &, unless that directly follows >; else a simple command |
| ShellParse.ParseBack | shell/parsing.c:170-185 | cuts the text in the buffer at the first & and parses what comes before |
| ShellParse.ParseLine | shell/parsing.c:206-223 | in the buffer, the tree that the properties are proved of; only the line itself is overwritten |
| ShellExec.NestedIsChain | shell/parsing.c:206-223 | the nested tree is the chain of the segments' commands, in the background or not |
| ShellExec.LineIsChain | shell/parsing.c:206-223 | any line with empty segments at most at its end parses into the chain of its commands |
| ShellExec.CommandIsConnected | shell/exec.c:179-237 | command i runs with descriptors 0, 1 and 2 alone, reading the pipe of command i-1 and writing that of i+1 |
| ShellExec.WaiterIsConnected | shell/exec.c:228-237 | what the waiting processes keep open |
| ShellExec.PipeEndsAreHeldOnce | shell/exec.c:179-237 | after all closes a write end is held only by its command; a read end also by the process waiting for that command's pipe |
| ShellExec.RedirectionAddsNoPipes | shell/exec.c:143-173 | own redirections never open another pipe end |
| ShellExec.Process.HandleRedirection | shell/exec.c:92-107 | a named file replaces one standard stream and leaves no other descriptor |
| ShellExec.Process.Redirect | shell/exec.c:143-173 | input, output, then errors, with &1 following the output |
| ShellWords.WordsMeanCommand | shell/parsing.c:22-168 | any words: plain ones and the values of variables are the arguments in order, key=value ones the settings, the last file after >, < and 2> is where output, input and errors go, and a word with > further inside is dropped |
| ShellWords.KindOfWord | shell/parsing.c:22-168 | every word without a space is of one of these kinds |
| ShellWords.ForegroundCommand | shell/parsing.c:187-204 | with every & directly after a > the text is a foreground command, the one that its words mean |
| ShellWords.BackgroundCommand | shell/parsing.c:170-185 | an & as the last word, the only one, puts the command of the other words into the background |
| ShellWords.BackgroundIsLost | shell/parsing.c:199-201 | after 2>&1 it does not: the command stays in the foreground and gets the & as an argument |
| ShellWords.StreamsOfWords | shell/exec.c:143-173 | descriptors 0, 1 and 2 after the redirections: the last <file for reading, the last >file emptied, the last 2>file not emptied, 2>&1 where output goes, else as before |
| ShellWords.TypedPipeline | shell/exec.c:115-239 | from the text of a pipeline to its programs: each runs with the arguments of its words, between the pipes to its neighbours, with its own redirections on top |
| ShellExec.Process.ExecCmd | shell/exec.c:115-239 | pipe, fork, dup2 and close leave every process the descriptors that the properties are proved of |
| Stab.BinSearch | sched/kern/kdebug.c:59-106 | terminates for any table; left > right exactly without an entry of the type; on sorted entries it brackets addr if and only if the search does not go on past an exact match, and else the end of a run of entries at addr, addr + 1 and on |
| Stab.GoesOnNeedsNeighbour | sched/kern/kdebug.c:94-97 | it goes on only past an exact match with an entry at addr + 1 |
| Stab.ProbeShrinks | sched/kern/kdebug.c:64-98 | each turn shrinks the region or moves on from an exact match at its left end |
| Stab.NeighbourIsFound | sched/kern/kdebug.c:94-97 | with entries at addr and addr + 1 the answer for addr is the second one |
| Stab.NeighbourIsPassedBy | sched/kern/kdebug.c:94-97 | with one more entry behind them it is the first one |
| Stab.LastAddressWraps | sched/kern/kdebug.c:97 | after an exact match at 0xffffffff addr wraps around, and the region of the entry is missed |
| Stab.EmptyRegionMeansNoEntry | sched/kern/kdebug.c:101-104 | left > right exactly when there is no entry of the type at all |
| Stab.AnswerIsUnique | sched/kern/kdebug.c:59-106 | the bracket is unique |
| Stab.LastAtMost | sched/kern/kdebug.c:59-106 | over a whole sorted table without an entry right after an exact match: the last entry at or below addr, and the index before the next one |
| Numbers.Sink.PrintNum | sched/lib/printfmt.c:36-55 | in every base from 2 to 16: prints the digits padded to the width; the length is the larger of width and digit count |
| Numbers.Strtol | sched/lib/string.c:246-291 | for every base: reads blanks, a sign, a base prefix and the longest run of digits |
| Numbers.EvalDigits | sched/lib/string.c:270-286 | reading printed digits gives the number |
| Numbers.PrintedReadsBack | sched/lib/printfmt.c:36-55 | for every base from 2 to 16 and padding by spaces or zeros, strtol of what printnum prints is the number, and all of the text is used |
| Numbers.NegativeReadsBack | sched/lib/printfmt.c:198-205 | with the sign printed first, a negative number reads back exactly when it is not padded by spaces |
| Numbers.DigitCharacters | sched/lib/printfmt.c:54 | digits are printed as 0 to 9 and a to f, and read in either case up to z |
| Numbers.StopsAtNonDigit | sched/lib/string.c:269-285 | reading takes all digits of the base up to the first other character |
| Numbers.BlankIsSkipped | sched/lib/string.c:252-254 | a space or tab before the text changes nothing |
| Numbers.SignCounts | sched/lib/string.c:256-260 | a minus negates the number and a plus does not |
| Numbers.PrefixedReadsBack | sched/lib/string.c:262-268 | 0x before hexadecimal digits, as %p prints them, is read in base 16 or without a base, and 0 before octal digits without one |
| Numbers.DecimalReadsBack | sched/lib/string.c:262-268 | without a base and a prefix digits are decimal |

## Left out

- Pmap.Machine.PageInsert: counts are unbounded where pp_ref has 16 bits.
- ForkLib.SysPageMap: after a call that names another page the memory invariant does not hold, and nothing is stated about later calls.
- Cow.CowRefinesEagerCopy: each duppage is one atomic step, no other page sharing takes place, and PFTEMP and the exception stack are not compared.
- ForkLib.Fork: registers, the upcall setting and the final status change are not part of the memory model.
- ForkLib.Pgfault: for an unmapped page the handler faults again without end; that its exception stack then runs over is part of Upcall, not of this method.
- ForkLib.DupPerm: the cache bits PTE_PWT and PTE_PCD are given to the copies as the code does; check_perm would refuse them only in env_page_alloc.
- Starvation.NoStarvation: sched_halt with no environment alive enters the kernel monitor, which is not modelled.
- Lifecycle.NeverOnTwoCpus: interrupts are off inside the kernel, as the code asserts; kernel-mode faults and panics are not steps; the scheduler of this machine picks any runnable environment or halts, which one is the subject of Sched.
- Lifecycle.OutsideStep: spin_lock and spin_unlock are exchange steps of the machine and not a loop, since spinning need not end; the debug fields of the lock are left out.
- Ipc.ExactlyOnceInOrder: the page that may go with a message is left to the page-table model, a program calls sys_ipc_recv only from ipc_recv, and senders are named by slot.
- EnvIds.EnvTable.Alloc: the trap frame, type and page directory of the environment are left out.
- Upcall.Machine.Return: popfl restores all of eflags, and faults of the upcall's own instructions are not modelled.
- Sieve.SievePrintsPrimes: pipe, fork, read and write do not fail; it is about the calls of printf, and SieveOutput about what they write, with numbers as the unit: a buffer that is written out because it is full is not split inside a line.
- FsTree.FileSystem.Mkdir: the path is absolute and without empty names, as FUSE passes it; buffers of 256 characters, modes and times are left out.
- FsData.FileData.Write: the file is found and is a regular file; FsTree has the lookup and FsData the contents, so the two parts of an inode are separate objects.
- ShellParse.ParseLine: the buffer has a zero after the line's own terminator and, for a line that begins with &, a byte before the line that is not >; the limits of 20 arguments and 1024 characters are not modelled, and getenv is a parameter.
- ShellExec.Process.ExecCmd: pipe, fork and open do not fail; a process is its descriptor table, and execvp and waiting are not modelled.
- Stab.BinSearch: entries at every address from addr to 0xffffffff, where addr + 1 wraps around, only have LastAddressWraps; when a search that goes on meets several entries with the same value, which of them it ends at is not stated.
- Numbers.Strtol: mathematical integers, as the code does not detect overflow.
- fork_v0 and dup_or_share, the programs in sched/user, and fork/xargs.c: intermediate exercises and test programs.
- Boot, devices, interrupt tables, ELF loading, user_mem_check and system call dispatch: hardware set-up, parsing of trusted images and a plain switch.
- Large pages (TP1_PSE), TLB flushes and the check functions of pmap.c.
- vprintfmt, the console, and the other string functions.
- Serialisation, logging, chmod, chown, utimens and getattr of fisopfs.
- The shell's prompt, built-in commands, signals, background commands and status printing.
