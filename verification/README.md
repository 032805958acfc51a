# Satan OS kernel: a verified model

A Dafny model of the core of a small Unix-like kernel for the ARMv6 Raspberry Pi, with proofs of
the properties its design relies on. `dafny verify dfyconfig.toml` checks all of it.

**Processes, memory, descriptors.** `Kernel.dfy` is the state that traps see and what each handler
does to it; one trap (system call, timer interrupt, data abort or unhandled exception, then the
switch) is one atomic step, because interrupts stay masked until the return to user mode. A call
carries the pointers and strings that the process hands over and the answer of the file systems, so
the theorems are about every pointer, length and answer, halting ones included. `TableInvariant`,
`MemoryInvariant` and `FileInvariant` state what every step keeps; `Steps` and `Others` prove it
handler by handler, with the exact causes of a halt; `Runs` proves safety and starvation freedom over
all runs; `Isolation` and `KernelMemory` prove that address spaces are disjoint, slots conserved and
the sections of the kernel not written by any copy that the run survives; `WaitExit` proves that exit and waitpid commute;
`Evolution` and `Waits` follow waiting processes over runs: who wakes, with what, and who never does;
`Returns` says what every trap gives back: the registers and answers that a process has at its next turn;
`Buffers` says exactly when what the kernel writes through a user pointer stays with its caller;
`Scenarios` are short runs from boot that end badly. `Scheduler.dfy` is the same code in its own
form, a class over arrays with `memmove` compaction and bit-field allocators, every method equal to
its specification in `Kernel.dfy`. `Mmu`, `Bitfield` and `Runtime` are the pieces below it, `Bytes`,
`Sequences` and `Wrappers` the vocabulary.

**FAT32.** `FatVolume` holds chains, locations and inode numbers; `FatFile` the sector cursor and
regular files, refining a byte sequence; `FatDirectory` the entry iterator with its one-sector cache
and readdir; `FatLongNames` directories as they are written and the proof that they are read back
(Microsoft FAT32 File System Specification 1.03, "FAT Long Directory Entries"); `FatRuns` whole runs
of reads and seeks, and lookup by name; `FatDisk` mounting, and whole disks laid out sector by sector,
from which a file that was written is read back by its name.

**Path resolution.** `Namespace` gives the meaning of paths over mounted filesystems with no cache
at all, and `NamespaceLaws` what holds between the calls, up to a ramfs root being a map from paths to
files; `DentryCache` says when a dentry tree agrees with it; `CacheWalk` and `CacheCalls` are lookup
and the operations through the cache as functions on values, with the room they need; `Vfs` is the
cache updated in place. Every run through it answers what it means without the cache, and halts
exactly when that halts or there is no room, in the cache or for a name.

**Refinement cores.** `HashMap` refines a partial map for any hash function, on the comparison loops
of `Strings`; `Heap` and `RamFile` refine growable byte sequences over the bump allocator;
`ExecImage` builds and reads back the image of a program and its arguments, which `ExecArguments`
takes out of the old one, and `ElfFile` starts from ELF files written byte by byte; `SerialBoot` is the boot protocol as two parties on two lines,
`SerialTimeouts` the same with timeouts at any moment, `SerialRetry` with failed sessions repeated.

## Conventions

`kernel_fatal_error`, a failed `KERNEL_ASSERT` and a call through a null operation halt: `Halted` in
`Kernel.dfy`, `Fatal` elsewhere. After a halt nothing is claimed. `KernelOverwritten` is where the
model stops although the code goes on: more than four bytes delivered to a null pointer, path
segments of more than 15 characters, which the lookup copies over what stands behind the name, and
EXEC strings that run past `char argv[8][32]` on the stack of the kernel. Such names and strings are
`Fatal` in `CacheWalk` and `ExecArguments`, and so is a loop that never ends in `RamFile`. Clocks,
interrupts, user code and lines are inputs: theorems quantify over every sequence of events.

`Good` states satisfy every invariant. `Ready` ones satisfy all but the rule that a suspended process
waits for a live child of its own; they are closed under every event, so the theorems about them hold
whatever WAITPID names. The rule on WAITPID, which the code does not check, is that it names a direct
child, an exited process above the caller, or nobody. Only the theorems on `Good` states assume it.

What the code demands of its callers and does not check is otherwise a precondition:

- Files that the VFS hands to open are fresh objects.
- Bit indexes lie inside the bit field (the bound test at `src/kernel/memory/bitfield.c:40` is off by one).
- FAT chains are acyclic and hold less than 2 GiB; a directory has an end marker and its long names
  have 1 to 19 entries. As in the code, any of the four low attribute bits makes an entry a long-name
  entry.
- Hash keys have at least one byte, sections of the heap lie below 2^30, no loadable segment runs past
  the end of the section.
- In the serial handshake of `SerialBoot` a read times out only when no INIT is outstanding;
  `SerialTimeouts` does without this.

Results that differ from the evident intent of the code:

- A close halts as long as the count of the file is above one. Exit drops no count, so after fork,
  exit and reaping of a child even the last descriptor cannot be closed (`Steps.CloseSound`,
  `Scenarios.CloseStdinHalts`, `Scenarios.LastCloseHalts`).
- A wait that reaps an exited process below the caller halts the machine (`WaitExit.WaitHaltsIff`,
  `Scenarios.WaitForSiblingHalts`). A process other than init that waits for a live process which is
  no child of it never runs again (`Waits.BadWaitSticks`). Init may wait for a process that is no
  child yet: it wakes if and only if that process becomes its child before it exits
  (`Waits.InitWokenIff`). When nobody is left to run the machine stops (`Waits.NoScheduledIff`,
  `WaitExit.InitWaitingForItselfDeadlocks`).
- Only the first byte of a buffer is translated: bytes that do not fit in the section of the caller
  land in the section behind it, that of another process or nobody's (`Buffers.ReadSparesIff`,
  `Scenarios.ReadOverwritesChild`), and a null status pointer sends the status to the reset vector
  (`Buffers.StatusSparesIff`). WRITE in turn hands bytes of the neighbour to the file
  (`Buffers.WriteReadsOwnIff`). As long as the run goes on the sections of the kernel are out of reach
  (`KernelMemory.RunsSpareKernel`).
- A ninth argument, or a string too long for its place at the end, overruns the stack of the kernel
  (`Steps.NinthStringOverruns`, `Scenarios.NineArgumentsOverwrite`), and a string of 32 characters or
  more runs on into the next one (`ExecArguments.LongRunsOn`).
- A FAT read behind the end of the file returns what the clusters hold (`FatRuns.SlackShown`).
- The extension of a short name is cut to the length of the name, or padded with spaces when it is
  shorter than that (`FatLongNames.ExtensionSeenIff`).
- After 8 distinct names in a directory, found or not, the next one halts, and a name of more than 15
  characters overruns (`CacheWalk.WalkedRoom`). Opening "/" works: the load through the missing parent
  of the root dentry reads address 16, and its result is not used.
- Two outstanding INITs corrupt the size (`SerialBoot.TwoInitsBreakTheSize`). A single session then
  mistakes the images that `SerialTimeouts.MisloadsIff` describes, repeated ones those of
  `SerialRetry.BootsWrongIff`; images of less than 64249 bytes are safe (`SerialRetry.SmallImagesBoot`).

The bound `0x00FFFFF0` on FAT entries is the one in the code; the standard has 28-bit cluster numbers.

## Model

| member | source | states |
|---|---|---|
| `Runs.BootRunsSafe` | src/kernel/scheduler/scheduler.c:461-763 | over every run from boot in which WAITPID keeps to its rule, whatever pointers, buffers, strings, paths and exceptions the processes produce and whatever the file systems answer, the state stays sound, and the machine never stops for want of a process to run, a parent, a free section or table, a current process, or by an assertion of the scheduler or of the handler |
| `Runs.RunsStayGood` | src/kernel/syscalls.c:233-270 | the same from any sound state: every run stays sound or stops for one of the nine reachable reasons |
| `Runs.NextKeepsGood` | src/kernel/syscalls.c:233-270 | one event, a user store or a trap, stops the run exactly for one of the causes that MustHalt names, overruns of the buffers of the kernel included, and otherwise leads to a sound state |
| `Runs.RunExtends` | src/kernel/syscalls.c:233-270 | a run that has not stopped goes on with any further event unless that event must stop the machine, and then it does |
| `Runs.RunsStayReady` | src/kernel/scheduler/scheduler.c:520-763 | whatever WAITPID names, every run keeps ownership of slots, lineage, reference counts and the places of status words |
| `Runs.BootGood` | src/kernel/scheduler/scheduler.c:461-518 | the state that scheduler_start builds satisfies every invariant |
| `Runs.NobodyStarves` | src/kernel/scheduler/scheduler.c:300-313 | a scheduled process has the processor again after at most Rank traps, whatever the others do, allowed waits or not, or the machine has halted |
| `Runs.StepApproaches` | src/kernel/scheduler/scheduler.c:551-560 | each trap that does not give the process its turn lowers the pair (cyclic distance, free table entries) |
| `Runs.RankBound` | src/kernel/scheduler/scheduler.c:116-133 | the bound on the wait is 1023 traps |
| `Runs.ServeOthers` | src/kernel/syscalls.c:256-269 | a trap leaves the entry and the registers of every other process alone, and its memory too when the bytes delivered fit in the section of the caller, except for what exit owes a waiting parent |
| `Runs.UserStoreIs` | src/kernel/scheduler/scheduler.c:520-533 | a user store lands in the section of its process and anywhere else it is a fault that ends the process |
| `Steps.StepKeepsGood` | src/kernel/syscalls.c:56-270 | within the rule for WAITPID a trap stops the run if and only if init dies, an undefined instruction or prefetch abort occurs, or the call is REBOOT, MOUNT, a close of a file with more than one reference, one with a pointer outside the section, one on which the file system halts, a read or write past the memory of the kernel, a read of more than 4 bytes to the null pointer, a path with a segment of more than 15 characters, or an EXEC whose strings run past 8 places of 32 bytes; otherwise it leads to a sound state |
| `Steps.UnreachableHalts` | src/kernel/scheduler/scheduler.c:300-313 | the other failures cannot happen: no scheduled process, no parent, current index out of the table, no free section or table, failed assertions, null sections |
| `Steps.HandleSound` | src/kernel/syscalls.c:56-231 | each handler but EXIT halts exactly under its condition and otherwise keeps every invariant and the caller in its place |
| `Steps.DispatchSound` | src/kernel/syscalls.c:256-269 | the assertion on the caller after a system call never fires: current_proc still names the caller, except after EXIT |
| `Steps.ExitSound` | src/kernel/scheduler/scheduler.c:711-763 | exit halts exactly for init; otherwise it finds a live parent and keeps every invariant |
| `Steps.WaitIdSound` | src/kernel/scheduler/scheduler.c:664-709 | a wait that reaps nobody below the caller keeps the invariants and the caller in its place, and an allowed one keeps every waiter on a live child |
| `Steps.WaitPidSound` | src/kernel/syscalls.c:180-186 | WAITPID with a pointer that translates, unless it reaps an exited process below the caller, keeps every invariant and the caller in its place; an allowed one also keeps every waiter on a live child |
| `Steps.ForkSound` | src/kernel/scheduler/scheduler.c:582-651 | fork never fails to find a section or a table and keeps every invariant |
| `Steps.OpenSound` | src/kernel/syscalls.c:56-72 | once the file is found open installs it in the lowest free descriptor or fails, keeping every invariant |
| `Steps.CloseSound` | src/kernel/syscalls.c:74-88 | close halts exactly when the descriptor names a file with more than one reference |
| `Steps.ReadSound` | src/kernel/syscalls.c:90-114 | READ and READDIR halt exactly for a rejected pointer, a file system that halts, or bytes that run past the mapped memory or, for a null pointer, past the reset vector; otherwise every invariant holds |
| `Steps.WriteSound` | src/kernel/syscalls.c:116-127 | WRITE halts exactly for a rejected pointer, a file system that halts or bytes taken from behind the mapped memory; otherwise nothing of the state changes |
| `Steps.ExecSound` | src/kernel/scheduler/scheduler.c:653-662 | replacing image and registers keeps every invariant |
| `Steps.ExecPathSound` | src/kernel/syscalls.c:188-206 | EXEC stops the run exactly for a rejected path, vector or string pointer, a string i of length l with 32 i + l of 256 or more, a path segment of more than 15 characters or a failing load; otherwise every invariant holds |
| `Steps.NinthStringOverruns` | src/kernel/scheduler/scheduler.h:9-18 | a ninth string, however short, runs past the places of the kernel |
| `TableInvariant.WaitChainEnds` | src/kernel/scheduler/scheduler.c:664-709 | the chain of waits from any live process ends at a scheduled process that is not below it |
| `TableInvariant.SelectSucceeds` | src/kernel/scheduler/scheduler.c:300-313 | the selection loop always finds a scheduled process |
| `TableInvariant.SelectReaches` | src/kernel/scheduler/scheduler.c:300-313 | the loop stops no further than any scheduled process, so the distance to that one shrinks |
| `TableInvariant.SelectIff` | src/kernel/scheduler/scheduler.c:300-313 | of any table the loop finds a scheduled process if and only if there is one, and otherwise reports the failure |
| `TableInvariant.ExitKeeps` | src/kernel/scheduler/scheduler.c:711-763 | exit finds its parent below the caller, and reparenting, zombie and removal keep pids increasing, init first and live, parents live and older, waits on live children |
| `TableInvariant.AppendKeeps` | src/kernel/scheduler/scheduler.c:582-651 | the entry that fork appends keeps the table invariant |
| `TableInvariant.RemoveKeeps` | src/kernel/scheduler/scheduler.c:157-187 | removing an exited process that nobody waits for keeps the table invariant |
| `TableInvariant.WaiterIsParent` | src/kernel/scheduler/scheduler.c:735-760 | only the parent can be waiting for a process, and it stands below it |
| `TableInvariant.NobodyWaitsForZombie` | src/kernel/scheduler/scheduler.c:664-709 | no process waits for an exited one |
| `WaitExit.ExitAndWaitCommute` | src/kernel/scheduler/scheduler.c:664-763 | child exits then parent waits, or parent waits then child exits: same table, memory, free slots and open files |
| `WaitExit.SettledMeans` | src/kernel/scheduler/scheduler.c:664-763 | in that common outcome the parent is scheduled with the child pid in r0 and the status at its pointer, entry and slots of the child are gone, and no third process changed its registers or status |
| `WaitExit.WaitHaltsIff` | src/kernel/syscalls.c:180-186 | WAITPID halts if and only if its pointer is rejected or it reaps an exited process below the caller, in the second case by the assertion of the handler or the check of the current index |
| `WaitExit.InitWaitingForItselfDeadlocks` | src/kernel/scheduler/scheduler.c:691-703 | a concrete wait outside the rule that stops the machine |
| `Waits.WokenIff` | src/kernel/scheduler/scheduler.c:711-763 | over every run a suspended process can run again if and only if the process it waits for exits as its child, whatever it was when the call was made |
| `Waits.StuckForever` | src/kernel/scheduler/scheduler.c:664-709 | a process other than init that waits for a process which is no child of it never runs again, over every run |
| `Waits.BadWaitSticks` | src/kernel/scheduler/scheduler.c:664-709 | so WAITPID by such a process on a live process that is no child of it, itself included, is its last step |
| `Waits.InitWokenIff` | src/kernel/scheduler/scheduler.c:735-760 | init runs again if and only if the awaited process exits as a child of init, by birth or as an orphan; once it is dead, never |
| `Waits.StrangersStay` | src/kernel/scheduler/scheduler.c:716-725 | nobody but init gains a child otherwise than by fork, so a stranger never exits as a child |
| `Waits.DeadStay` | src/kernel/scheduler/scheduler.c:582-651 | pids are not reused: what is dead never exits again |
| `Waits.NoScheduledIff` | src/kernel/scheduler/scheduler.c:300-313 | "no more scheduled processes" is reached exactly when nobody but the running process can run and the trap either ends it while its parent does not wait for it, or suspends it on a live process, itself included; then some process waits for no live child of its own |
| `Waits.StepHaltsIff` | src/kernel/scheduler/scheduler.c:300-313 | whatever WAITPID names, a trap stops the machine if and only if MustHalt says so or it leaves nobody to run in that way |
| `Waits.WaitDelivers` | src/kernel/scheduler/scheduler.c:664-763 | over every run, whatever happens in between, the first time that a waiting process can run again its registers are those it was suspended with but for r0, which is the awaited pid, and the exit status of that very process is in its memory |
| `Waits.WaitForChildDelivers` | src/kernel/syscalls.c:180-186 | the same from the WAITPID call on a live direct child on: the registers of the call, r0 the pid |
| `Waits.NextKeepsContained` | src/kernel/scheduler/scheduler.c:691-703 | pending status words stay inside the sections of their waiters as long as the processes ask for them inside |
| `Returns.PreemptedResumes` | src/kernel/scheduler/scheduler.c:538-560 | an interrupted process has, the next time it has the processor, whatever events lie between, the registers it was interrupted with, its section and its descriptors |
| `Returns.RegistersSurvive` | src/kernel/scheduler/scheduler.c:538-560 | over every run a process that can run finds registers, section and descriptors at its next turn as they were |
| `Returns.SyscallReturns` | src/kernel/syscalls.c:208-270 | after a system call of a process that stays scheduled its registers are those it called with but for r0, and r0 is the answer, given by the table: GETPID its pid, GETPPID that of its parent, FORK the pid of the new last entry, whose r0 is 0, or an error, OPEN the lowest free descriptor, WAITPID the pid of the exited process whose status word it then holds, READ, WRITE, LSEEK, MKDIR and MKNOD what the file system answers for a descriptor in use, READ with its bytes in the buffer |
| `Returns.CallerResumes` | src/kernel/syscalls.c:256-269 | and at its next turn it has those registers, whatever events lie between |
| `Returns.ExecReplaces` | src/kernel/syscalls.c:188-206 | after EXEC of a program the caller has the registers and the image of the program, the same pid, parent, section and descriptors |
| `Returns.WaitSuspends` | src/kernel/scheduler/scheduler.c:691-703 | a wait for a live process suspends the caller with the registers of the call |
| `Returns.WriteHands` | src/kernel/syscalls.c:116-127 | WRITE from a buffer inside the section hands over exactly the bytes of the caller there |
| `Returns.ReadThenWrite` | src/kernel/syscalls.c:90-127 | what a process reads into a buffer is what it writes from it at its next turn |
| `Evolution.NextEvolves` | src/kernel/scheduler/scheduler.c:520-763 | after any event each entry of the table continues an older entry with the same pid and the same parent or init, or is a fresh child, and only the caller can have become suspended |
| `Buffers.StoreSparesIff` | src/kernel/hardware/mmu.c:6-31 | a kernel store through a translated user pointer leaves all other memory alone for all contents if and only if it is empty or fits in the section of the caller |
| `Buffers.ReadSparesIff` | src/kernel/syscalls.c:90-114 | a READ of n bytes leaves the memory of everybody else alone for all contents if and only if n is 0 or the buffer lies inside the section of the caller, of which the code checks the first byte only |
| `Buffers.ReadHitsNeighbour` | src/kernel/syscalls.c:90-101 | two bytes read to the last address of the section: the second is the first byte that the process in the next section sees |
| `Buffers.WriteReadsOwnIff` | src/kernel/syscalls.c:116-127 | the bytes that WRITE hands to a file depend on the memory of the caller alone, in every state, if and only if none are taken or the buffer lies inside its section |
| `Buffers.WriteShowsNeighbour` | src/kernel/syscalls.c:116-127 | two bytes written from the last address of the section hand the first byte of the next process to the file |
| `Buffers.StatusSparesIff` | src/kernel/scheduler/scheduler.c:681-690 | the status of an exited process stays in the section of the caller, for every status, if and only if its four bytes lie there; a null pointer sends it to the reset vector |
| `Buffers.ExitSparesIff` | src/kernel/scheduler/scheduler.c:735-760 | the same for a status delivered by exit to a parent that waits |
| `Scenarios.CloseStdinHalts` | src/kernel/syscalls.c:74-88 | right after boot closing stdin stops the machine |
| `Scenarios.LastCloseHalts` | src/kernel/syscalls.c:74-88 | from boot, after open, fork, exit and reaping of the child, the close of the only descriptor that names the file stops the machine: exit has dropped no reference |
| `Scenarios.WaitForSiblingHalts` | src/kernel/scheduler/scheduler.c:681-690 | from boot, with pids 2 and 3 forked and 2 exited, the wait of 3 for 2 stops the machine |
| `Scenarios.ReadOverwritesChild` | src/kernel/syscalls.c:90-101 | from boot, after a fork, a two-byte read of init changes the first byte of its child |
| `Scenarios.NineArgumentsOverwrite` | src/kernel/syscalls.c:194-202 | right after boot EXEC with nine empty strings runs past the places of the kernel |
| `Isolation.AddressSpacesDisjoint` | src/kernel/scheduler/scheduler.c:224-248 | no two processes share a user-reachable byte, and none reaches the kernel |
| `Isolation.IsolationOverRuns` | src/kernel/scheduler/scheduler.c:582-651 | the same in every state of every run, with slots freed and reused |
| `Isolation.ReachIsOwnSection` | src/kernel/hardware/mmu.c:6-61 | what a live process reaches from user mode is its own section, all of it and nothing else |
| `Isolation.OthersSeeNoChange` | src/kernel/syscalls.c:233-270 | no event whose delivery fits in the section of the caller changes a byte that another process sees, but for the status word that a waiting parent asked for; the condition is exact by Buffers.ReadSparesIff and Buffers.StatusSparesIff |
| `Isolation.ForkCopiesImage` | src/kernel/scheduler/scheduler.c:602-648 | the child sees through its own table what the parent sees through its own, from a different physical byte |
| `Isolation.SectionsConserved` | src/kernel/memory/section_allocator.c:29-58 | the set bits number the four sections of the kernel plus one per live process |
| `Isolation.TablesConserved` | src/kernel/memory/translation_table_allocator.c:28-51 | the set bits number the table of the kernel plus one per live process |
| `KernelMemory.RunsSpareKernel` | src/kernel/syscalls.c:90-206 | as long as a run goes on, whatever pointers the processes hand over, no user store and no copy of a handler changes a byte of the four sections of the kernel; the copies that would, a read of more than 4 bytes to the null pointer and the overruns by strings and names, end it as KernelOverwritten |
| `KernelMemory.TablesFillSection` | src/kernel/memory/translation_table_allocator.c:28-41 | the 64 tables lie inside section 1 and no two entries share a byte |
| `KernelMemory.TablesOutOfReach` | src/kernel/memory/translation_table_allocator.c:28-41 | so, as long as a run goes on, no byte changes where a translation table entry stands but through the table functions |
| `MemoryInvariant.ForkFindsSlots` | src/kernel/memory/bitfield.c:6-30 | with at most 32 processes both allocators always have a free slot |
| `MemoryInvariant.ForkKeepsMemory` | src/kernel/scheduler/scheduler.c:224-248 | handing out a free section and table keeps ownership, separation and accounting |
| `MemoryInvariant.ReleaseKeeps` | src/kernel/scheduler/scheduler.c:315-321 | giving both back at exit keeps them |
| `MemoryInvariant.RemoveZombieKeeps` | src/kernel/scheduler/scheduler.c:157-187 | removing an exited process, which holds nothing, keeps them |
| `MemoryInvariant.StartBuildsProcTable` | src/kernel/scheduler/scheduler.c:480-491 | the two mapping calls of scheduler_start build the table of a process |
| `MemoryInvariant.ForkBuildsProcTable` | src/kernel/scheduler/scheduler.c:630-648 | copying the table of the parent and patching one entry builds the table of the child |
| `MemoryInvariant.ProcTableReach` | src/kernel/hardware/mmu.c:33-61 | such a table lets user mode reach exactly one section |
| `MemoryInvariant.ProcTableTranslate` | src/kernel/hardware/mmu.c:6-31 | the walk of the kernel accepts exactly the addresses of the process and lands in its section |
| `Mmu.TranslateAgreesWithHardware` | src/kernel/hardware/mmu.c:6-31 | the walk of the kernel accepts an address if and only if user mode could write there, and gives the same physical address |
| `Mmu.EntryFields` | src/kernel/hardware/mmu.h:1-40 | type, permission and base of a section entry are read back as written |
| `Mmu.AddIdentityMapping` | src/kernel/hardware/mmu.c:33-48 | the loop maps exactly the sections between start and end onto themselves |
| `Mmu.AddSingleSection` | src/kernel/hardware/mmu.c:50-61 | one entry changes |
| `FileInvariant.AddRefsCounts` | src/kernel/scheduler/scheduler.c:621-636 | the loop of fork adds to each count the number of slots that the child inherits |
| `FileInvariant.ForkKeepsFiles` | src/kernel/scheduler/scheduler.c:621-636 | after fork every count still covers the slots that name the file |
| `FileInvariant.OpenKeepsFiles` | src/kernel/scheduler/scheduler.c:250-269 | after open it does |
| `FileInvariant.RemoveKeepsFiles` | src/kernel/scheduler/scheduler.c:157-187 | after removal it does |
| `FileInvariant.CloseReleasesLast` | src/kernel/vfs/inode.c:17-24 | a release that completes leaves no process with a slot that names the released file |
| `Bitfield.AcquireFirst` | src/kernel/memory/bitfield.c:6-30 | takes the lowest clear bit, or reports -1 and changes nothing when all are set |
| `Bitfield.ScanByte` | src/kernel/memory/bitfield.c:15-26 | finds the lowest clear bit of a byte, none exactly for 0xFF |
| `Bitfield.Clear` | src/kernel/memory/bitfield.c:32-44 | clears one bit and no other |
| `Bitfield.Test` | src/kernel/memory/bitfield.c:46-58 | reads one bit |
| `Scheduler.Scheduler.constructor` | src/kernel/scheduler/scheduler.c:461-518 | builds the boot state |
| `Scheduler.Scheduler.RemoveProcess` | src/kernel/scheduler/scheduler.c:157-187 | removes one entry with memmove, moving the current index only when it is the one removed, and halts for an entry that still holds a section or a table |
| `Scheduler.Scheduler.FindProcByPid` | src/kernel/scheduler/scheduler.c:197-205 | finds the first entry of a pid |
| `Scheduler.Scheduler.SelectIndex` | src/kernel/scheduler/scheduler.c:300-313 | the round-robin loop stops at the first scheduled entry after the current one, or halts when there is none |
| `Scheduler.Scheduler.CurProcFork` | src/kernel/scheduler/scheduler.c:582-651 | the in-place fork gives the state that Kernel.Fork specifies |
| `Scheduler.Scheduler.CurProcExit` | src/kernel/scheduler/scheduler.c:711-763 | the in-place exit gives the state that Kernel.Exit specifies |
| `Scheduler.Scheduler.CurProcWaitId` | src/kernel/scheduler/scheduler.c:664-709 | the in-place wait gives the state that Kernel.WaitId specifies |
| `Scheduler.Scheduler.CurProcExec` | src/kernel/scheduler/scheduler.c:653-662 | installs image and registers |
| `Scheduler.Scheduler.OpenFile` | src/kernel/syscalls.c:56-72 | translates the path, then installs the file that the VFS returns in the lowest free descriptor; a segment that is too long ends the run |
| `Scheduler.Scheduler.CloseFile` | src/kernel/syscalls.c:74-88 | drops a descriptor, halting where inode.c asserts |
| `Scheduler.Scheduler.WaitPidCallHandler` | src/kernel/syscalls.c:180-186 | translates the status pointer, then waits |
| `Scheduler.Scheduler.StoreAcross` | src/kernel/syscalls.c:90-114 | bytes written from an address on go to one section after the other |
| `Scheduler.Scheduler.ReadFile` | src/kernel/syscalls.c:90-114 | translates the buffer before it looks at the descriptor and delivers what the file system returns, however long |
| `Scheduler.Scheduler.WriteFile` | src/kernel/syscalls.c:116-127 | the same order for WRITE, and the bytes that reach the file are those at the translated address, however many |
| `Scheduler.Scheduler.LoadAcross` | src/kernel/syscalls.c:116-127 | bytes read from an address on come from one section after the other |
| `Scheduler.Scheduler.ExecFile` | src/kernel/syscalls.c:188-206 | translates path and vector, copies the strings one by one, looks the path up, then replaces the image |
| `Scheduler.Scheduler.SyscallHandler` | src/kernel/syscalls.c:233-270 | runs a handler and delivers its status to the caller, as Kernel.Dispatch does; which status that is `Returns.SyscallReturns` says from the table |
| `Scheduler.Scheduler.ServeTrap` | src/kernel/scheduler/scheduler.c:520-560 | serves a system call, a timer interrupt, a data abort or an exception without a handler, and switches, as Kernel.Step does; what the process then goes on with is in `Returns.PreemptedResumes` and `Returns.CallerResumes` |
| `Runtime.MemMove` | src/arm_runtime/eabi_rt.c:33-50 | the block arrives intact whatever the overlap and the direction |
| `Runtime.UnsignedDivide` | src/arm_runtime/eabi_rt.c:119-131 | the quotient rounded down, 0 for a zero denominator |
| `FatVolume.InodeNumbersDistinct` | src/kernel/vfs/filesystems/fat32/fat32_fs.c:254-272 | on a volume of fewer than 2^23 sectors inode numbers, in 32-bit arithmetic, tell (cluster, sector, entry) apart and are never 2 |
| `FatVolume.LocationInjective` | src/kernel/vfs/filesystems/fat32/fat32_fs.c:74-80 | distinct sectors of a chain have distinct locations |
| `FatVolume.SectorSplit` | src/kernel/vfs/filesystems/fat32/fat32_fs.c:74-80 | every sector number of a chain falls in one of its clusters |
| `FatFile.Cursor.Next` | src/kernel/vfs/filesystems/fat32/fat32_fs.c:329-347 | moves to the next sector of the chain across clusters and halts exactly at its end |
| `FatFile.Cursor.Prev` | src/kernel/vfs/filesystems/fat32/fat32_fs.c:349-386 | moves to the previous sector and halts exactly at the beginning |
| `FatFile.Cursor.Predecessor` | src/kernel/vfs/filesystems/fat32/fat32_fs.c:361-374 | the search terminates at the predecessor and never reads the entry of the current cluster |
| `FatFile.NextSplit` | src/kernel/vfs/filesystems/fat32/fat32_fs.c:329-347 | cluster and index of sector n + 1 in terms of those of sector n |
| `FatFile.PrevSplit` | src/kernel/vfs/filesystems/fat32/fat32_fs.c:349-386 | cluster and index of sector n - 1 in terms of those of sector n |
| `FatFile.RegularFile.Read` | src/kernel/vfs/filesystems/fat32/fat32_fs.c:542-602 | returns the bytes from the position to the smaller of position + count and size; behind the end of the file, where the remainder wraps around, it returns bytes of the clusters and halts exactly when it uses up the last of them. The chain of an empty file is its start cluster 0. Which bytes of the disk those are `FatDisk.DiskReadsBack` says |
| `FatFile.RegularFile.Seek` | src/kernel/vfs/filesystems/fat32/fat32_fs.c:614-664 | the cursor denotes the target; halts if and only if the target is new and lies before the file or in a sector outside the chain |
| `FatRuns.Perform` | src/kernel/vfs/filesystems/fat32/fat32_fs.c:542-664 | one read or seek, anywhere in the clusters, does to the file what it does to a position over their bytes |
| `FatRuns.Replay` | src/kernel/vfs/filesystems/fat32/fat32_fs.c:542-664 | any interleaving of reads and seeks, past the end of the file too, returns what the bytes of the clusters say and halts exactly when the plain semantics does; over a disk as it was written: `FatDisk.ReadNamed` |
| `FatRuns.ReadsAddUp` | src/kernel/vfs/filesystems/fat32/fat32_fs.c:542-602 | reads of any sizes from a position inside the file give its bytes from there on, up to its end, none twice and none left out |
| `FatRuns.SeekThenRead` | src/kernel/vfs/filesystems/fat32/fat32_fs.c:614-664 | a seek to d, to position + d or to size + d inside the file and a read of n bytes give the bytes from there to the smaller of n on and the end |
| `FatRuns.SlackUnseen` | src/kernel/vfs/filesystems/fat32/fat32_fs.c:542-664 | as long as no seek goes past the end of the file, what a run returns does not depend on the bytes behind it |
| `FatRuns.SlackShown` | src/kernel/vfs/filesystems/fat32/fat32_fs.c:561-561 | a seek to one byte behind the end and a read of one byte return the second byte that follows the file in its clusters |
| `FatRuns.ForwardAndBack` | src/kernel/vfs/filesystems/fat32/fat32_fs.c:329-386 | a step back undoes a step forward |
| `FatDirectory.CopyLfnChars` | src/kernel/vfs/filesystems/fat32/fat32_fs.c:187-230 | copies the characters of a long-name entry up to the first zero |
| `FatDirectory.Iterator.Fetch` | src/kernel/vfs/filesystems/fat32/fat32_fs.c:414-426 | the one-sector cache always shows the entry of the flat list |
| `FatDirectory.Iterator.Advance` | src/kernel/vfs/filesystems/fat32/fat32_fs.c:439-446 | moves to the next entry across sectors and clusters |
| `FatDirectory.Iterator.Next` | src/kernel/vfs/filesystems/fat32/fat32_fs.c:403-506 | returns the next live entry of the flat list with its name and inode number, None at the end marker |
| `FatDirectory.ReadDirectory` | src/kernel/vfs/filesystems/fat32/fat32_fs.c:705-746 | lists at most count entries and leaves the position where a later call resumes |
| `FatDirectory.ListSplits` | src/kernel/vfs/filesystems/fat32/fat32_fs.c:705-746 | over any iterator that stays at its end, one list is the list of a first part followed by that of the rest |
| `FatDirectory.ReadDirSplits` | src/kernel/vfs/filesystems/fat32/fat32_fs.c:705-746 | splitting a readdir into two calls of any sizes gives the same list and position |
| `FatLongNames.LfnStepHolds` | src/kernel/vfs/filesystems/fat32/fat32_fs.c:454-476 | each long-name entry extends the collected name by its 13 characters to the left, whatever the buffer held |
| `FatLongNames.ScanLfnRun` | src/kernel/vfs/filesystems/fat32/fat32_fs.c:454-506 | a run of long-name entries is decoded to the name that was encoded |
| `FatLongNames.ShortNameIs` | src/kernel/vfs/filesystems/fat32/fat32_fs.c:151-180 | a short name is the bytes of the name field up to a space, then a dot and as many bytes of the extension field as the name has, at most three, in lower case where the flags say so |
| `FatLongNames.ExtensionSeenIff` | src/kernel/vfs/filesystems/fat32/fat32_fs.c:168-176 | an extension comes out as it was written if and only if it is as long as the name, up to three bytes, because the loop tests the wrong field; without an extension the name alone does |
| `FatLongNames.DirectoryListsItems` | src/kernel/vfs/filesystems/fat32/fat32_fs.c:403-506 | a directory as it was written, its file entries, long-name entries, deleted and dot entries given by their bytes, lists exactly its live non-dot entries in disk order with their directory bits, each long name of 1 to 247 characters as encoded and each short one as `FatLongNames.ShortNameIs` says, and stops at the end marker |
| `FatLongNames.CallsAgree` | src/kernel/vfs/filesystems/fat32/fat32_fs.c:705-746 | any sequence of calls gives the list of one call of their total size |
| `FatLongNames.DirectoryListsItemsInCalls` | src/kernel/vfs/filesystems/fat32/fat32_fs.c:705-746 | so a directory read with calls of any sizes yields its items |
| `FatRuns.LookupFindsNamed` | src/kernel/vfs/filesystems/fat32/fat32_fs.c:769-798 | a name is found if and only if the directory lists it, and the first entry listed under it is the one found |
| `FatRuns.Lookup` | src/kernel/vfs/filesystems/fat32/fat32_fs.c:769-798 | the lookup loop stops at that entry |
| `FatDisk.MountsWritten` | src/kernel/vfs/filesystems/fat32/fat32_fs.c:83-136 | a disk with a boot sector of the standard layout mounts: table behind the reserved sectors, data behind all copies of the table |
| `FatDisk.DiskReadsBack` | src/kernel/vfs/filesystems/fat32/fat32_fs.c:74-327 | on a disk laid out as boot sector, reserved sectors, table of little-endian words, mirrors and clusters, a chain written in the table is one, and its content is the bytes of exactly those clusters, one after the other |
| `FatDisk.EntriesAreContent` | src/kernel/vfs/filesystems/fat32/fat32_fs.c:414-446 | the entries of a directory are the bytes of its clusters, 32 at a time |
| `FatDisk.InodeNumberIsPlace` | src/kernel/vfs/filesystems/fat32/fat32_fs.c:254-272 | on a volume of at most 2^23 sectors the inode number of an entry is the byte of the disk where its 32 bytes stand |
| `FatDisk.NodeReadsBack` | src/kernel/vfs/filesystems/fat32/fat32_fs.c:884-911 | the inode of an entry has the first cluster, the size and the kind that were written |
| `FatDisk.ReadNamed` | src/kernel/vfs/filesystems/fat32/fat32_fs.c:769-911 | mount, look a name up in the root directory, open what it names: any run of reads and seeks returns what it returns on the bytes that were written to the clusters of that file |
| `Namespace.UniquePath` | src/kernel/vfs/filesystems/ramfs/ramfs.c:59-69 | no ramfs inode is reached by two paths, through mounts or not |
| `Namespace.WalkMeaning` | src/kernel/vfs/vfs.c:90-126 | a walk ends at the path named if and only if every proper prefix leads to a directory and the last lookup does not halt |
| `Namespace.ResolveReaches` | src/kernel/vfs/vfs.c:133-158 | what a path resolves to is the root or a name in a directory |
| `Namespace.AtAfterAdd` | src/kernel/vfs/filesystems/ramfs/ramfs.c:268-402 | creating a file changes the meaning of no path but its own and those below |
| `Namespace.AtAdded` | src/kernel/vfs/filesystems/ramfs/ramfs.c:268-402 | the new path leads to the new file |
| `Namespace.AtAfterCover` | src/kernel/vfs/vfs.c:181-203 | mounting changes the meaning of no path outside the mount point |
| `Namespace.AddKeepsTree` | src/kernel/vfs/filesystems/ramfs/ramfs.c:59-69 | adding a child of a new name keeps the trees and the distinct names |
| `Namespace.CoverKeepsTree` | src/kernel/vfs/vfs.c:181-203 | mounting keeps them |
| `Namespace.PerformKeepsTree` | src/kernel/vfs/filesystems/ramfs/ramfs.c:268-402 | every operation keeps the ramfs directories free of two children of one name |
| `NamespaceLaws.SplitJoined` | src/kernel/vfs/vfs.c:90-126 | splitting a path at its separators gives the names it was joined from |
| `NamespaceLaws.OpenAgain` | src/kernel/vfs/vfs.c:344-406 | after an open that succeeds, creating or not, an open without O_EXCL gives the same inode and one with it fails |
| `NamespaceLaws.ExclusiveIsNew` | src/kernel/vfs/vfs.c:344-406 | an open with O_EXCL that succeeds has created an empty regular file at a path that could not be opened before |
| `NamespaceLaws.MkdirThenOpen` | src/kernel/vfs/vfs.c:310-338 | after a successful mkdir the path, which led to nothing before, opens as a new empty directory |
| `NamespaceLaws.NewDirectoryIsEmpty` | src/kernel/vfs/vfs.c:310-406 | no name below a new directory opens, and every name can be created there |
| `NamespaceLaws.MknodThenOpen` | src/kernel/vfs/vfs.c:286-308 | after a successful mknod the path opens as a file of that format and device, and not as a directory |
| `NamespaceLaws.MountThenOpen` | src/kernel/vfs/vfs.c:256-284 | a ramfs can be mounted on exactly the paths that open as a directory, and the path then opens as a new empty one |
| `NamespaceLaws.DeviceMounts` | src/kernel/vfs/vfs.c:256-308 | a block device file made by mknod can be the source of a mount on any path that opens as a directory, which then opens as the root of that volume |
| `NamespaceLaws.MountNeedsDevice` | src/kernel/vfs/vfs.c:270-281 | only a source that opens as a file of a registered block device is mounted as a FAT32 volume |
| `NamespaceLaws.FatNameOpens` | src/kernel/vfs/vfs.c:59-126 | below an open directory of a FAT32 volume a name opens as what the lookup of the volume finds, or not at all |
| `NamespaceLaws.OpenElsewhere` | src/kernel/vfs/vfs.c:181-406 | whatever a call does, opening a path that does not lie at or below its path answers what it answered before |
| `NamespaceLaws.PerformKeepsAnchored` | src/kernel/vfs/vfs.c:181-203 | mount points keep hanging in directories |
| `NamespaceLaws.PerformMakes` | src/kernel/vfs/vfs.c:286-406 | below a ramfs root each call changes what paths lead to by what its reply says, and nothing else |
| `NamespaceLaws.MakesIff` | src/kernel/vfs/vfs.c:286-406 | there a call makes something if and only if its format, device and flags permit it and its path is a new name in a directory; it halts if and only if that would be the ninth name |
| `NamespaceLaws.OpensExactlyMade` | src/kernel/vfs/vfs.c:344-406 | there a path opens if and only if it was made, with O_DIRECTORY or a separator at its end if and only if as a directory, and with the format and device it was made with |
| `NamespaceLaws.BootRunsMake` | src/kernel/vfs/vfs.c:214-406 | from boot, with a ramfs on the root, after any calls but mounts a path opens if and only if it is the root or one of the calls made it, by their replies |
| `DentryCache.InsertKeepsSound` | src/kernel/vfs/vfs.c:72-88 | caching what a lookup returned keeps cache and filesystems in agreement |
| `DentryCache.FillKeepsSound` | src/kernel/vfs/vfs.c:299-308 | creating the file of a negative dentry and filling the dentry keeps it |
| `DentryCache.FlushKeepsSound` | src/kernel/vfs/vfs.c:198-203 | replacing the inode of a mount point and dropping its children keeps it |
| `DentryCache.NothingBelowNegative` | src/kernel/vfs/vfs.c:112-122 | no cached path lies below a negative dentry |
| `CacheWalk.WalkedAgrees` | src/kernel/vfs/vfs.c:90-126 | the cached walk ends at the dentry of the path where the uncached one ends |
| `CacheWalk.WalkedRoom` | src/kernel/vfs/vfs.c:59-126 | the cached walk halts if and only if the uncached one does, or the first step that is not cached starts at a dentry with 8 children, or the pool has no slot for one of the lookups from there on, or the walk copies a segment of more than 15 characters |
| `CacheWalk.LookedUpAgrees` | src/kernel/vfs/vfs.c:133-158 | both for whole paths: same none, negative or positive answer, and halts exactly then |
| `CacheCalls.PerformedIff` | src/kernel/vfs/vfs.c:256-406 | each operation through the cache answers what it means without, and halts if and only if that halts or a lookup of the call has no room in the cache or for a name |
| `CacheCalls.PerformedSound` | src/kernel/vfs/vfs.c:181-308 | each operation keeps cache and filesystems in agreement |
| `CacheCalls.PerformedAllIff` | src/kernel/vfs/vfs.c:59-406 | over any run the cache changes no reply and no filesystem, and the run halts if and only if it halts without the cache or one of its calls finds no room |
| `CacheCalls.RunsKeepTree` | src/kernel/vfs/filesystems/ramfs/ramfs.c:59-69 | over every sequence no ramfs directory holds two children of one name |
| `Vfs.FindSeparator` | src/kernel/lib/str.c:88-96 | finds the first separator |
| `Vfs.Vfs.InodeLookup` | src/kernel/vfs/filesystems/ramfs/ramfs.c:248-266 | the loop over the children finds the first of the name |
| `Vfs.Vfs.ChildByName` | src/kernel/vfs/vfs.c:59-88 | returns the dentry of the child from the cache or a new one, and halts exactly when Stepped does, for a name that is too long too |
| `Vfs.Vfs.LookupRec` | src/kernel/vfs/vfs.c:90-126 | the recursion over the path, segment by segment, is the cached walk, dentry for dentry |
| `Vfs.Vfs.Lookup` | src/kernel/vfs/vfs.c:133-158 | the lookup leaves the cache that LookedUp says and halts exactly when it does |
| `Vfs.Vfs.NewFile` | src/kernel/vfs/filesystems/ramfs/ramfs.c:59-69 | adds the file to the ramfs and fills the dentry |
| `Vfs.Vfs.Mount` | src/kernel/vfs/vfs.c:256-284 | mounts as without the cache and halts exactly when that halts or a lookup has no room |
| `Vfs.Vfs.Mknod` | src/kernel/vfs/vfs.c:286-308 | makes a device file as without the cache, with the same exact halts |
| `Vfs.Vfs.Mkdir` | src/kernel/vfs/vfs.c:310-338 | makes a directory as without the cache, with the same exact halts; the second search of the ramfs never finds anything |
| `Vfs.Vfs.Open` | src/kernel/vfs/vfs.c:344-406 | opens, or creates and opens, as without the cache, "/" included, with the same exact halts; what that means between calls is in `NamespaceLaws` |
| `Vfs.Vfs.Execute` | src/kernel/vfs/vfs.c:59-406 | every operation answers what it means without the cache and halts if and only if that halts or there is no room |
| `Vfs.Vfs.Replay` | src/kernel/vfs/vfs.c:59-406 | so does every sequence of operations: the replies are those without the cache, and it halts if and only if the uncached run halts or one of the calls finds no room |
| `Strings.StrCmp` | src/kernel/lib/str.c:75-79 | the result is zero if and only if the strings before the terminators are equal |
| `Strings.MemCmp` | src/kernel/lib/str.c:38-52 | for one byte or more the result is zero if and only if the bytes are equal |
| `HashMap.ProbeDecides` | src/kernel/lib/hashmap.c:54-75 | where the probe stops decides whether the key is in the map, and with which value |
| `HashMap.SetKeeps` | src/kernel/lib/hashmap.c:77-110 | storing where the probe stopped keeps unique keys and gives the updated map |
| `HashMap.MapDetermined` | src/kernel/lib/hashmap.c:54-110 | a table stands for one map only |
| `HashMap.HashMap.Probe` | src/kernel/lib/hashmap.c:58-72 | the shared loop stops at the first slot that is free or holds the key |
| `HashMap.HashMap.Get` | src/kernel/lib/hashmap.c:54-75 | returns the last value successfully set for the key, nothing otherwise |
| `HashMap.HashMap.Set` | src/kernel/lib/hashmap.c:77-110 | fails, changing nothing, if and only if every slot from the home slot to the end holds another key; otherwise updates the map |
| `Heap.BumpedIs` | src/kernel/memory/memory_allocator.c:44-58 | the 32-bit cursor arithmetic does not wrap, keeps alignment and fails exactly when the block does not fit |
| `Heap.Heap.Alloc` | src/kernel/memory/memory_allocator.c:44-68 | a fresh aligned block behind all others, or nothing when it does not fit; every block keeps its bytes |
| `Heap.Heap.Calloc` | src/kernel/memory/memory_allocator.c:85-92 | the same with zeroed bytes |
| `Heap.Heap.Realloc` | src/kernel/memory/memory_allocator.c:70-83 | the old bytes followed by zeros in a new block, or the same block for a smaller size; every block keeps its bytes |
| `Heap.StoreKeeps` | src/kernel/memory/memory_allocator.c:22-31 | writing inside one block changes no other block and no header |
| `Heap.LaidGrows` | src/kernel/memory/memory_allocator.c:44-68 | blocks, headers included, stay disjoint, aligned and inside the section |
| `RamFile.Doubled` | src/kernel/vfs/filesystems/ramfs/ramfs.c:122-125 | doubling ends at a size that fits and is less than twice what was needed |
| `RamFile.DoubleUntil` | src/kernel/vfs/filesystems/ramfs/ramfs.c:122-125 | the 32-bit doubling loop ends at the first size that fits, and never for more than 2^31 bytes |
| `RamFile.RamInode.Grow` | src/kernel/vfs/filesystems/ramfs/ramfs.c:122-132 | the content survives the move, all buffers of the file together stay below twice the current one, and it halts exactly when the section has no room |
| `RamFile.OpenFile.Read` | src/kernel/vfs/filesystems/ramfs/ramfs.c:78-104 | returns the bytes from the position on, as many as ReadCount says, which `RamFile.ReadReturns` gives; -1 at or beyond the end and when position plus count is no positive off_t |
| `RamFile.OpenFile.Write` | src/kernel/vfs/filesystems/ramfs/ramfs.c:106-142 | replaces or appends bytes at the position, refuses to write beyond the end, leaves every other block alone, and does not return exactly when it must grow and cannot, the endless doubling beyond 2^31 included |
| `RamFile.OpenFile.Seek` | src/kernel/vfs/filesystems/ramfs/ramfs.c:144-156 | moves the position in 32-bit arithmetic, refusing negative ones: to d from the start, size + d from the end, position + d from the position |
| `RamFile.ReadReturns` | src/kernel/vfs/filesystems/ramfs/ramfs.c:78-104 | for a position and an end that are positive off_t, a read returns the smaller of the count and of what is left, and -1 if that is nothing |
| `RamFile.WrittenIs` | src/kernel/vfs/filesystems/ramfs/ramfs.c:106-142 | a write leaves the bytes before and behind those written |
| `RamFile.WriteThenRead` | src/kernel/vfs/filesystems/ramfs/ramfs.c:78-156 | what is written is read back after a seek to where it was written, with the position behind it and the rest of the file as it was |
| `RamFile.WritesAddUp` | src/kernel/vfs/filesystems/ramfs/ramfs.c:106-142 | two writes in a row leave what one write of all their bytes leaves, position included |
| `RamFile.ReadOn` | src/kernel/vfs/filesystems/ramfs/ramfs.c:78-104 | reading in calls of any sizes gives the file from the position on, one byte after the other, and all of it when enough is asked for |
| `RamFile.OtherFileKept` | src/kernel/vfs/filesystems/ramfs/ramfs.c:106-142 | another file on the same heap keeps its content |
| `RamFile.Execute` | src/kernel/vfs/filesystems/ramfs/ramfs.c:78-156 | one operation returns and leaves what it does on a byte sequence with a position, and halts exactly when its write needs a buffer for which the heap has no room |
| `RamFile.Replay` | src/kernel/vfs/filesystems/ramfs/ramfs.c:78-156 | so does any run of operations of any sizes, which halts if and only if the heap has no room for one of its writes |
| `RamFile.CreateFile` | src/kernel/vfs/filesystems/ramfs/ramfs.c:280-291 | allocates inode, private record and a zeroed buffer of 512 bytes and halts exactly when the last does not fit; the file is empty |
| `ExecImage.LoadSegments` | src/kernel/scheduler/scheduler.c:346-377 | the loop leaves the image that the program headers describe and halts exactly when a header or a segment ends beyond the file or an address is none of the process |
| `ExecImage.PushArgs` | src/kernel/scheduler/scheduler.c:384-421 | the loops leave the strings and the vector where ArgvVa and Place say |
| `ExecImage.LoadProcFromElf` | src/kernel/scheduler/scheduler.c:323-443 | leaves the built image and start registers; a file that is no program leaves the section untouched. What is built of a file as it was written is in `ElfFile.ProgramLoads` |
| `ExecImage.LoadedBytes` | src/kernel/scheduler/scheduler.c:346-377 | with segments that do not overlap every byte is the byte of the segment that covers it or what was there before |
| `ExecImage.ImageBytes` | src/kernel/scheduler/scheduler.c:323-443 | every byte of the section outside the arguments is a segment byte or zero, and segments in the program window keep their bytes |
| `ExecImage.ArgStands` | src/kernel/scheduler/scheduler.c:395-409 | every string with its terminator stays where its pointer says |
| `ExecImage.ArgumentsReadBack` | src/kernel/syscalls.c:188-206 | walking the vector through the own translation of the process gives the arguments back |
| `ExecImage.ExecBuildsImage` | src/kernel/scheduler/scheduler.c:323-443 | all of it for the built image: aligned stack pointer, arguments found again, bytes as intended |
| `ExecImage.ExecDeliversArguments` | src/kernel/syscalls.c:256-269 | after EXEC with pointers that translate the process goes on with r0, which no call status overwrites, leading through its own table to the arguments; pid and descriptors are kept |
| `ElfFile.RefusedIff` | src/kernel/elf_loader/elf_loader.c:11-58 | exec refuses a file, leaving the caller as it is, if and only if it lacks one of the bytes of a 32-bit little-endian ARM header or its table entries are too small |
| `ElfFile.WrittenLoads` | src/kernel/scheduler/scheduler.c:346-431 | a file with header, program headers and contents laid out as the format has them is loaded if and only if every loaded part begins in the section of the process and the entry lies in the program window; otherwise an assertion fails |
| `ElfFile.ProgramLoads` | src/kernel/scheduler/scheduler.c:323-443 | it then starts at the entry that was written, with an aligned stack pointer at the vector that leads to the arguments, its parts stand in their places and the rest of the program window is zero |
| `ElfFile.ProgramStarts` | src/kernel/scheduler/scheduler.c:207-222 | EXEC of such a file leaves its caller with the registers of a new program, the address to return to being that entry and user mode in the status, the arguments found through its own table, and the program in its section |
| `ExecArguments.CopyArgv` | src/kernel/syscalls.c:188-206 | the loop of the EXEC handler fills the places with exactly the strings of the vector, none for a null vector, and overruns them if and only if some string i of length l has 32 i + l of 256 or more |
| `ExecArguments.PlaceHolds` | src/kernel/scheduler/scheduler.h:15-18 | what the loader finds in each place: a string of 32 characters or more runs on into what the next place holds |
| `ExecArguments.ShortSeen` | src/kernel/scheduler/scheduler.h:15-18 | strings of at most 31 characters, the last one apart, reach the loader as they are |
| `ExecArguments.LongRunsOn` | src/kernel/scheduler/scheduler.h:15-18 | of two strings the first of which is too long the loader sees its first 32 characters followed by the second one |
| `ExecArguments.CopyString` | src/kernel/lib/str.c:61-66 | copies up to the terminator |
| `SerialBoot.SerialLoad` | src/serial_loader/loader.c:24-54 | the loader, on any incoming stream, sends, stores and returns what its byte-by-byte specification says |
| `SerialBoot.Agreement` | src/serial_loader/loader.c:24-54 | in every reachable state of a session with one INIT outstanding at a time the received data is the beginning of what was sent, at most one byte is not echoed, and a size other than zero is returned only with the whole image in the buffer |
| `SerialBoot.OnlyTimeoutsFail` | tools/serial_boot.py:36-79 | the host gives up only on a timeout: every byte it reads is the expected one |
| `SerialBoot.StepKeeps` | tools/serial_boot.py:21-79 | every step of either side keeps the invariant of the two lines |
| `SerialBoot.NeverStuck` | src/serial_loader/loader.c:38-53 | an image that fits is never stuck before the end |
| `SerialBoot.StepsDecrease` | src/serial_loader/loader.c:38-53 | every step without a failing timeout brings the session nearer to its end |
| `SerialBoot.CompleteRunsBoot` | src/serial_loader/loader.c:24-54 | a run without failing timeouts has at most 2n + 9 steps, and when it cannot go on the loader has returned the size of the image |
| `SerialBoot.TwoInitsBreakTheSize` | tools/serial_boot.py:21-34 | after two timeouts before the answer the second INIT precedes the size on the line |
| `SerialBoot.ShiftedSizeIsWrong` | src/serial_loader/loader.c:31-36 | the size then read is that of the image only if all its bytes are INIT |
| `SerialTimeouts.MisloadsIff` | src/serial_loader/loader.c:24-54 | for one call of serial_load, when reads of the handshake may time out at any moment: some run makes it return a size other than zero without the image in its buffer if and only if the image imitates itself one or two bytes later up to an END_ACK |
| `SerialTimeouts.SmallImagesSafe` | src/serial_loader/loader.c:24-54 | so one call of serial_load mistakes no image of less than 64249 bytes |
| `SerialTimeouts.SomeImageIsMistaken` | tools/serial_boot.py:21-34 | an image of 65536 bytes, 1 and 0 in turn with one END_ACK, is: after three INITs at once the loader returns 64250 |
| `SerialTimeouts.FreeRunsKeep` | tools/serial_boot.py:21-79 | every state of such a run is that of a stream in which some number of INITs precedes the size |
| `SerialRetry.BootsWrongIff` | src/serial_loader/loader.c:80-86 | with the loop around serial_load, over any number of failed sessions: some run makes the loader start something else than the image if and only if, after some number of INITs, its answers to the image so far look like echoes of the image up to the point where it returns |
| `SerialRetry.RunsReach` | tools/serial_boot.py:21-79 | every state of such a run: how many INITs and how much of the image the host has written, and that the loader has led it there |
| `SerialRetry.SmallImagesBoot` | src/serial_loader/loader.c:80-86 | no image of less than 64249 bytes is mistaken in any run, whatever sessions fail before |
| `SerialRetry.RetryMistakesMore` | src/serial_loader/loader.c:80-86 | an image of 65536 bytes that no single session mistakes, but the second one after eight INITs at once does |
| `SerialRetry.InitsFed` | src/serial_loader/loader.c:24-36 | on INITs alone every five of them are a failed session |

## Left out

- Hardware drivers (SD host, mini UART, GPIO, watchdog, timer, interrupt controller): the block device is a sequence of 512-byte sectors, the serial line a byte queue.
- Assembly entry code, linker scripts and cache maintenance: saving and restoring registers copies them faithfully.
- Logging, the banner, formatting tools and all userland programs.
- link, unlink, rmdir, FAT writing and block device writing: they only halt or are thin wrappers.
- What happens after `KernelOverwritten`: the kernel has then written over its own code.
- `hash_map_create`, whose status is wrong, and the aligned memory routines of `eabi_rt.c`; the map starts from an empty table.
- The constants of the FNV hash: the hash is any function.
- 32-bit wrap-around of pids and table indexes and of FAT seek targets; those are unbounded.
- `Kernel.State.tables` is kept apart from the bytes of section 1, where the tables lie; `KernelMemory.TablesOutOfReach` says why no store can change them.
- Descriptor tests beyond 15: slots 16 to 23 of the descriptor bit field have no table entry; `Kernel.Close` treats them as unused.
- readdir and seek on ramfs directories, `vfs_mount_dev` and the dispatch of read, write, seek and close to file operations: one-step wrappers.
- What a name of more than 15 characters overwrites, and names longer than the 30 characters of a dirent.
- Dentries dropped by a mount stay allocated, as in the code, and count against the 72; the model never frees one.
- Memory exhaustion while an inode is created in the VFS model: `RamFile.CreateFile` has it, `Vfs` assumes room.
- Vfs.Vfs.Execute: when there is no room it halts; with a used-up pool the code writes through a null pointer, and with a name that is too long over its own data.
- FatDirectory.Iterator.Next: a long-name entry whose number points outside the buffer halts; the code writes outside the buffer.
- Heap.Heap.Realloc: without room it returns nothing and changes nothing; the code first copies the old block to address 0.
- RamFile.RamInode.Grow: halts without room; the code first copies the old buffer to address 0 and then fails its assertion.
- RamFile.OpenFile.Write: the same when it must grow.
- ExecImage.LoadSegments: the file is its bytes; what a file system returns for a segment that begins behind the end of the file (FAT: bytes of the clusters, ramfs: an error) or for one of no bytes on ramfs (an error) is not modelled.
- ExecImage.LoadProcFromElf: the load through `elf32_open` and the open and close of the program file are left out, and a short read halts as the assertion does.
- ExecArguments.CopyArgv: stops at the first copy that overruns the stack of the kernel.
- FatFile.RegularFile.Seek: files whose clusters hold 2 GiB or more, where positions leave the signed 32-bit range, are excluded.
- SerialBoot.Agreement: concerns one session with one INIT outstanding; `SerialRetry` has the loop around it.
- SerialTimeouts.MisloadsIff: concerns one session.
- SerialRetry.BootsWrongIff: the pause of the loader between sessions loses no bytes in the model.
