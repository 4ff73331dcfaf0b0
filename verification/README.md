# Verification of the MantraOS kernel's core

MantraOS is a small single-core microkernel. This project models its three tightly coupled cores and the two
boot-loader passes they rely on, and proves what holds over all inputs and all runs.

**Traps, IPC, capabilities and scheduling.** Gates are interrupt gates and the kernel runs on one core, so every
kernel entry is atomic and the kernel is a transition system: one step is one system call or one timer tick over 8
process slots, 32 endpoints and a 32-slot capability table per process. `Machine` states each step as a function on
values; `Kernel` and `Ipc` hold the tables as the source does, in mutable fields and arrays, and compute the same
functions in place. `Rings` and `RingRuns` treat the message ring, whose "full" test compares a reduced tail with an
unreduced head; `Invariant`, `Traps` and `Runs` prove the global invariant and its consequences over every run;
`Calls` says of every system call what its caller sees, in terms of slots, bytes, queues and registers, with the whole
new state, and `Numbers` what capability numbers and saved registers mean over whole runs;
`Provenance` follows capabilities over whole runs, `Scheduling` bounds waiting, `Delivery` compares direct delivery with
queueing, `UserCopy` says what copies to and from user memory achieve, `Mailboxes` gives every endpoint its log, and
`Witnesses` holds two concrete runs.

**Physical memory.** `Ranges` and `MemoryMap` say what initialisation computes, one address at a time; `Pmm` is the
in-place sorting, merging and subtraction; `PageAlloc` is the cursor allocator over every run of requests; `Heap` is
the bump heap on top.

**Page tables and loading.** `PageTables` has the walks and the mapping of one page, `PageTree` proves that the tables
of all address spaces form a forest that refines a flat map, `Spaces` that user pages of different address spaces
never meet, `DirectMap` that the 2 MiB direct map is the identity. `Worlds`, `Images` and `Building` describe all of
physical memory while a process is built, `UserSpace` does it in place, and `Isolation` covers whole runs. `Elf` holds
the file format as it is read and `ElfFile` as it is written, `FlatLoader` the boot loader's way with segments, and `BootRegions` the region list it passes on.

**All of it together.** `EndToEnd` says why the trap handlers may see an address space as a flat map, `TrapMemory` what a
trap does to user memory, and `Together` runs trap handlers and physical memory as one machine: programs store, traps
copy, spawns build. `KernelStart` goes from the boot loader's list to the first process in the order of the source and
proves what no program can reach in any run after that.

The build script produces debug binaries, so an arithmetic overflow panics and a panic halts the machine: such outcomes
appear as `Panic`, `Panicked`, `Fault` and `Halted`.

## What turned out different from what one would expect

- The message ring is a bounded queue only until 32 messages have been received. Later it never reports full, and a
  receive with more than 32 messages waiting skips messages (`RingRuns.ReceiveMeaning`, `RingRuns.MessageLost`).
- A failed copy in direct delivery happens after the receiver was taken off the waiter ring; it then sleeps for ever.
  This happens iff some address of its buffer, cut to the message, is not mapped (`Runs.DeliveryStrandsIff`,
  `Runs.StrandedForever`; a run: `Witnesses.ProcessStranded`).
- Direct delivery hands a transferred capability even to a plain receive; the queued path drops it
  (`Delivery.PlainReceiveDiffers`; a run: `Witnesses.PlainReceiverGains`).
- The kernel's walk for user pointers looks at the low 48 bits only, so it follows pointers that the processor would
  refuse. It agrees with the processor iff the pointer is canonical or leads nowhere (`Spaces.UserWalkIsHardwareWalk`;
  an input: `Building.NonCanonicalPointerAccepted`, `EndToEnd.SendFromBeyond`).
- A refused page allocation leaves the allocator exhausted, so the heap's back-off to smaller sizes cannot succeed
  (`PageAlloc.FailureIsPermanent`, `Heap.LockedBump.Init`).
- The boot loader drops regions silently once its list is full. Memory to be kept then becomes free iff a dropped region
  has an address that the listed ones make free (`BootRegions.KeptMemoryFreeIff`); on maps as firmware reports them that
  can only be the framebuffer (`BootRegions.CutOffCostsFramebufferOnly`; an input:
  `BootRegions.CutOffListLosesFramebuffer`).
- The boot loader's third check on a segment can never fail (`FlatLoader.SegmentFits`).

## Model

| member | source | states |
|---|---|---|
| Pmm.InsertEntry | kernel/src/pmm.rs:68-74 | one turn of the insertion sort, in place: the sorted prefix with the next entry put in its place; nothing behind it moves |
| Pmm.SortByBase | kernel/src/pmm.rs:64-77 | the array prefix becomes its sorted form, in place; entries beyond it stay |
| Ranges.SortCorrect | kernel/src/pmm.rs:64-77 | that sorted form is ordered by base and a permutation of the input |
| Pmm.MergeRun | kernel/src/pmm.rs:86-91 | the inner loop swallows exactly the run of touching or overlapping entries and leaves the array alone |
| Pmm.MergeAdjacent | kernel/src/pmm.rs:79-96 | merging in place, reading ahead of the write position, leaves the merged list |
| Ranges.MergeIntoCovers | kernel/src/pmm.rs:79-96 | merging changes no address: covered before iff covered after |
| Ranges.MergeIntoCanonical | kernel/src/pmm.rs:79-96 | merged lists are sorted, non-empty and separated by gaps |
| Ranges.MergeIntoSize | kernel/src/pmm.rs:79-96 | merging never increases the total size |
| Ranges.CanonicalUnique | kernel/src/pmm.rs:64-96 | a canonical list is determined by the addresses it covers: the free list is the unique normal form |
| Ranges.CanonicalSize | kernel/src/pmm.rs:227-230 | the size of a canonical list fits its bounds, so a 64-bit sum over it cannot saturate |
| Pmm.RemoveAt | kernel/src/pmm.rs:109-115 | closing a hole shifts the tail down by one; the last place and everything behind it stay |
| Pmm.InsertAt | kernel/src/pmm.rs:147-154 | opening a hole shifts the tail up by one, from the back |
| Pmm.ProgressDone | kernel/src/pmm.rs:98-158 | the loop ends with the whole set difference, and a split makes it one entry longer |
| Pmm.CarveEntry | kernel/src/pmm.rs:101-155 | one turn of the subtraction loop: the entry becomes its remaining pieces, or nothing happens when a split meets a full array |
| Pmm.SplitEntry | kernel/src/pmm.rs:138-155 | a split entry becomes its left and right piece |
| Pmm.SubtractReserved | kernel/src/pmm.rs:98-158 | set difference in place; false iff the array is full and some entry would be split, and then nothing has changed; terminates although a split grows the list |
| Ranges.PiecesCorrect | kernel/src/pmm.rs:101-155 | what is left of one range: exactly its addresses outside the reserved interval, in canonical pieces |
| Ranges.SubtractCovers | kernel/src/pmm.rs:98-158 | after subtraction an address is covered iff it was and is not reserved |
| Ranges.SubtractCanonical | kernel/src/pmm.rs:98-158 | subtraction keeps sorted, disjoint, non-empty |
| Ranges.SubtractAligned | kernel/src/pmm.rs:98-158 | subtracting a page-aligned interval keeps page alignment |
| Pmm.RoundInward | kernel/src/pmm.rs:170-171 | a usable region rounded inward, or the overflow of rounding near 2^64 |
| Pmm.CollectUsable | kernel/src/pmm.rs:165-181 | the first pass over the regions: the rounded usable ranges and their byte count, or the first failure in region order, error or panic |
| Pmm.CarveOut | kernel/src/pmm.rs:195-205 | one reserved region rounded outward and subtracted |
| Pmm.CarveReserved | kernel/src/pmm.rs:190-206 | all reserved regions subtracted in turn, or the first failure in region order |
| Pmm.DropEmptyAndSum | kernel/src/pmm.rs:214-230 | dropping empty ranges drops none, and the saturating sum is the true size |
| Pmm.BuildFreeList | kernel/src/pmm.rs:160-245 | the whole computation in the array of 128 entries: Ok, error or panic exactly as the outcome on values says, and on Ok the free list |
| Pmm.Manager.constructor | kernel/src/pmm.rs:38-44 | before initialisation nothing is handed out |
| Pmm.Manager.Init | kernel/src/pmm.rs:160-245 | on Ok the manager holds the exact free list with the true statistics and the cursor at its start; otherwise it is unchanged, and error and panic are told apart for every map |
| Pmm.Manager.AllocPages | kernel/src/pmm.rs:251-282 | one allocation in place equals the value-level request; before initialisation it is refused |
| MemoryMap.SpanMeaning | kernel/src/pmm.rs:170-199 | a region's rounded span covers an address iff that address's page lies wholly inside a usable region, or meets a reserved one |
| MemoryMap.CollectCorrect | kernel/src/pmm.rs:165-181 | collected ranges are aligned and non-empty, and the byte count is their summed size, saturated |
| MemoryMap.CarveCovers | kernel/src/pmm.rs:190-206 | carving removes exactly the pages that reserved regions meet |
| MemoryMap.FreeListExact | kernel/src/pmm.rs:160-245 | main theorem: on success an address is free iff its page lies in a usable region, meets no other region and is at or above 1 MiB; the list is canonical; free bytes are its true size and at most the usable bytes |
| MemoryMap.InitOutcomeMeaning | kernel/src/pmm.rs:160-245 | initialisation succeeds iff every region can be rounded and the free list exists; without a rounding overflow it never panics |
| PageAlloc.TakeCorrect | kernel/src/pmm.rs:251-282 | one request: the block is aligned, was free, is no longer, and nothing else changed; a refusal loses no byte but exhausts the allocator |
| PageAlloc.TakeSucceedsIff | kernel/src/pmm.rs:251-282 | a request succeeds iff some range from the cursor on is large enough by itself |
| PageAlloc.BlocksRise | kernel/src/pmm.rs:251-282 | over every run of requests, blocks are page-aligned and each starts at or after the end of all earlier ones |
| PageAlloc.BlocksPartition | kernel/src/pmm.rs:251-282 | over every run, an address that was free is now either still free or in a block handed out, never both |
| PageAlloc.BytesConserved | kernel/src/pmm.rs:251-282 | over every run, bytes handed out plus bytes left, skipped ranges included, stay constant |
| PageAlloc.FailureIsPermanent | kernel/src/pmm.rs:267-281 | once a request for at least one page fails, every later request fails |
| PageAlloc.NextBehind | kernel/src/pmm.rs:267-281 | a request is served from the first range that is large enough, and the next one right behind it iff so much of the range is left, else as from the ranges after it |
| PageAlloc.FramesInOrder | kernel/src/pmm.rs:247-249 | over every run of one-page requests the i-th one gets the i-th page of the list, in order; it is refused iff the pages before it are all there were |
| Heap.BlocksDisjoint | kernel/src/heap.rs:93-109 | over every run of allocations, blocks are aligned, inside the heap and pairwise disjoint |
| Heap.GrantedIff | kernel/src/heap.rs:93-109 | a block is granted iff it fits behind the first aligned address, and starts there; otherwise nothing happens |
| Heap.LockedBump.Init | kernel/src/heap.rs:44-70 | the back-off loop is useless: the heap comes up iff the first request of 4096 pages is granted and its end fits 64 bits, at the direct map address of the block; a refusal leaves the page allocator exhausted |
| Heap.LockedBump.Alloc | kernel/src/heap.rs:93-109 | one allocation: the aligned block or null, with overflow of the alignment as a fault |
| Heap.BackOffIsLost | kernel/src/heap.rs:49-55 | a concrete memory in which a smaller first request would have succeeded |
| Rings.PushAppends | kernel/src/ipc.rs:65-85 | while fewer than seven wait, a push is accepted and appends |
| Rings.PopTakesFirst | kernel/src/ipc.rs:87-107 | a pop takes the first waiter, or none iff there is none, and leaves the messages alone |
| Rings.WaiterFullTest | kernel/src/ipc.rs:77-79 | exactly when the full test fires: never once eight waiters have left |
| Rings.SendLogged | kernel/src/ipc.rs:113-137 | a send is refused iff fewer than 32 messages have left and 31 wait; an accepted message becomes the newest in the log |
| Rings.RecvLogged | kernel/src/ipc.rs:144-168 | a receive yields the newest message whose number is congruent to the head modulo 32 |
| RingRuns.RingIsBoundedFifo | kernel/src/ipc.rs:113-168 | until 32 messages have been received, every reply of the ring is that of a bounded queue of capacity 31 |
| RingRuns.ReceiveMeaning | kernel/src/ipc.rs:144-168 | after any run, a receive returns message k iff at most 32 wait, and otherwise the newest one congruent to it |
| RingRuns.SendMeaning | kernel/src/ipc.rs:122-137 | after any run, a send reports full iff the head is below 32 and the backlog is 31 |
| RingRuns.MessageLost | kernel/src/ipc.rs:127-129 | a concrete run in which the ring accepts 33 messages and then loses 32 of them |
| Ipc.Endpoint.constructor | kernel/src/ipc.rs:33-42 | a new endpoint is empty |
| Ipc.Endpoint.Push | kernel/src/ipc.rs:73-84 | the waiter push in place computes the value-level push |
| Ipc.Endpoint.Pop | kernel/src/ipc.rs:95-106 | the waiter pop in place computes the value-level pop |
| Ipc.Endpoint.Put | kernel/src/ipc.rs:123-136 | the message send in place computes the value-level send; stale bytes of the slot stay |
| Ipc.Endpoint.Take | kernel/src/ipc.rs:153-167 | the message receive in place computes the value-level receive |
| Kernel.Tables.constructor | kernel/src/sched.rs:39-66 | the tables as the first process is entered |
| Kernel.Tables.CapLookupCurrent | kernel/src/sched.rs:196-209 | lookup in the current process's capability table; slots and ids count from 1 |
| Kernel.Tables.CapAllocFor | kernel/src/sched.rs:177-190 | the scan finds the first empty slot and fills it, or refuses |
| Kernel.Tables.OtherRunnable | kernel/src/sched.rs:126-136 | the scan is true iff some other process is alive and runnable |
| Kernel.Tables.PickNextRunnable | kernel/src/sched.rs:138-149 | the round-robin scan in place computes the value-level choice |
| Kernel.Tables.Switch | kernel/src/sched.rs:151-168 | saving, choosing and preparing the next process |
| Kernel.Tables.BlockCurrentOn | kernel/src/sched.rs:118-124 | the current process is marked blocked on the endpoint |
| Kernel.Tables.WakeUp | kernel/src/sched.rs:106-116 | a live process becomes runnable and unblocked |
| Kernel.Tables.SpawnProc | kernel/src/sched.rs:72-90 | the first dead slot gets the new process, or none is free |
| Kernel.Tables.EpCreateCall | kernel/src/ipc.rs:46-63 | a fresh endpoint id and a capability to it; an id is used up even when the table is full |
| Kernel.Tables.WaiterPushOn | kernel/src/ipc.rs:65-85 | the push reaches the named endpoint and no other |
| Kernel.Tables.WaiterPopOn | kernel/src/ipc.rs:87-107 | the pop reaches the named endpoint and no other |
| Kernel.Tables.PutOn | kernel/src/ipc.rs:113-137 | the send reaches the named endpoint and no other |
| Kernel.Tables.TakeFrom | kernel/src/ipc.rs:144-168 | the receive reaches the named endpoint and no other |
| Kernel.Tables.UserCopyOut | kernel/src/arch/x86_64/isr.rs:315-322 | byte-wise copy to user memory with wrap-around; stops at the first unmapped address, earlier bytes stay written |
| Kernel.Tables.UserCopyIn | kernel/src/arch/x86_64/isr.rs:406-413 | byte-wise copy from user memory; fails iff some address is unmapped |
| Kernel.Tables.WriteCall | kernel/src/arch/x86_64/isr.rs:93-114 | the number of bytes up to the first unmapped address, at most 1024 |
| Kernel.Tables.DeliverIpc | kernel/src/arch/x86_64/isr.rs:324-349 | direct delivery in place computes the value-level delivery; a failed copy leaves the receiver asleep |
| Kernel.Tables.SendCall | kernel/src/arch/x86_64/isr.rs:118-139 | send: deliver to the first waiter if there is one, else queue; each error code |
| Kernel.Tables.SendCapCall | kernel/src/arch/x86_64/isr.rs:174-205 | send with a capability: an invalid transfer capability is refused before anything is copied |
| Kernel.Tables.RecvCall | kernel/src/arch/x86_64/isr.rs:140-173 | receive, with and without capability: message, sleep and switch, or error |
| Kernel.Tables.Finish | kernel/src/arch/x86_64/isr.rs:232-252 | the end of a receive that got a message: copy out, then install the transferred endpoint |
| Kernel.Tables.SpawnSharing | kernel/src/user.rs:383-405 | a new process, its slot and its capability to the shared endpoint |
| Kernel.Tables.SpawnCall | kernel/src/user.rs:377-407 | spawn: only program 1 exists; an invalid shared capability shares nothing |
| Kernel.Tables.SyscallTrap | kernel/src/arch/x86_64/isr.rs:78-270 | the system-call dispatch in place computes the value-level dispatch |
| Kernel.Tables.HandleTrap | kernel/src/arch/x86_64/isr.rs:44-49 | one whole trap, from user mode to user mode, in place; the processor aligns the stack top before it pushes |
| Invariant.PickNearest | kernel/src/sched.rs:138-149 | the scan finds the ready process at the smallest cyclic distance |
| Invariant.PickOther | kernel/src/sched.rs:138-149 | a ready process is never overtaken: the chosen one is at most as far away |
| Invariant.SwitchKeeps | kernel/src/sched.rs:151-168 | a switch keeps the invariant and returns the frame of the process it made current |
| Invariant.WaitListBound | kernel/src/ipc.rs:65-85 | at most six sleepers in a ring while another process is ready, seven in any case |
| Invariant.PushNeverRefuses | kernel/src/ipc.rs:65-85 | the waiter ring never refuses a receiver that is about to sleep |
| Invariant.PoppedIsUnlisted | kernel/src/ipc.rs:87-107 | whoever is popped is then in no waiter ring at all |
| Invariant.DeliverKeeps | kernel/src/arch/x86_64/isr.rs:324-349 | delivery to a popped receiver keeps the invariant, whether or not its buffer can take the message |
| Invariant.BlockKeeps | kernel/src/arch/x86_64/isr.rs:147-157 | a receive that sleeps keeps the invariant and switches to another process |
| Invariant.EpCreateKeeps | kernel/src/ipc.rs:46-63 | creating an endpoint keeps the invariant |
| Invariant.SpawnKeeps | kernel/src/user.rs:377-407 | spawning keeps the invariant |
| Traps.SendChange | kernel/src/arch/x86_64/isr.rs:118-139 | a send keeps the invariant and changes only what a send may change |
| Traps.SendCapChange | kernel/src/arch/x86_64/isr.rs:174-205 | the same for a send with a capability: what is transferred was held by the sender |
| Traps.RecvChange | kernel/src/arch/x86_64/isr.rs:140-253 | the same for both receives |
| Traps.TrapKeeps | kernel/src/arch/x86_64/isr.rs:78-270 | every trap keeps the invariant and changes capabilities, messages, waiter rings and other processes only as allowed |
| Runs.BootInv | kernel/src/sched.rs:39-66 | the invariant holds when the first process is entered |
| Runs.RunInv | kernel/src/arch/x86_64/isr.rs:470-485 | over every run, at every trap return: the current process is alive and runnable; CR3, MANTRA_NEXT_CR3, rsp0 and the frame just popped are its own; no two processes share a stack or a root; sleepers are where their registers say, once each; no endpoint has both a message and a waiter |
| Runs.WaitersAreFifo | kernel/src/ipc.rs:65-107 | over every run, however often the counters lap: a waiter ring is a queue of at most seven, nobody is lost or overtaken |
| Runs.SleeperUntouchedRun | kernel/src/arch/x86_64/isr.rs:324-349 | over every run, a listed sleeper's table entry and saved frame stay exactly as they are |
| Runs.BufferTakesIff | kernel/src/arch/x86_64/isr.rs:315-322 | the copy of a delivery succeeds iff every address of the receiver's buffer, cut to the message, is mapped |
| Runs.DeliveryStrandsIff | kernel/src/arch/x86_64/isr.rs:336-338 | a delivery strands its receiver iff some address of that part of its buffer is not mapped |
| Runs.StrandedForever | kernel/src/arch/x86_64/isr.rs:336-338 | over every run, a process that is blocked and listed nowhere stays so for ever |
| Provenance.CapsPermanent | kernel/src/sched.rs:177-190 | over every run, a filled capability slot of a live process never changes |
| Provenance.EveryGainExplained | kernel/src/arch/x86_64/isr.rs:239-246 | in one trap: a newly held endpoint was created now, inherited from a holding parent, taken from a message on an endpoint already held, or delivered by a holder on an endpoint both hold |
| Provenance.MessageProvenance | kernel/src/ipc.rs:113-137 | over every run: what a message slot holds was put there by one send, whose bytes and endpoint it carries; the sender held the endpoint and what it transferred, and the slot has not changed since |
| Provenance.CapabilityProvenance | kernel/src/arch/x86_64/isr.rs:181-253 | over every run: whoever holds an endpoint gained it at one step, by creation, inheritance, delivery by a holder, or from a message whose sender held it when it sent, and has held it since |
| Provenance.IsolationForever | kernel/src/arch/x86_64/isr.rs:181-200 | over every run, two groups of processes and endpoints without a capability or message across stay separated |
| Provenance.NeverShare | kernel/src/arch/x86_64/isr.rs:181-200 | hence two processes of different groups never hold a common endpoint |
| Calls.PlainCalls | kernel/src/arch/x86_64/isr.rs:83-114 | PUTC, WRITE and unknown calls: the answer, from the bytes that are mapped, and that nothing else changes |
| Calls.NumberNames | kernel/src/sched.rs:177-209 | a capability number that was given names the endpoint, and every other number names what it named |
| Calls.EpCreateAnswers | kernel/src/ipc.rs:46-63 | EP_CREATE answers the number of the first empty slot, which then holds the next endpoint, or the error iff no endpoint or no slot is left; an endpoint is used up either way |
| Calls.SendRefused | kernel/src/arch/x86_64/isr.rs:118-205 | a send whose slots, buffer bytes or transfer are not valid answers the error and changes nothing |
| Calls.SendQueues | kernel/src/arch/x86_64/isr.rs:118-205 | a valid send where nobody waits: the new state in full, with its message at the tail or the ring full |
| Calls.SendDelivers | kernel/src/arch/x86_64/isr.rs:324-349 | a valid send where somebody waits: the new state in full, with the bytes in the receiver's buffer, its new capability number and both answers, or the error iff its buffer is not mapped |
| Calls.RecvRefused | kernel/src/arch/x86_64/isr.rs:140-173 | a receive that names no endpoint answers the error and changes nothing |
| Calls.RecvFindsNothing | kernel/src/arch/x86_64/isr.rs:147-166 | on an empty queue with nobody else ready: the empty code and no change |
| Calls.RecvSleeps | kernel/src/arch/x86_64/isr.rs:147-157 | on an empty queue with somebody else ready: the caller sleeps at the end of the waiter list with its registers as they are, and the nearest ready process runs from its saved registers |
| Calls.RecvGets | kernel/src/arch/x86_64/isr.rs:232-252 | a receive that finds a message: the new state in full, with bytes, number of bytes and new capability number, or the error iff the buffer is not mapped; the message is gone either way |
| Calls.Switches | kernel/src/sched.rs:151-175 | a timer tick or YIELD saves the registers and runs the nearest ready process, in its address space and from its saved registers |
| Calls.StaysAlone | kernel/src/sched.rs:151-175 | with nobody else ready the caller goes on |
| Calls.SpawnRefused | kernel/src/user.rs:377-381 | a spawn of another program than 1 answers the error |
| Calls.SpawnFindsNoSlot | kernel/src/user.rs:390-394 | with all slots taken the parent is told the error, and only the address space that was built remains |
| Calls.SpawnMakes | kernel/src/user.rs:389-405 | the first dead slot holds the new process; its saved frame has the role in rdi, its capability number in rsi or 0, and 0 in the other argument registers; the parent is told the slot |
| Numbers.NumbersLast | kernel/src/sched.rs:177-209 | over every run: whatever number a process is told, by EP_CREATE, a receive, a delivery or at its creation, names that endpoint in all its later calls |
| Numbers.RegistersComeBack | kernel/src/sched.rs:151-175 | over every run: a ready process that does not run keeps its registers, and runs again from exactly these, in its own address space |
| Numbers.FirstRegisters | kernel/src/user.rs:383-405 | over every run: when a spawned process first runs, its registers are its role, the number of its capability, which names the shared endpoint, and zeros |
| Scheduling.TrapMoves | kernel/src/sched.rs:151-168 | a scheduling decision moves strictly closer, in cyclic order, to every process that is ready; other traps keep the current process |
| Scheduling.ReachedInTime | kernel/src/sched.rs:138-175 | over every run, a process that stays ready becomes current within as many decisions as it is places away |
| Scheduling.BoundedWaiting | kernel/src/sched.rs:138-175 | seven decisions always suffice, whatever the others spawn, block or wake |
| Delivery.DirectRefinesQueued | kernel/src/arch/x86_64/isr.rs:324-349 | for a receiver in IPC_RECV_CAP, direct delivery equals queueing the message and running the receive, on memory, registers, capabilities and all processes, iff the buffer can take the message |
| Delivery.PlainReceiveDiffers | kernel/src/arch/x86_64/isr.rs:342-346 | for a receiver in plain IPC_RECV exactly when they differ: the transferred endpoint and rdx |
| Delivery.MessageArrives | kernel/src/arch/x86_64/isr.rs:324-340 | after a direct delivery the receiver's buffer holds the message, cut to the length it asked for |
| Witnesses.ProcessStranded | kernel/src/arch/x86_64/isr.rs:336-338 | a run of six traps from the start that leaves a process asleep in no waiter ring |
| Witnesses.PlainReceiverGains | kernel/src/arch/x86_64/isr.rs:342-346 | a run of six traps from the start in which a plain receive ends with a new capability |
| Delivery.SenderSees | kernel/src/arch/x86_64/isr.rs:347-348 | the sender sees the difference iff the receiver asked for less than was sent |
| Mailboxes.TrapRings | kernel/src/arch/x86_64/isr.rs:78-270 | one trap moves the messages of an endpoint by one send, one receive or not at all: a message goes in iff a valid send finds nobody waiting and room, and one comes out iff a receive that names the endpoint finds one |
| Mailboxes.SlotChange | kernel/src/ipc.rs:113-137 | a message slot changes in a trap only by the send of the running process, at the tail, and then holds the bytes and the endpoint of that send |
| Mailboxes.EndpointHistory | kernel/src/ipc.rs:113-168 | over every run of the kernel, each endpoint has a log that grows by a message iff a valid send puts it into the queue in that trap; its ring holds the last 32 entries at its counters, and its head counts exactly the receives that took one |
| Mailboxes.SendIsQueued | kernel/src/arch/x86_64/isr.rs:118-139 | over every run: a valid send where nobody waits leaves exactly its bytes and its transfer at the tail and is told the number of bytes; iff the head is below 32 and 31 wait, nothing happens and it is told full |
| Mailboxes.HeadIsLogged | kernel/src/ipc.rs:153-167 | the message a receive takes is the log entry at the head, cut to what it asks for, iff at most 32 wait, and else the newest one congruent to it |
| UserCopy.CopyOutSucceedsIff | kernel/src/arch/x86_64/isr.rs:315-322 | a copy out succeeds iff every address is mapped |
| UserCopy.CopyOutReads | kernel/src/arch/x86_64/isr.rs:315-322 | after a copy out that succeeded each byte is in its place, and earlier ones still are |
| UserCopy.CopyOutElsewhere | kernel/src/arch/x86_64/isr.rs:315-322 | a copy out changes no byte outside the buffer |
| UserCopy.CopyInReads | kernel/src/arch/x86_64/isr.rs:406-413 | a copy in succeeds iff every byte has a place, and reads each from there |
| UserCopy.CopyRoundTrip | kernel/src/arch/x86_64/isr.rs:406-422 | what was copied out is what a copy in reads back |
| UserCopy.ReadableMeaning | kernel/src/arch/x86_64/isr.rs:93-114 | WRITE reports exactly the bytes before the first unmapped one |
| PageTables.WordParts | kernel/src/user.rs:69-75 | a table word gives back its frame and its bits |
| PageTables.LowBits | kernel/src/user.rs:61-75 | the low twelve bits and the frame above them do not disturb each other |
| PageTree.StepKeeps | kernel/src/user.rs:59-76 | one step down: existing entries keep their table and may gain U; a new table is a fresh frame; the tables still form a forest of distinct frames |
| PageTree.FreshFrame | kernel/src/pmm.rs:251-282 | an allocated frame is no table, fits an entry and is free no more |
| PageTree.GrownLeaf | kernel/src/user.rs:59-76 | a step down changes no translation of any address space and clears no U bit |
| PageTree.WalkOwned | kernel/src/user.rs:206-238 | the tables on the way to an address are the ones of that way |
| PageTree.Map4kCorrect | kernel/src/user.rs:78-99 | main theorem: after mapping a page, its addresses lead to the new entry, every other page of every address space leads where it did, upper entries keep their U bits, and the tables still form a forest |
| PageTree.WalksAgree | kernel/src/arch/x86_64/isr.rs:272-313 | the walk for user pointers succeeds iff the leaf is present with U, and then agrees with the loader's walk; with the processor's iff the address is canonical or nothing is found |
| PageTree.LastMappingDecides | kernel/src/user.rs:78-99 | over every sequence of mappings in all address spaces: entry, loader's walk and walk for user pointers at an address are given by the last call that named its page, and are as at the start if none did |
| Spaces.MapKernelPage | kernel/src/user.rs:337-344 | a kernel mapping keeps the invariant of all address spaces |
| Spaces.MapNewKeeps | kernel/src/user.rs:287-292 | a fresh frame mapped for user mode keeps it, and belongs to that page alone |
| Spaces.AddressSpacesDisjoint | kernel/src/user.rs:327-375 | main theorem: what a user address reaches was free memory, is no page table, is handed out, and is reached by no other address of this or any other address space |
| Spaces.UserWalkIsHardwareWalk | kernel/src/arch/x86_64/isr.rs:272-313 | at a 64-bit address, the direct-map slot included, the kernel's walk for user pointers finds what the processor finds in user mode iff the address is canonical or the kernel finds nothing; the kernel looks at the address modulo 2^48 |
| Spaces.Rebased | kernel/src/pmm.rs:251-282 | before the first user mapping, what is free now can take the place of what was free at the start |
| Spaces.TakenElsewhere | kernel/src/pmm.rs:251-282 | blocks that others take from the allocator do not disturb the address spaces |
| DirectMap.ChunksCover | kernel/src/arch/x86_64/paging.rs:130-132 | the number of 1 GiB chunks covers every address up to the bound |
| DirectMap.ChunksAre | kernel/src/arch/x86_64/paging.rs:130-132 | and is exactly the least such number, up to 512; it overflows iff the bound is within 1 GiB of 2^64 |
| DirectMap.DirectMapIsIdentity | kernel/src/arch/x86_64/paging.rs:141-160 | through the direct map every physical address below the bound is found at the slot's base plus itself, and never from user mode |
| DirectMap.DirectMapsAgree | kernel/src/user.rs:101-119 | two roots with direct maps of the same extent agree on all of it |
| DirectMap.DirectMapPersists | kernel/src/user.rs:78-99 | 4 KiB mappings elsewhere leave direct maps alone |
| DirectMap.ChunkStep | kernel/src/user.rs:110-118 | one more chunk: a fresh directory, linked and filled |
| DirectMap.LinkBothSlots | kernel/src/arch/x86_64/paging.rs:141-148 | identity map and direct map share one table |
| Worlds.OthersUndisturbed | kernel/src/user.rs:327-375 | whatever was done while building one address space, every program in every other one reads what it read, at every address |
| Worlds.ProgramReads | kernel/src/arch/x86_64/isr.rs:406-413 | the kernel reads for a program what the program reads itself, exactly on canonical addresses and where nothing is mapped |
| Images.StoredReads | kernel/src/user.rs:301-321 | what byte-wise stores through the walk leave at each address |
| Images.StoredElsewhere | kernel/src/user.rs:301-321 | and that they leave all other memory alone |
| Images.StoresLoad | kernel/src/user.rs:294-322 | after mapping, copying and clearing put the segment in memory byte for byte |
| Images.SegmentStays | kernel/src/user.rs:270-322 | a loaded segment stays while page-disjoint ones are loaded after it |
| Images.RangeStep | kernel/src/user.rs:287-292 | mapping page after page maps the whole range and nothing else |
| Images.KernelWalk | kernel/src/user.rs:337-344 | kernel pages are found at their own addresses, by the kernel only |
| Images.WritesIff | kernel/src/user.rs:281-286 | a page of a segment is writable iff the header says PF_W, whatever its other permission bits |
| Images.ImageReads | kernel/src/user.rs:240-325 | main theorem of loading: every byte of every segment is the file byte below p_filesz and 0 from there to p_memsz, read by the kernel and, at canonical addresses, by the program |
| Images.MappedStores | kernel/src/user.rs:287-322 | once its pages are mapped, every store of a well-formed segment finds its place |
| Building.StepsBuild | kernel/src/user.rs:327-370 | the steps of building a process add up to the whole |
| Building.BuiltinIsProgram | kernel/src/user.rs:359-370 | the four-byte program that stands in for a missing image |
| Building.NonCanonicalPointerAccepted | kernel/src/arch/x86_64/isr.rs:272-313 | in every built process whose program leaves the lowest stack page alone, the kernel follows the pointer 2^48 above it, on which the processor would fault |
| UserSpace.Memory.constructor | kernel/src/user.rs:17-25 | no address space yet |
| UserSpace.Memory.Rebase | kernel/src/main.rs:162-185 | from the first build on, user memory is what is free then |
| UserSpace.Memory.AllocTable | kernel/src/user.rs:45-49 | a zeroed frame, or the panic of a failed allocation |
| UserSpace.Memory.GetOrAllocTable | kernel/src/user.rs:59-76 | the step down in place computes the value-level step |
| UserSpace.Memory.Map | kernel/src/user.rs:78-99 | mapping one page in place computes the value-level mapping |
| UserSpace.Memory.MapFresh | kernel/src/user.rs:289-290 | allocate a frame and map it |
| UserSpace.Memory.MapPages | kernel/src/user.rs:287-292 | the loop maps fresh pages to the whole range, with the write permission asked for; it stops only when no frame is left |
| UserSpace.Memory.MapKernel | kernel/src/user.rs:337-344 | the loop maps the kernel image to itself, not for user mode; it stops only when no frame is left |
| UserSpace.Memory.StoreBytes | kernel/src/user.rs:301-321 | the store loop; it completes iff every address is a word and mapped |
| UserSpace.Memory.StoreSegment | kernel/src/user.rs:294-322 | file bytes, then zeros; it completes iff the bytes are in the file and every address is a word and mapped |
| UserSpace.Memory.LoadSegment | kernel/src/user.rs:270-322 | one segment, and what it leaves of everything else; it fails only for a malformed segment or when no frame is left |
| UserSpace.Memory.LoadSegments | kernel/src/user.rs:270-325 | the PT_LOAD segments one after the other; it fails only for a malformed image or when no frame is left |
| UserSpace.Memory.LoadElf | kernel/src/user.rs:240-325 | the whole image: entry point, every segment in memory, other pages and other address spaces untouched; a bad header changes nothing; a well-formed image fails only when no frame is left, and an image that loads, with p_filesz at most p_memsz, is well-formed |
| UserSpace.Memory.FillDirectory | kernel/src/arch/x86_64/paging.rs:155-159 | the inner fill loop |
| UserSpace.Memory.FillChunks | kernel/src/arch/x86_64/paging.rs:150-160 | the nested fill loops; they stop only when no frame is left |
| UserSpace.Memory.MapDirect | kernel/src/user.rs:101-119 | an address space gets its direct map; no translation of any other page changes; it fails only when the bound overflows or no frame is left |
| UserSpace.Memory.InitKernel | kernel/src/arch/x86_64/paging.rs:129-160 | the kernel's own root: identity map and direct map up to the bound; it fails only when the bound overflows or no frame is left |
| UserSpace.Memory.LoadProgram | kernel/src/user.rs:359-370 | the init image, or the program that stands in for it; it fails only for a malformed image or when no frame is left |
| UserSpace.Memory.BuildProc | kernel/src/user.rs:327-370 | a complete process: root, kernel image, direct map, stack and program; all other address spaces, direct maps and their bytes as before; for a well-formed image and boot parameters that are set it fails only when no frame is left |
| Isolation.StoreIsLocal | kernel/src/arch/x86_64/isr.rs:315-322 | a byte stored through a user address is seen at that address of that address space and nowhere else |
| Isolation.IsolatedForever | kernel/src/user.rs:327-375 | over every run of process building and stores: what a program reads, at every address, changes only by its own stores |
| EndToEnd.FlatSpaceExact | kernel/src/arch/x86_64/isr.rs:272-313 | the flat address space that the trap handlers work with says, at every 64-bit address, what the page walk says |
| EndToEnd.BuffersOneToOne | kernel/src/arch/x86_64/isr.rs:315-322 | in a process's address space no two bytes of a buffer of at most a page share a place, so round trips hold for every message |
| EndToEnd.CopyIsStores | kernel/src/arch/x86_64/isr.rs:315-322 | copying to user memory is a run of single stores by that address space |
| EndToEnd.CopyInvisible | kernel/src/arch/x86_64/isr.rs:324-349 | a message copied into one process's buffer is invisible to every other process |
| EndToEnd.SendFromBeyond | kernel/src/arch/x86_64/isr.rs:406-422 | a send from a pointer 2^48 above a buffer sends that buffer's bytes |
| EndToEnd.HeapStacksApart | kernel/src/user.rs:199-204 | kernel stacks from the heap are as far apart as the trap handlers need |
| TrapMemory.TrapMem | kernel/src/arch/x86_64/isr.rs:78-270 | what a trap does to user memory: nothing, or a copy into the running process's own receive buffer, or a copy of its message into the buffer of the first waiter where it sends, cut to what that asked for, or the image of a new process |
| Together.FirstEntry | kernel/src/user.rs:409-420 | the first process, once built, starts the joint machine |
| Together.TurnKeeps | kernel/src/arch/x86_64/isr.rs:44-49 | in every turn of the joint machine (the program stores, traps, the kernel handles it and perhaps builds a process) the handlers' flat spaces stay what the page tables say |
| Together.TurnSeen | kernel/src/arch/x86_64/isr.rs:78-270 | in one turn what a process reads stays, unless it ran itself or a message comes into the buffer it waits with |
| Together.ReadsExplained | kernel/src/arch/x86_64/isr.rs:78-270 | main theorem of memory isolation: over every run of programs, traps, deliveries and spawns, a process that reads something else at an address has run in the meantime, or was sent a message while it waited with a buffer that holds the address |
| Together.MessageCrosses | kernel/src/arch/x86_64/isr.rs:324-349 | byte for byte, the receiver of a direct delivery reads through its page tables what the sender could read through its own when it trapped |
| Together.SpawnedIsReady | kernel/src/user.rs:327-405 | after a spawn the new process is ready to start at the entry point of the program in its address space, on its mapped stack, with its role and its capability number |
| KernelStart.FreeListIsPool | kernel/src/pmm.rs:160-245 | the exact free list is a pool as the page-table code needs it, if usable memory lies below 2^52 |
| KernelStart.StartAllocator | kernel/src/main.rs:126-147 | the page allocator comes up iff initialisation succeeds; after the three trial frames it holds only free memory of the map |
| KernelStart.StartHeap | kernel/src/main.rs:162-163 | the heap block and the frames of the mapping trial are taken; user memory from then on is free memory outside the heap; it fails only when no frame is left or the heap's end leaves 64 bits |
| KernelStart.TryHeap | kernel/src/main.rs:165-182 | the trial allocations one after the other; a failed one halts |
| KernelStart.BringUp | kernel/src/main.rs:126-182 | allocator, kernel tables, heap and trials in the order of the source, and every reason to halt named |
| KernelStart.Start | kernel/src/main.rs:126-185 | main theorem of the start: from the region list to the first process with its kernel stack, everything that the run theorems assume holds, or one of the named reasons to halt does |
| KernelStart.UserNeverReachesOccupied | boot/src/main.rs:281-297 | no user address leads into the kernel image, the framebuffer, the boot information or anything the firmware keeps, unless its region was dropped from the list |
| KernelStart.UserNeverReachesStack | kernel/src/user.rs:199-204 | nor into a kernel stack, whichever heap allocation it came from |
| KernelStart.StartedForever | kernel/src/user.rs:377-407 | over every run of the joint machine after the start: no user address of any process leads into a page table, the heap, or memory to be kept; and the kernel's and the first process's tables find physical memory at the same addresses |
| KernelStart.KernelSeesAll | kernel/src/main.rs:149-160 | kernel image and framebuffer lie under both direct maps, as far as one slot of the top table reaches |
| ElfFile.AcceptedIff | kernel/src/user.rs:240-268 | a file whose header was written in gABI order is taken iff it is a 64-bit little-endian file for this machine whose table of program headers fits |
| ElfFile.ReadBack | kernel/src/user.rs:140-149 | entry point and program headers that were written field by field are what the loader reads, wherever the table lies |
| ElfFile.FileReadsBack | kernel/src/user.rs:240-268 | every list of program headers can be written, and is read back |
| FlatLoader.Extent | boot/src/main.rs:127-137 | the first pass computes the lowest start and the highest end |
| FlatLoader.ExtentCovers | boot/src/main.rs:127-137 | every PT_LOAD segment lies between them |
| FlatLoader.CopyFile | boot/src/main.rs:192-193 | copying replaces exactly the target bytes |
| FlatLoader.SegmentFits | boot/src/main.rs:186-190 | the bounds check of the second pass never fires |
| FlatLoader.Load | boot/src/main.rs:127-194 | both passes over the block; the result says exactly which check failed |
| FlatLoader.FlatElsewhere | boot/src/main.rs:164-166 | where no segment has file bytes, the block holds zero |
| FlatLoader.FlatReads | boot/src/main.rs:164-194 | each byte of each segment, for segments that share no address |
| FlatLoader.TwoLoadersAgree | boot/src/main.rs:127-194 | two loaders, one image: the kernel's page-wise loader and the boot loader's flat one give the same byte at every segment address |
| BootRegions.Push | boot/src/main.rs:253-264 | one region appended, unless it is empty or the list is full |
| BootRegions.BuildList | boot/src/main.rs:252-297 | the list is the first 1365 non-empty regions, firmware entries first and the loader's own last |
| BootRegions.KeptYetFree | boot/src/main.rs:252-297 | an address to be kept is free for the kernel iff the listed regions make it so, and only if its own region was dropped |
| BootRegions.KeptMemoryFreeIff | boot/src/main.rs:252-297 | some memory to be kept becomes free iff some dropped region has an address that the listed regions make free; never when nothing was dropped |
| BootRegions.OccupiedIsNeverFree | boot/src/main.rs:281-297 | nothing in a region that was not dropped, of the loader or the firmware, is ever free memory for the kernel |
| BootRegions.OwnIsWanted | boot/src/main.rs:281-297 | kernel image, framebuffer, boot information and list are each kept by a region of the wanted list |
| BootRegions.FreeMemoryIs | boot/src/main.rs:252-297 | if nothing was dropped, an address is free for the kernel iff it is at or above 1 MiB, its page lies in one piece of conventional memory, meets no other type and nothing the loader occupies |
| BootRegions.CutOffCostsFramebufferOnly | boot/src/main.rs:147-151 | for maps with disjoint descriptors that report the loader's own pages as not conventional: memory to be kept becomes free iff the framebuffer's region was dropped and the listed regions make some of it free |
| BootRegions.FullMapIsFirmwareMap | boot/src/main.rs:147-151 | such a map with 1365 entries |
| BootRegions.CutOffListLosesFramebuffer | boot/src/main.rs:253-256 | with that map the list is full before the framebuffer's turn, and the framebuffer counts as free memory |

## Left out

- Output of PUTC and WRITE, serial, PIC, PIT and port code, the framebuffer console: device I/O. WRITE keeps its result, the number of readable bytes.
- GDT and IDT encodings, the push and pop stubs, TLB flushes and CR3 loads: the stubs are taken to save and restore frames faithfully, rsp0 and CR3 are fields.
- Atomic orderings, and counters beyond 2^64 operations: ring and endpoint counters are unbounded integers.
- TICKS and INITED: the tick counter only drives a log line, and no trap happens before the first process is installed.
- kmap_map_4k and kmap_alloc_4k: the same three steps down as map_4k, without the user bit, for the kernel's own slot 510; used only by a smoke test. KernelStart takes the four frames of that test from the allocator and keeps no table of it.
- KernelStart.Start: what the heap's smoke test allocates is an input, a sequence of layouts, since it depends on how the standard library grows a vector.
- UEFI calls, file reading, GOP setup, the external ELF parser and the jump to the kernel: the boot loader's program headers, the sorted firmware map and the answer to its page request are inputs.
- UserSpace.Memory.BuildProc: requires the init image's pages to avoid PML4 slot 256 and the kernel image to lie below 2^47; a segment in slot 256 would walk into 2 MiB entries as if they were tables. The kernel stack and first trap frame of the new process appear in Machine, Calls and Together.
- UserSpace.Memory.StoreBytes: physical memory is kept as table words and other bytes apart, so a store beyond p_memsz that the walk sends to a kernel page is a store to other bytes only. It is harmless for segments with p_filesz at most p_memsz, which is what the byte-level results ask for.
- Images.ImageReads: asks for p_filesz at most p_memsz and for page-disjoint segments, where the gABI defines the result.
- Isolation.IsolatedForever: processes that are built, and bytes that programs store; frames are never returned, so there is no step for that.
- KernelStart.Start: usable memory is taken to lie below 2^52, which is what a page-table entry can hold, and page tables to be reachable through the direct map.
- KernelStart.UserNeverReachesStack: for a heap block whose direct-map address fits 64 bits; beyond that the address wraps as in the source and is not in the direct map.
- Machine: keeps each address space as a flat map from page number to frame, which Together.TurnKeeps ties to the page tables. The in-place classes Kernel.Tables and UserSpace.Memory are joined on their values, not as objects that share one allocator.
- Together.ReadsExplained: the kernel stack of a spawned process is an input that lies apart from the others; that the heap gives such stacks is EndToEnd.HeapStacksApart.
- Write permission: the kernel copies to user pages without looking at the write bit, and so does the model; the loader's write bit is tracked.
- MemoryMap.FreeListExact: region ends are taken to be at most 2^64 - 4096; beyond that the rounding overflows, which is the panic of MemoryMap.InitOutcomeMeaning and Pmm.BuildFreeList.
- FlatLoader.Load: file length below 2^64 - 1, as every slice is.
