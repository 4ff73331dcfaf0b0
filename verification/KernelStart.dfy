/** The way from the boot loader's list of memory regions to the first process, and what no program can reach in any
    process that is built then or later. */
module KernelStart {
  import opened Words
  import opened Ranges
  import opened MemoryMap
  import opened PageAlloc
  import opened PageTables
  import opened PageTree
  import opened Spaces
  import opened DirectMap
  import opened Elf
  import opened Worlds
  import opened Building
  import Pmm
  import Heap
  import Machine
  import BootRegions
  import Invariant
  import EndToEnd
  import TrapMemory
  import Together
  import opened UserSpace

  const HEAP_SIZE: int := Heap.FIRST_TRY * PAGE_SIZE
  const HEADROOM: int := 0x2000_0000

  /** A kernel stack: bytes, with no alignment asked for. */
  const STACK_LAYOUT: Heap.Layout := Heap.Layout(1, Machine.KSTACK_SIZE)

  // ---- the free list as the page allocator's pool ----

  /** Usable memory lies in the 52 bits that a table entry can hold. */
  predicate Physical(regions: seq<MemoryRegion>) {
    forall i :: 0 <= i < |regions| && regions[i].kind == USABLE ==> MemoryMap.EndOf(regions[i]) <= TWO_52
  }

  lemma FreeIsPhysical(regions: seq<MemoryRegion>, x: int)
    requires Physical(regions) && IsFree(regions, x)
    ensures ONE_MIB <= x < TWO_52
  {
  }

  lemma FreeListIsPool(regions: seq<MemoryRegion>)
    requires AllRepresentable(regions) && FreeList(regions).Some? && Physical(regions)
    ensures PoolOk(Pool(FreeList(regions).value, 0))
    ensures forall x :: Covers(FreeList(regions).value, x) ==> IsFree(regions, x)
  {
    FreeListExact(regions);
    var s := FreeList(regions).value;
    forall i | 0 <= i < |s| ensures PAGE_SIZE <= s[i].base && s[i].end <= TWO_52 {
      assert Covers(s, s[i].base) && Covers(s, s[i].end - 1);
      FreeIsPhysical(regions, s[i].base);
      FreeIsPhysical(regions, s[i].end - 1);
    }
  }

  // ---- what user memory is made of ----

  /** User memory is free memory of the map, and none of it belongs to the heap block. */
  ghost predicate Sealed(regions: seq<MemoryRegion>, block: u64, free0: seq<Range>) {
    forall x :: Covers(free0, x) ==> IsFree(regions, x) && !(block <= x < block + HEAP_SIZE)
  }

  /** No user address of any process leads anywhere but into free memory of the map: not into a table, and not into
      the heap, where the kernel stacks are. */
  lemma UserReachesFreeOnly(regions: seq<MemoryRegion>, block: u64, free0: seq<Range>, w: World, r: int, va: int)
    requires Sound(free0, w) && Sealed(regions, block, free0) && IsRoot(w.own, r)
    requires VirtToPhys(w.mem.tables, r, va).Some?
    ensures var pa := VirtToPhys(w.mem.tables, r, va).value;
            && IsFree(regions, pa) && !(block <= pa < block + HEAP_SIZE)
            && forall f :: f in w.mem.tables && FrameOk(f) ==> !(f <= pa < f + PAGE_SIZE)
  {
    AddressSpacesDisjoint(free0, w.mem, w.own, w.used, r, va, r, va);
  }

  /** With the boot loader's list: not into the kernel image, the framebuffer, the boot information, the list itself, or
      anything else that is to be kept, unless its region was dropped from the list. */
  lemma UserNeverReachesOccupied(ds: seq<BootRegions.Descriptor>, o: BootRegions.Occupied, block: u64, free0: seq<Range>,
                                 w: World, region: MemoryRegion, r: int, va: int)
    requires Sound(free0, w) && IsRoot(w.own, r) && VirtToPhys(w.mem.tables, r, va).Some?
    requires Sealed(BootRegions.Listed(BootRegions.Wanted(ds, o)), block, free0)
    requires region in BootRegions.Wanted(ds, o) && region !in BootRegions.Dropped(BootRegions.Wanted(ds, o))
    ensures !BootRegions.Keeps(region, VirtToPhys(w.mem.tables, r, va).value)
  {
    var rs := BootRegions.Wanted(ds, o);
    var pa := VirtToPhys(w.mem.tables, r, va).value;
    UserReachesFreeOnly(BootRegions.Listed(rs), block, free0, w, r, va);
    if BootRegions.Keeps(region, pa) {
      BootRegions.ListedOrDropped(rs, region);
      BootRegions.InListReserved(BootRegions.Listed(rs), region, pa);
    }
  }

  /** The heap as it comes up over a physical block. */
  function HeapOver(block: u64): Heap.Arena {
    Heap.Arena(WrappingAdd(HHDM_BASE, block), WrappingAdd(HHDM_BASE, block) + HEAP_SIZE)
  }

  /** Nor into a kernel stack: whatever is allocated from the heap, in whatever run of allocations. */
  lemma UserNeverReachesStack(regions: seq<MemoryRegion>, block: u64, free0: seq<Range>, w: World, r: int, va: int,
                              ls: seq<Heap.Layout>, i: nat)
    requires Sound(free0, w) && Sealed(regions, block, free0) && IsRoot(w.own, r)
    requires VirtToPhys(w.mem.tables, r, va).Some?
    requires HHDM_BASE + block + HEAP_SIZE < TWO_64 - 1 && i < |ls| && Heap.BumpAll(HeapOver(block), ls).1[i].Block?
    ensures var base := Heap.BumpAll(HeapOver(block), ls).1[i].base;
            !(base <= HHDM_BASE + VirtToPhys(w.mem.tables, r, va).value < base + ls[i].size)
  {
    hide Sound, Sealed, VirtToPhys, IsFree, Heap.BumpAll, IsRoot;
    UserReachesFreeOnly(regions, block, free0, w, r, va);
    Heap.BlocksDisjoint(HeapOver(block), ls);
  }

  // ---- the steps of the start ----

  /** Bring up the page allocator and take the three frames of its first trial, whether or not they are there. */
  method StartAllocator(regions: seq<MemoryRegion>) returns (pmm: Pmm.Manager, ok: bool)
    requires Physical(regions)
    ensures fresh(pmm) && fresh(pmm.ranges) && pmm.Valid()
    ensures ok <==> InitOutcome(regions).Fine?
    ensures ok ==> pmm.ready && PoolOk(pmm.View()) && OnlyFree(regions, pmm.View())
  {
    pmm := new Pmm.Manager();
    var result := pmm.Init(regions);
    if !result.Ok? {
      return pmm, false;
    }
    FreeListIsPool(regions);
    var n := 0;
    hide FreeList, InitOutcome;
    while n < 3
      invariant fresh(pmm) && fresh(pmm.ranges) && pmm.Valid() && pmm.ready
      invariant PoolOk(pmm.View()) && OnlyFree(regions, pmm.View())
    {
      TakeKeepsPool(pmm.View(), 1);
      var frame := pmm.AllocPages(1);
      n := n + 1;
    }
    return pmm, true;
  }

  ghost predicate OnlyFree(regions: seq<MemoryRegion>, pool: Pool) {
    forall x :: Covers(pool.ranges, x) ==> IsFree(regions, x)
  }

  /** Bring up the heap, then map one page in the trial of the kernel's own mapping area: a frame for it and three tables,
      if the first is there. False is a halt. What is free afterwards is what user memory is made of. */
  method StartHeap(regions: seq<MemoryRegion>, memory: Memory, heap: Heap.LockedBump) returns (ok: bool, ghost block: u64)
    requires memory.Valid() && memory.used == map[] && OnlyFree(regions, memory.View().pool)
    modifies heap, memory`free0, memory.pmm`cursor, memory.pmm.ranges
    ensures memory.Ready() && memory.pmm.ranges == old(memory.pmm.ranges)
    ensures ok ==>
              && memory.Valid() && Sealed(regions, block, memory.free0)
              && heap.ready && IsFree(regions, block) && heap.View() == HeapOver(block) && heap.end < TWO_64
    ensures !ok ==> memory.Exhausted() || (IsFree(regions, block) && HeapOver(block).end >= TWO_64)
  {
    hide IsFree, SpacesOk, Shrinks, Sealed, OnlyFree, Covers, GoodBlocks;
    ghost var pool := memory.View().pool;
    HeapBlock(memory.free0, memory.Now());
    var up := heap.Init(memory.pmm);
    ok, block := false, 0;
    if !up.Down? {
      block := Take(pool, Heap.FIRST_TRY).1.value;
      BlockIsFree(regions, pool, block);
      if up.Up? {
        ok := TakeFrames(memory, 4);
        if ok {
          BlockIsSealed(regions, pool, Take(pool, Heap.FIRST_TRY).0, memory.View().pool, block);
          memory.Rebase();
        }
      }
    } else {
      assert Take(pool, Heap.FIRST_TRY).1.None? && memory.pmm.cursor >= memory.pmm.len;
    }
  }

  /** Nothing of the heap over this block is free. */
  ghost predicate Outside(pool: Pool, block: u64) { forall x :: Covers(pool.ranges, x) ==> !(block <= x < block + HEAP_SIZE) }

  lemma BlockIsFree(regions: seq<MemoryRegion>, pool: Pool, block: u64)
    requires OnlyFree(regions, pool) && Covers(pool.ranges, block)
    ensures IsFree(regions, block)
  {
  }

  lemma BlockIsSealed(regions: seq<MemoryRegion>, pool: Pool, pool1: Pool, pool2: Pool, block: u64)
    requires OnlyFree(regions, pool) && Shrinks(pool, pool1) && Shrinks(pool1, pool2) && Outside(pool1, block)
    ensures Sealed(regions, block, pool2.ranges)
  {
  }

  /** The heap's request, beside the address spaces. */
  lemma HeapBlock(free0: seq<Range>, w: World)
    requires Sound(free0, w)
    ensures var (pool', got) := Take(w.mem.pool, Heap.FIRST_TRY);
            && Sound(free0, w.(mem := w.mem.(pool := pool'))) && Shrinks(w.mem.pool, pool')
            && (got.Some? ==> Covers(w.mem.pool.ranges, got.value) && Outside(pool', got.value))
  {
    TakenElsewhere(free0, w.mem, w.own, w.used, Heap.FIRST_TRY);
    TakeKeepsPool(w.mem.pool, Heap.FIRST_TRY);
    TakeCorrect(w.mem.pool, Heap.FIRST_TRY);
  }

  /** Take frames for something that no address space has part in. */
  method TakeFrames(memory: Memory, n: nat) returns (ok: bool)
    requires memory.Valid()
    modifies memory.pmm`cursor, memory.pmm.ranges
    ensures memory.Valid() && memory.pmm.ranges == old(memory.pmm.ranges)
    ensures Shrinks(old(memory.View()).pool, memory.View().pool)
    ensures !ok ==> memory.Exhausted()
  {
    var i := 0;
    while i < n
      invariant memory.Valid() && memory.pmm.ranges == old(memory.pmm.ranges)
      invariant Shrinks(old(memory.View()).pool, memory.View().pool)
    {
      TakenElsewhere(memory.free0, memory.View(), memory.own, memory.used, 1);
      TakeKeepsPool(memory.View().pool, 1);
      TakeCorrect(memory.View().pool, 1);
      var frame := memory.pmm.AllocPages(1);
      if frame.None? {
        return i == 0;
      }
      i := i + 1;
    }
    return true;
  }

  /** How much physical memory the direct maps cover: the kernel and the framebuffer, and some headroom. */
  function MaxPhys(kernelEnd: u64, fbBase: u64, fbSize: u64): u64 {
    SaturatingAdd(Max(kernelEnd, SaturatingAdd(fbBase, fbSize)), HEADROOM)
  }

  /** The allocations of the heap's trial. False is a halt for want of memory. */
  method TryHeap(heap: Heap.LockedBump, trial: seq<Heap.Layout>) returns (ok: bool)
    requires heap.ready
    modifies heap`next
    ensures ok ==> heap.View() == Heap.BumpAll(old(heap.View()), trial).0
    ensures ok <==> forall i :: 0 <= i < |trial| ==> Heap.BumpAll(old(heap.View()), trial).1[i].Block?
  {
    ghost var h := heap.View();
    var i := 0;
    assert trial[..0] == [];
    while i < |trial|
      invariant 0 <= i <= |trial| && heap.View() == Heap.BumpAll(h, trial[..i]).0
      invariant forall k :: 0 <= k < i ==> Heap.BumpAll(h, trial[..i]).1[k].Block?
    {
      assert trial[..i + 1][..i] == trial[..i];
      var got := heap.Alloc(trial[i]);
      if !got.Block? {
        FirstFailure(h, trial, i);
        return false;
      }
      i := i + 1;
    }
    assert trial[..i] == trial;
    return true;
  }

  lemma {:induction false} FirstFailure(h: Heap.Arena, ls: seq<Heap.Layout>, i: nat)
    requires i < |ls|
    ensures Heap.BumpAll(h, ls).1[i] == Heap.Bump(Heap.BumpAll(h, ls[..i]).0, ls[i]).1
  {
    var n := |ls| - 1;
    if i < n {
      FirstFailure(h, ls[..n], i);
      assert ls[..n][..i] == ls[..i];
    }
  }

  /** What memory looks like when the first process is entered: n is the extent of all direct maps. */
  ghost predicate Started(regions: seq<MemoryRegion>, block: u64, free0: seq<Range>, w: World, kroot: int, root: int, n: int) {
    Rooted(free0, w, kroot, root, n) && Sealed(regions, block, free0)
  }

  /** The kernel's root and the root of the first process, each with its direct map. */
  ghost predicate Rooted(free0: seq<Range>, w: World, kroot: int, root: int, n: int) {
    && Sound(free0, w) && FrameOk(kroot) && kroot !in w.own && IsRoot(w.own, root)
    && DirectAt(w.mem.tables, w.own, kroot, 0, n) && DirectAt(w.mem.tables, w.own, kroot, HHDM_SLOT, n)
    && DirectAt(w.mem.tables, w.own, root, HHDM_SLOT, n)
  }

  /** The first process comes beside the kernel's own tables. */
  lemma FirstProcess(regions: seq<MemoryRegion>, block: u64, free0: seq<Range>, w: World, w': World, kroot: int, root: int,
                     start: int, end: int, n: int, elf: seq<byte>, entry: int)
    requires Sealed(regions, block, free0) && FrameOk(kroot) && kroot !in w.own
    requires DirectAt(w.mem.tables, w.own, kroot, 0, n) && DirectAt(w.mem.tables, w.own, kroot, HHDM_SLOT, n)
    requires ProcBuilt(free0, w, w', root, start, end, n, elf, entry)
    ensures Started(regions, block, free0, w', kroot, root, n)
  {
    hide Sound, Sealed, DirectAt, ProgramLoaded, BytesKept, FrameOk;
    var t, t' := w.mem.tables, w'.mem.tables;
    assert Kept(w, w', root);
    assert DirectAt(t', w'.own, kroot, 0, n) && DirectAt(t', w'.own, kroot, HHDM_SLOT, n);
  }

  /** The heap over this block holds all that is allocated before the first process runs. */
  ghost predicate HeapFits(block: u64, trial: seq<Heap.Layout>) {
    && HeapOver(block).end < TWO_64
    && forall i :: 0 <= i <= |trial| ==> Heap.BumpAll(HeapOver(block), trial + [STACK_LAYOUT]).1[i].Block?
  }

  /** Page allocator, the kernel's own tables, heap, and the trials of each. No memory is a halt, or no allocator. */
  method BringUp(regions: seq<MemoryRegion>, max: u64, trial: seq<Heap.Layout>)
    returns (memory: Memory?, pmm: Pmm.Manager, heap: Heap.LockedBump, kroot: int, ghost block: u64)
    requires Physical(regions)
    ensures fresh(heap) && fresh(pmm) && fresh(pmm.ranges) && pmm.Valid()
    ensures memory != null ==>
              && fresh(memory) && memory.pmm == pmm && memory.Valid() && Sealed(regions, block, memory.free0)
              && Chunks(max).Some? && FrameOk(kroot) && kroot !in memory.own
              && DirectAt(memory.tables, memory.own, kroot, 0, Chunks(max).value)
              && DirectAt(memory.tables, memory.own, kroot, HHDM_SLOT, Chunks(max).value)
              && heap.ready && IsFree(regions, block) && heap.View() == Heap.BumpAll(HeapOver(block), trial).0
              && HeapOver(block).end < TWO_64
              && forall i :: 0 <= i < |trial| ==> Heap.BumpAll(HeapOver(block), trial).1[i].Block?
    ensures memory == null ==>
              || !InitOutcome(regions).Fine? || Chunks(max).None? || (pmm.ready && pmm.cursor >= pmm.len)
              || (IsFree(regions, block) && !HeapFits(block, trial))
  {
    hide Sealed, FreeList, DirectAt, Sound, Chunks, InitOutcome, IsFree, Heap.BumpAll;
    memory, kroot, block := null, 0, 0;
    heap := new Heap.LockedBump();
    var ok;
    pmm, ok := StartAllocator(regions);
    if ok {
      var mem := new Memory(pmm);
      var kernel := mem.InitKernel(max);
      if kernel.Some? {
        ok, block := StartHeap(regions, mem, heap);
        if ok {
          ok := TryHeap(heap, trial);
          TrialThenStack(block, trial);
          if ok {
            memory, kroot := mem, kernel.value;
          }
        }
      }
    }
  }

  lemma TrialThenStack(block: u64, trial: seq<Heap.Layout>)
    ensures var (h, got), (h', got') := Heap.BumpAll(HeapOver(block), trial), Heap.BumpAll(HeapOver(block), trial + [STACK_LAYOUT]);
            && h' == Heap.Bump(h, STACK_LAYOUT).0 && got'[|trial|] == Heap.Bump(h, STACK_LAYOUT).1
            && forall i :: 0 <= i < |trial| ==> got'[i] == got[i]
  {
    assert (trial + [STACK_LAYOUT])[..|trial|] == trial;
  }

  /** From the region list to the first process: after the start of memory, its address space and its kernel stack.
      trial is what the trial of the heap allocates. */
  method Start(regions: seq<MemoryRegion>, kernelBase: u64, kernelEnd: u64, fbBase: u64, fbSize: u64, elf: seq<byte>,
               trial: seq<Heap.Layout>)
    returns (memory: Memory?, pmm: Pmm.Manager, heap: Heap.LockedBump, kroot: int, root: int, stack: int, ghost block: u64)
    requires Physical(regions) && kernelEnd <= LOWER_HALF
    requires HeaderOk(elf) ==> AvoidsDirectMap(Phdrs(elf))
    ensures memory != null ==>
              && memory.Ready() && Chunks(MaxPhys(kernelEnd, fbBase, fbSize)).Some? && heap.ready
              && Rooted(memory.free0, memory.Now(), kroot, root, Chunks(MaxPhys(kernelEnd, fbBase, fbSize)).value)
    ensures memory != null ==>
              && Started(regions, block, memory.free0, memory.Now(), kroot, root,
                         Chunks(MaxPhys(kernelEnd, fbBase, fbSize)).value)
              && HeapFits(block, trial)
              && var (h, got) := Heap.BumpAll(HeapOver(block), trial + [STACK_LAYOUT]);
                 heap.View() == h && got[|trial|] == Heap.Block(stack)
    ensures memory == null ==>
              || !InitOutcome(regions).Fine? || kernelBase == 0 || kernelEnd == 0
              || Chunks(MaxPhys(kernelEnd, fbBase, fbSize)).None? || (elf != [] && !WellFormed(elf))
              || (pmm.ready && pmm.cursor >= pmm.len) || (IsFree(regions, block) && !HeapFits(block, trial))
  {
    hide Rooted, Sealed, ProcBuilt, DirectAt, Sound, Chunks, InitOutcome, IsFree, Heap.BumpAll, WellFormed, Heap.Bump;
    var max := MaxPhys(kernelEnd, fbBase, fbSize);
    memory, root, stack := null, 0, 0;
    var mem;
    mem, pmm, heap, kroot, block := BringUp(regions, max, trial);
    if mem != null {
      ghost var w := mem.Now();
      var proc := mem.BuildProc(kernelBase, kernelEnd, max, elf);
      if proc.Some? {
        FirstProcess(regions, block, mem.free0, w, mem.Now(), kroot, proc.value.0, PageDown(kernelBase), kernelEnd,
                     Chunks(max).value, elf, proc.value.1);
        TrialThenStack(block, trial);
        var got := heap.Alloc(STACK_LAYOUT);
        if got.Block? {
          memory, root, stack := mem, proc.value.0, got.base;
        }
      }
    }
  }

  // ---- from then on ----

  lemma TurnStaysStarted(regions: seq<MemoryRegion>, block: u64, free0: seq<Range>, s: Machine.State, w: World, m: Together.Move,
                         s': Machine.State, w': World, kroot: int, root: int, n: int)
    requires Together.Coupled(free0, s, w) && Together.Turn(free0, s, w, m.ev, m.w1, m.w2, s', w')
    requires Started(regions, block, free0, w, kroot, root, n)
    ensures Started(regions, block, free0, w', kroot, root, n)
  {
    hide SpacesOk, Sealed, DirectAt, ProgramLoaded, BytesKept, FrameOk, EndToEnd.FlatSpace, Machine.Trap;
    hide Invariant.Core, Together.SpacesMatch;
    Together.ActsKeep(free0, w, s.cr3, m.w1);
    if TrapMemory.Spawns(m.ev) {
      var start, end, k, elf, entry :| ProcBuilt(free0, m.w1, m.w2, m.ev.build.cr3, start, end, k, elf, entry);
      assert Kept(m.w1, m.w2, m.ev.build.cr3);
      var t, own := m.w2.mem.tables, m.w2.own;
      assert DirectAt(t, own, kroot, 0, n) && DirectAt(t, own, kroot, HHDM_SLOT, n) && DirectAt(t, own, root, HHDM_SLOT, n);
    }
  }

  /** Over every run of the machine from the first entry on, with whatever programs, spawns and messages: no user address of
      any process leads into a page table, into the heap with its kernel stacks, or into memory that the boot loader's list
      says to keep; and in the kernel's own tables and the first process's, physical memory is found at the same
      addresses. */
  lemma {:induction false} StartedForever(ds: seq<BootRegions.Descriptor>, o: BootRegions.Occupied, block: u64,
                                          free0: seq<Range>, ss: seq<Machine.State>, ws: seq<World>, ms: seq<Together.Move>,
                                          kroot: int, root: int, n: int, i: nat)
    requires Together.IsHistory(free0, ss, ws, ms) && i <= |ms|
    requires Started(BootRegions.Listed(BootRegions.Wanted(ds, o)), block, free0, ws[0], kroot, root, n)
    ensures Started(BootRegions.Listed(BootRegions.Wanted(ds, o)), block, free0, ws[i], kroot, root, n)
    ensures forall r, va :: IsRoot(ws[i].own, r) && VirtToPhys(ws[i].mem.tables, r, va).Some? ==>
              OutOfReach(ds, o, block, ws[i], VirtToPhys(ws[i].mem.tables, r, va).value)
    ensures forall phys :: 0 <= phys < n * GIB && n <= 512 ==> FoundAlike(ws[i], kroot, root, phys)
  {
    hide Started, Together.Turn, Together.Coupled, VirtToPhys, FoundAlike, DirectAt, OutOfReach;
    var regions, w := BootRegions.Listed(BootRegions.Wanted(ds, o)), ws[i];
    if i > 0 {
      var m := ms[i - 1];
      StartedForever(ds, o, block, free0, ss, ws, ms, kroot, root, n, i - 1);
      Together.HistoryKeeps(free0, ss, ws, ms, i - 1);
      assert Together.TurnAt(free0, ss, ws, ms, i - 1);
      TurnStaysStarted(regions, block, free0, ss[i - 1], ws[i - 1], m, ss[i], w, kroot, root, n);
    }
    forall r, va | IsRoot(w.own, r) && VirtToPhys(w.mem.tables, r, va).Some?
      ensures OutOfReach(ds, o, block, w, VirtToPhys(w.mem.tables, r, va).value)
    {
      UserApart(ds, o, block, free0, w, kroot, root, n, r, va);
    }
    forall phys | 0 <= phys < n * GIB && n <= 512 ensures FoundAlike(w, kroot, root, phys) {
      SameDirectMaps(regions, block, free0, w, kroot, root, n, phys);
    }
  }

  /** Through both roots the processor finds the physical address at its place in the upper half. */
  ghost predicate FoundAlike(w: World, kroot: int, root: int, phys: int) {
    HardwareWalk(w.mem.tables, kroot, HHDM_BASE + phys) == HardwareWalk(w.mem.tables, root, HHDM_BASE + phys) == Some(phys)
  }

  /** The address is in no table, not in the heap, and in no region that is to be kept, unless that was dropped. */
  ghost predicate OutOfReach(ds: seq<BootRegions.Descriptor>, o: BootRegions.Occupied, block: u64, w: World, pa: int) {
    var rs := BootRegions.Wanted(ds, o);
    && !(block <= pa < block + HEAP_SIZE)
    && (forall f :: f in w.mem.tables && FrameOk(f) ==> !(f <= pa < f + PAGE_SIZE))
    && forall region :: region in rs && region !in BootRegions.Dropped(rs) ==> !BootRegions.Keeps(region, pa)
  }

  lemma UserApart(ds: seq<BootRegions.Descriptor>, o: BootRegions.Occupied, block: u64, free0: seq<Range>, w: World,
                  kroot: int, root: int, n: int, r: int, va: int)
    requires Started(BootRegions.Listed(BootRegions.Wanted(ds, o)), block, free0, w, kroot, root, n)
    requires IsRoot(w.own, r) && VirtToPhys(w.mem.tables, r, va).Some?
    ensures OutOfReach(ds, o, block, w, VirtToPhys(w.mem.tables, r, va).value)
  {
    hide VirtToPhys, DirectAt, Sealed, SpacesOk, BootRegions.Keeps;
    var rs := BootRegions.Wanted(ds, o);
    UserReachesFreeOnly(BootRegions.Listed(rs), block, free0, w, r, va);
    forall region | region in rs && region !in BootRegions.Dropped(rs)
      ensures !BootRegions.Keeps(region, VirtToPhys(w.mem.tables, r, va).value)
    {
      UserNeverReachesOccupied(ds, o, block, free0, w, region, r, va);
    }
  }

  lemma SameDirectMaps(regions: seq<MemoryRegion>, block: u64, free0: seq<Range>, w: World, kroot: int, root: int, n: int,
                       phys: int)
    requires Started(regions, block, free0, w, kroot, root, n) && 0 <= phys < n * GIB && n <= 512
    ensures FoundAlike(w, kroot, root, phys)
  {
    hide SpacesOk, Sealed, HardwareWalk, DirectAt;
    assert FrameOk(root) by {
      RootIsFrame(free0, w, root);
    }
    DirectMapsAgree(w.mem.tables, w.own, kroot, root, n, phys);
  }

  /** The kernel image and the framebuffer lie under both direct maps, as far as one slot of the top table reaches. */
  lemma KernelSeesAll(free0: seq<Range>, w: World, kroot: int, root: int, n: int, kernelEnd: u64, fbBase: u64, fbSize: u64,
                      x: int)
    requires Chunks(MaxPhys(kernelEnd, fbBase, fbSize)) == Some(n) && Rooted(free0, w, kroot, root, n)
    requires 0 <= x < kernelEnd || fbBase <= x < fbBase + fbSize
    requires x < 512 * GIB
    ensures FoundAlike(w, kroot, root, x)
  {
    hide SpacesOk, HardwareWalk, DirectAt, Chunks;
    ChunksCover(MaxPhys(kernelEnd, fbBase, fbSize), x);
    RootIsFrame(free0, w, root);
    DirectMapsAgree(w.mem.tables, w.own, kroot, root, n, x);
  }

  lemma RootIsFrame(free0: seq<Range>, w: World, root: int)
    requires Sound(free0, w) && IsRoot(w.own, root)
    ensures FrameOk(root)
  {
    assert FrameOwned(w.mem.tables, w.own, root);
  }
}
