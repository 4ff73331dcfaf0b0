/** Physical memory as the paging code updates it: tables, other bytes, and the allocator. Builds the kernel's
    direct map and the address spaces of processes. */
module UserSpace {
  import opened Words
  import opened Ranges
  import opened PageAlloc
  import opened PageTables
  import opened PageTree
  import opened Spaces
  import opened DirectMap
  import opened Elf
  import opened Worlds
  import opened Images
  import opened Building
  import Pmm

  datatype Loading = Done | Refused | Panicked

  datatype LoadResult = Entry(address: u64) | NotLoaded | Halted

  class Memory {
    var tables: Tables
    var bytes: map<int, int>
    const pmm: Pmm.Manager
    ghost var own: Ways
    ghost var used: Uses
    ghost var free0: seq<Range>

    ghost predicate Ready()
      reads this, pmm, pmm.ranges
    {
      pmm.Valid() && pmm.ready
    }

    /** No frame is left. */
    ghost predicate Exhausted()
      reads this, pmm, pmm.ranges
    {
      Ready() && pmm.cursor >= pmm.len
    }

    ghost function View(): Mem
      requires Ready()
      reads this, pmm, pmm.ranges
    {
      Mem(tables, pmm.View())
    }

    ghost function Now(): World
      requires Ready()
      reads this, pmm, pmm.ranges
    {
      World(View(), own, used, bytes)
    }

    ghost predicate Valid()
      reads this, pmm, pmm.ranges
    {
      Ready() && Sound(free0, Now())
    }

    /** No address space exists yet; the allocator hands out addresses from one page up to 2^52. */
    constructor (pmm: Pmm.Manager)
      requires pmm.Valid() && pmm.ready && PoolOk(pmm.View())
      ensures Valid() && own == map[] && used == map[] && this.pmm == pmm && free0 == pmm.View().ranges
    {
      this.pmm, tables, bytes, own, used, free0 := pmm, map[], map[], map[], map[], pmm.ranges[..pmm.len];
    }

    /** From now on user memory is what is free now. */
    ghost method Rebase()
      requires Valid() && used == map[]
      modifies this`free0
      ensures Valid() && free0 == View().pool.ranges
    {
      Rebased(free0, View(), own);
      free0 := View().pool.ranges;
    }

    method AllocTable() returns (c: Option<int>)
      requires Ready()
      modifies this`tables, pmm`cursor, pmm.ranges
      ensures Ready() && pmm.ranges == old(pmm.ranges)
      ensures c.None? <==> NewTable(old(View())).None?
      ensures c.Some? ==> NewTable(old(View())) == Some((View(), c.value)) && Shrinks(old(View()).pool, View().pool)
      ensures c.None? ==> Exhausted()
    {
      TakeCorrect(View().pool, 1);
      var p := pmm.AllocPages(1);
      if p.None? {
        return None;
      }
      tables := tables[p.value := ZeroTable()];
      return Some(p.value);
    }

    method GetOrAllocTable(f: int, i: int, user: bool) returns (c: Option<int>)
      requires Ready()
      modifies this`tables, pmm`cursor, pmm.ranges
      ensures Ready() && pmm.ranges == old(pmm.ranges)
      ensures c.None? <==> GetOrAlloc(old(View()), f, i, user).None?
      ensures c.Some? ==> GetOrAlloc(old(View()), f, i, user) == Some((View(), c.value))
      ensures c.None? ==> Exhausted()
    {
      var v := Rd(tables, f, i);
      if Present(v) {
        if user && !User(v) {
          AddUserParts(v);
          v := v + 4;
          tables := Wr(tables, f, i, v);
        }
        return Some(FrameOf(v));
      }
      var t := AllocTable();
      if t.None? {
        return None;
      }
      tables := Wr(tables, f, i, Link(t.value, user));
      return t;
    }

    method Map(root: int, va: int, phys: u64, user: bool, write: bool) returns (ok: bool)
      requires Ready()
      modifies this`tables, pmm`cursor, pmm.ranges
      ensures Ready() && pmm.ranges == old(pmm.ranges)
      ensures ok <==> Map4k(old(View()), root, va, phys, user, write).Some?
      ensures ok ==> Map4k(old(View()), root, va, phys, user, write) == Some(View())
      ensures !ok ==> Exhausted()
    {
      var pdpt := GetOrAllocTable(root, Idx4(va), user);
      if pdpt.None? {
        return false;
      }
      var pd := GetOrAllocTable(pdpt.value, Idx3(va), user);
      if pd.None? {
        return false;
      }
      var pt := GetOrAllocTable(pd.value, Idx2(va), user);
      if pt.None? {
        return false;
      }
      tables := Wr(tables, pt.value, Idx1(va), LeafWord(phys, user, write));
      return true;
    }

    // ---- ranges of pages ----

    /** Allocate a frame and map the page of va to it for user mode. */
    method MapFresh(root: int, va: int, write: bool) returns (frame: Option<int>)
      requires Ready()
      modifies this`tables, pmm`cursor, pmm.ranges
      ensures Ready() && pmm.ranges == old(pmm.ranges)
      ensures frame.None? <==> MapNew(old(View()), root, va, write).None?
      ensures frame.Some? ==> MapNew(old(View()), root, va, write) == Some((View(), frame.value))
      ensures frame.None? ==> Exhausted()
    {
      TakeCorrect(View().pool, 1);
      var p := pmm.AllocPages(1);
      if p.None? {
        return None;
      }
      var ok := Map(root, va, p.value, true, write);
      frame := if ok then Some(p.value) else None;
    }

    /** Map fresh user pages to all of [start, end). */
    method MapPages(root: int, start: u64, end: u64, write: bool) returns (ok: bool)
      requires Valid() && IsRoot(own, root) && start % PAGE_SIZE == 0 && end % PAGE_SIZE == 0 && start <= end
      requires forall x: int {:trigger Idx4(x)} :: start <= x < end ==> Idx4(x) != HHDM_SLOT
      modifies this`tables, this`own, this`used, pmm`cursor, pmm.ranges
      ensures Ready() && pmm.ranges == old(pmm.ranges)
      ensures ok ==> Valid() && RangeMapped(old(Now()), Now(), root, start, end, write)
      ensures !ok ==> Exhausted()
    {
      hide Sound, RangeMapped, MapNew;
      ghost var w0 := Now();
      var v := start;
      NothingMapped(free0, w0, root, start, write);
      while v < end
        invariant start <= v <= end && v % PAGE_SIZE == 0
        invariant pmm.ranges == old(pmm.ranges) && Valid()
        invariant RangeMapped(w0, Now(), root, start, v, write)
      {
        ghost var w := Now();
        var frame := MapFresh(root, v, write);
        if frame.None? {
          return false;
        }
        ghost var w' := FreshPage(free0, w0, w, root, start, v, end, write);
        own, used := w'.own, w'.used;
        assert Now() == w';
        NextPage(v, end);
        v := v + PAGE_SIZE;
      }
      return true;
    }

    /** Map the pages of the kernel image to themselves, for the kernel only. */
    method MapKernel(root: int, start: u64, end: u64) returns (ok: bool)
      requires Valid() && IsRoot(own, root) && start % PAGE_SIZE == 0 && end % PAGE_SIZE == 0 && end <= LOWER_HALF
      modifies this`tables, this`own, pmm`cursor, pmm.ranges
      ensures Ready() && pmm.ranges == old(pmm.ranges)
      ensures ok ==> Valid() && KernelRange(old(Now()), Now(), root, start, Max(start, end))
      ensures !ok ==> Exhausted()
    {
      hide Sound, KernelRange, Map4k;
      ghost var w0 := Now();
      var p := start;
      NoKernelPages(free0, w0, root, start);
      while p < end
        invariant start <= p <= Max(start, end) && p % PAGE_SIZE == 0
        invariant pmm.ranges == old(pmm.ranges) && Valid()
        invariant KernelRange(w0, Now(), root, start, p)
      {
        ghost var w := Now();
        ok := Map(root, p, p, false, true);
        if !ok {
          return false;
        }
        ghost var w' := KernelPage(free0, w0, w, root, start, p);
        own := w'.own;
        assert Now() == w';
        NextPage(p, end);
        p := p + PAGE_SIZE;
      }
      return true;
    }

    // ---- loading an image ----

    /** Store the bytes one by one, each where the walk finds its address. */
    method StoreBytes(root: int, va: int, data: seq<byte>) returns (out: Loading)
      modifies this`bytes
      ensures out.Done? ==> bytes == Stored(old(bytes), tables, root, va, data)
      ensures out.Done? <==> AllStore(tables, root, va, |data|)
    {
      hide Stored, PaAt, Leaf, Translate4k;
      ghost var before := bytes;
      var off := 0;
      StoreNothing(before, tables, root, va);
      assert data[..0] == [];
      while off < |data|
        invariant 0 <= off <= |data|
        invariant AllStore(tables, root, va, off)
        invariant bytes == Stored(before, tables, root, va, data[..off])
      {
        if va + off >= TWO_64 {
          assert !Stores(tables, root, va, off);
          return Panicked;
        }
        WhereStored(tables, root, va, off);
        StoreOne(before, tables, root, va, data, off);
        var pa := Translate4k(tables, root, va + off);
        if pa.None? {
          assert !Stores(tables, root, va, off);
          return Refused;
        }
        assert Stores(tables, root, va, off);
        bytes := bytes[pa.value := data[off]];
        off := off + 1;
      }
      assert data[..off] == data;
      return Done;
    }

    /** Copy the file's part of a segment, then clear the rest. */
    method StoreSegment(root: int, elf: seq<byte>, ph: Phdr) returns (out: Loading)
      modifies this`bytes
      ensures out.Done? ==> InFile(elf, ph) && bytes == SegmentStored(old(bytes), tables, root, elf, ph)
      ensures out.Done? <==> SegmentStores(tables, root, elf, ph)
    {
      hide Stored, PaAt, Leaf, Stores;
      StoreNothing(bytes, tables, root, ph.vaddr);
      if ph.filesz != 0 {
        if ph.offset + ph.filesz > |elf| {
          return Refused;
        }
        out := StoreBytes(root, ph.vaddr, elf[ph.offset..ph.offset + ph.filesz]);
        if !out.Done? {
          return;
        }
      }
      if ph.memsz > ph.filesz {
        out := StoreBytes(root, ph.vaddr + ph.filesz, Zeros(ph.memsz - ph.filesz));
      } else {
        StoreNothing(bytes, tables, root, ph.vaddr + ph.filesz);
        out := Done;
      }
    }

    /** Map the pages of one segment, then store its bytes. */
    method LoadSegment(root: int, elf: seq<byte>, ph: Phdr) returns (out: Loading)
      requires Valid() && IsRoot(own, root) && Loadable(ph)
      requires forall x: int {:trigger OnPages(ph, x)} :: OnPages(ph, x) ==> Idx4(x) != HHDM_SLOT
      modifies this`tables, this`bytes, this`own, this`used, pmm`cursor, pmm.ranges
      ensures Ready() && pmm.ranges == old(pmm.ranges)
      ensures out.Done? ==> Valid() && SegmentLoaded(free0, old(Now()), Now(), root, elf, ph)
      ensures !out.Done? ==> Malformed(elf, ph) || Exhausted()
    {
      ghost var w := Now();
      var start := PageDown(ph.vaddr);
      var end := PageUp(SaturatingAdd(ph.vaddr, ph.memsz));
      if end.None? {
        return Panicked;
      }
      PagesCovered(ph, end.value);
      forall x: int | start <= x < end.value ensures Idx4(x) != HHDM_SLOT {
        assert OnPages(ph, x);
      }
      var ok := MapPages(root, start, end.value, Writes(ph));
      if !ok {
        return Panicked;
      }
      ghost var w1 := Now();
      if !Malformed(elf, ph) {
        MappedStores(w1, root, elf, ph, end.value);
      }
      out := StoreSegment(root, elf, ph);
      if out.Done? {
        MapThenStore(free0, w, w1, root, elf, ph, end.value);
      }
    }

    /** Load the PT_LOAD segments one after the other. */
    method LoadSegments(root: int, elf: seq<byte>) returns (out: Loading)
      requires Valid() && IsRoot(own, root) && HeaderOk(elf) && AvoidsDirectMap(Phdrs(elf))
      modifies this`tables, this`bytes, this`own, this`used, pmm`cursor, pmm.ranges
      ensures Ready() && pmm.ranges == old(pmm.ranges)
      ensures out.Done? ==> Valid() && ImageLoaded(free0, old(Now()), Now(), root, elf, Phdrs(elf))
      ensures !out.Done? ==> !WellFormed(elf) || Exhausted()
    {
      hide Sound, ImageLoaded, SegmentLoaded, HeaderOk, AvoidsDirectMap, Loadable, Phdrs, PhdrAt, SegmentCount, OnPages;
      hide WellFormed, Malformed;
      ghost var w := Now();
      ghost var phs := Phdrs(elf);
      var n, i := SegmentCount(elf), 0;
      PhdrsAre(elf);
      NoSegmentsYet(free0, w, root, elf);
      assert phs[..0] == [];
      out := Done;
      while i < n
        invariant 0 <= i <= n == |phs| && Valid() && pmm.ranges == old(pmm.ranges) && out.Done?
        invariant ImageLoaded(free0, w, Now(), root, elf, phs[..i]) && IsRoot(own, root)
      {
        ghost var w1 := Now();
        var ph := PhdrAt(elf, i);
        assert phs[..i + 1] == phs[..i] + [ph];
        if Loadable(ph) {
          SegmentAvoids(phs, i);
          out := LoadSegment(root, elf, ph);
          if !out.Done? {
            if !Exhausted() {
              MalformedAt(elf, i);
            }
            return;
          }
          AddSegment(free0, w, w1, Now(), root, elf, phs[..i], ph);
        } else {
          SkipSegment(free0, w, w1, root, elf, phs[..i], ph);
        }
        i := i + 1;
      }
      assert phs[..n] == phs;
    }

    /** Load an image into the address space. */
    method LoadElf(root: int, elf: seq<byte>) returns (result: LoadResult)
      requires Valid() && IsRoot(own, root)
      requires HeaderOk(elf) ==> AvoidsDirectMap(Phdrs(elf))
      modifies this`tables, this`bytes, this`own, this`used, pmm`cursor, pmm.ranges
      ensures Ready() && pmm.ranges == old(pmm.ranges)
      ensures result.Entry? ==>
                && HeaderOk(elf) && result.address == EntryPoint(elf)
                && Valid() && ImageLoaded(free0, old(Now()), Now(), root, elf, Phdrs(elf))
                && (SizesOk(Phdrs(elf)) ==> WellFormed(elf))
      ensures !HeaderOk(elf) ==> result.NotLoaded? && bytes == old(bytes) && View() == old(View())
      ensures !result.Entry? ==> !WellFormed(elf) || Exhausted()
    {
      if !HeaderOk(elf) {
        return NotLoaded;
      }
      ghost var w := Now();
      var out := LoadSegments(root, elf);
      match out
      case Refused => result := NotLoaded;
      case Panicked => result := Halted;
      case Done =>
        if SizesOk(Phdrs(elf)) {
          LoadedIsWellFormed(free0, w, Now(), root, elf);
        }
        result := Entry(EntryPoint(elf));
    }

    // ---- the direct map ----

    /** Fill a page directory with the 2 MiB pages of one chunk. */
    method FillDirectory(pd: int, chunk: int)
      requires pd in tables && |tables[pd]| == ENTRIES
      modifies this`tables
      ensures tables == old(tables)[pd := DirectRow(chunk)]
    {
      ghost var t := tables;
      var j := 0;
      while j < ENTRIES
        invariant 0 <= j <= ENTRIES && pd in tables && |tables[pd]| == ENTRIES
        invariant forall k :: 0 <= k < j ==> tables[pd][k] == DirectRow(chunk)[k]
        invariant tables == t[pd := tables[pd]]
      {
        tables := Wr(tables, pd, j, chunk + j * HUGE_2M + HUGE_BITS);
        j := j + 1;
      }
      assert tables[pd] == DirectRow(chunk);
    }

    /** Link and fill n page directories. */
    method FillChunks(pdpt: int, n: int) returns (ok: bool)
      requires Valid() && DirectPdpt(tables, own, pdpt, 0) && 0 <= n <= ENTRIES
      modifies this`tables, pmm`cursor, pmm.ranges
      ensures Ready() && pmm.ranges == old(pmm.ranges)
      ensures ok ==> Valid() && DirectPdpt(tables, own, pdpt, n) && AddedBeside(old(tables), tables, pdpt)
      ensures ok ==> Shrinks(old(View()).pool, View().pool)
      ensures !ok ==> Exhausted()
    {
      hide SpacesOk, DirectPdpt;
      ghost var t0, pool := tables, View().pool;
      var i := 0;
      while i < n
        invariant 0 <= i <= n && Ready() && SpacesOk(free0, View(), own, used) && pmm.ranges == old(pmm.ranges)
        invariant DirectPdpt(tables, own, pdpt, i) && AddedBeside(t0, tables, pdpt) && Shrinks(pool, View().pool)
      {
        ghost var m := View();
        var pd := AllocTable();
        if pd.None? {
          return false;
        }
        ChunkStep(free0, t0, m, own, used, pdpt, i);
        tables := Wr(tables, pdpt, i, Link(pd.value, false));
        FillDirectory(pd.value, i * GIB);
        i := i + 1;
      }
      return true;
    }

    /** Give an address space its direct map of all physical memory up to max. */
    method MapDirect(root: int, max: u64) returns (ok: bool)
      requires Valid() && IsRoot(own, root) && !Present(Rd(tables, root, HHDM_SLOT))
      modifies this`tables, pmm`cursor, pmm.ranges
      ensures Ready() && pmm.ranges == old(pmm.ranges)
      ensures ok ==> Valid() && Chunks(max).Some? && DirectMapMade(free0, old(Now()), Now(), root, Chunks(max).value)
      ensures !ok ==> Chunks(max).None? || Exhausted()
    {
      ghost var w := Now();
      var n := Chunks(max);
      if n.None? {
        return false;
      }
      var pdpt := AllocTable();
      if pdpt.None? {
        return false;
      }
      LinkSlot(free0, w.mem, own, used, root);
      tables := Wr(tables, root, HHDM_SLOT, Link(pdpt.value, false));
      ok := FillChunks(pdpt.value, n.value);
      if ok {
        DirectMapMakes(free0, w, Now(), root, pdpt.value, n.value);
      }
    }

    /** The kernel's own tables: identity map and direct map share one table of chunks. */
    method InitKernel(max: u64) returns (root: Option<int>)
      requires Valid()
      modifies this`tables, pmm`cursor, pmm.ranges
      ensures Ready() && pmm.ranges == old(pmm.ranges)
      ensures root.Some? ==>
                && Valid() && Chunks(max).Some? && root.value !in own && FrameOk(root.value)
                && DirectAt(tables, own, root.value, 0, Chunks(max).value)
                && DirectAt(tables, own, root.value, HHDM_SLOT, Chunks(max).value)
                && AddedBeside(old(tables), tables, root.value) && root.value !in old(tables)
                && Shrinks(old(View()).pool, View().pool)
      ensures root.None? ==> Chunks(max).None? || Exhausted()
    {
      ghost var w := Now();
      var n := Chunks(max);
      if n.None? {
        return None;
      }
      root := AllocTable();
      if root.None? {
        return None;
      }
      var pdpt := AllocTable();
      if pdpt.None? {
        return None;
      }
      LinkBothSlots(free0, w.mem, own, used);
      tables := Wr(tables, root.value, 0, Link(pdpt.value, false));
      tables := Wr(tables, root.value, HHDM_SLOT, Link(pdpt.value, false));
      ghost var t1 := tables;
      hide SpacesOk, DirectPdpt, DirectAt, NewTable, Chunks, Link, Wr;
      var ok := FillChunks(pdpt.value, n.value);
      if !ok {
        return None;
      }
      BothMaps(w.mem.tables, t1, tables, own, root.value, pdpt.value, n.value);
    }

    // ---- a process ----

    /** Load the init image, or the four-byte program that stands in for it. */
    method LoadProgram(root: int, elf: seq<byte>) returns (result: LoadResult)
      requires Valid() && IsRoot(own, root)
      requires HeaderOk(elf) ==> AvoidsDirectMap(Phdrs(elf))
      modifies this`tables, this`bytes, this`own, this`used, pmm`cursor, pmm.ranges
      ensures Ready() && pmm.ranges == old(pmm.ranges)
      ensures result.Entry? ==> Valid() && ProgramLoaded(free0, old(Now()), Now(), root, elf, result.address)
      ensures !result.Entry? ==> (elf != [] && !WellFormed(elf)) || Exhausted()
    {
      hide Sound, RangeMapped, PageMapped, ImageLoaded, ProgramLoaded, AvoidsDirectMap, HeaderOk, MapNew;
      ghost var w := Now();
      if elf != [] {
        result := LoadElf(root, elf);
        if result.Entry? {
          ImageIsProgram(free0, w, Now(), root, elf);
        }
        return;
      }
      NothingMapped(free0, w, root, CODE, false);
      var frame := MapFresh(root, CODE, false);
      if frame.None? {
        return Halted;
      }
      var f := frame.value;
      forall x: int | CODE <= x < CODE + PAGE_SIZE ensures Idx4(x) != HHDM_SLOT {
        LowHalf(x);
      }
      ghost var w1 := FreshPage(free0, w, w, root, CODE, CODE, CODE + PAGE_SIZE, false);
      own, used := w1.own, w1.used;
      bytes := BuiltinStored(bytes, f);
      BuiltinIsProgram(free0, w, w1, root, f);
      ProgramHolds(free0, w, Now(), root, elf, CODE);
      return Entry(CODE);
    }

    /** Build the address space of a process: None is a panic, which halts the system. */
    method BuildProc(kernelBase: u64, kernelEnd: u64, max: u64, elf: seq<byte>) returns (proc: Option<(int, u64)>)
      requires Valid() && kernelEnd <= LOWER_HALF
      requires HeaderOk(elf) ==> AvoidsDirectMap(Phdrs(elf))
      modifies this`tables, this`bytes, this`own, this`used, pmm`cursor, pmm.ranges
      ensures Ready() && pmm.ranges == old(pmm.ranges)
      ensures proc.Some? ==>
                && Valid() && Chunks(max).Some?
                && ProcBuilt(free0, old(Now()), Now(), proc.value.0, PageDown(kernelBase), kernelEnd, Chunks(max).value, elf,
                             proc.value.1)
      ensures proc.None? ==>
                || kernelBase == 0 || kernelEnd == 0 || max == 0 || Chunks(max).None?
                || (elf != [] && !WellFormed(elf)) || Exhausted()
    {
      hide Sound, RootMade, KernelRange, DirectMapMade, RangeMapped, ProgramLoaded, ProcBuilt, AvoidsDirectMap;
      hide HeaderOk, NewTable;
      if kernelBase == 0 || kernelEnd == 0 || max == 0 {
        return None;
      }
      ghost var w0 := Now();
      var pml4 := AllocTable();
      if pml4.None? {
        return None;
      }
      var root := pml4.value;
      MakeRoot(free0, w0);
      own := own[root := [root]];
      ghost var w1 := Now();
      var end := PageUp(kernelEnd);
      if end.None? {
        return None;
      }
      EndInLowerHalf(kernelEnd);
      RootFacts(free0, w0, w1, root);
      var ok := MapKernel(root, PageDown(kernelBase), end.value);
      if !ok {
        return None;
      }
      ghost var w2 := Now();
      SlotStillEmpty(free0, w0, w1, w2, root, PageDown(kernelBase), Max(PageDown(kernelBase), end.value));
      ok := MapDirect(root, max);
      if !ok {
        return None;
      }
      ghost var w3 := Now();
      StackInLowerHalf(free0, w2, w3, root, Chunks(max).value);
      ok := MapPages(root, STACK_BASE, STACK_TOP, true);
      if !ok {
        return None;
      }
      ghost var w4 := Now();
      RangeKeepsRoot(w3, w4, root, STACK_BASE, STACK_TOP, true);
      var result := LoadProgram(root, elf);
      if !result.Entry? {
        return None;
      }
      StepsBuild(free0, w0, w1, w2, w3, w4, Now(), root, PageDown(kernelBase), Max(PageDown(kernelBase), end.value),
                 Chunks(max).value, elf, result.address);
      BuiltUpTo(free0, w0, Now(), root, PageDown(kernelBase), kernelEnd, Max(PageDown(kernelBase), end.value),
                Chunks(max).value, elf, result.address);
      return Some((root, result.address));
    }
  }
}
