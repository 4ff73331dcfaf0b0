/** The list of memory regions that the boot loader hands to the kernel, and what its bounded length means for the
    kernel's free list. */
module BootRegions {
  import opened Words
  import opened Ranges
  import opened MemoryMap

  /** 32 KiB of 24-byte entries. */
  const CAPACITY: nat := 1365

  datatype MemoryType = Conventional | AcpiReclaim | AcpiNonVolatile | Mmio | MmioPortSpace | OtherType

  datatype Descriptor = Descriptor(start: u64, pages: u64, ty: MemoryType)

  const RESERVED: int := 2
  const ACPI_RECLAIM: int := 3
  const ACPI_NVS: int := 4
  const MMIO: int := 5
  const KERNEL: int := 6
  const BOOT: int := 7
  const FRAMEBUFFER: int := 8

  function KindOf(ty: MemoryType): int {
    match ty
    case Conventional => USABLE
    case AcpiReclaim => ACPI_RECLAIM
    case AcpiNonVolatile => ACPI_NVS
    case Mmio => MMIO
    case MmioPortSpace => MMIO
    case OtherType => RESERVED
  }

  function Translated(d: Descriptor): MemoryRegion {
    MemoryRegion(d.start, SaturatingMul(d.pages, PAGE_SIZE), KindOf(d.ty))
  }

  /** What the loader itself occupies: kernel image, framebuffer, boot information, this list. */
  datatype Occupied = Occupied(kernelBase: u64, kernelEnd: u64, fbBase: u64, fbSize: u64, info: u64, list: u64)

  function Own(o: Occupied): seq<MemoryRegion> {
    [MemoryRegion(o.kernelBase, Max(0, o.kernelEnd - o.kernelBase), KERNEL),
     MemoryRegion(o.fbBase, o.fbSize, FRAMEBUFFER),
     MemoryRegion(o.info, PAGE_SIZE, BOOT),
     MemoryRegion(o.list, 8 * PAGE_SIZE, BOOT)]
  }

  /** All of them, before empty ones are dropped and the list is cut off. */
  function Wanted(ds: seq<Descriptor>, o: Occupied): seq<MemoryRegion> {
    seq(|ds|, i requires 0 <= i < |ds| => Translated(ds[i])) + Own(o)
  }

  function NonEmptyRegions(rs: seq<MemoryRegion>): (s: seq<MemoryRegion>)
    ensures |s| <= |rs|
  {
    if rs == [] then []
    else
      var front, last := NonEmptyRegions(rs[..|rs| - 1]), rs[|rs| - 1];
      if last.len == 0 then front else front + [last]
  }

  /** The list: the first CAPACITY of the non-empty regions. */
  function Listed(rs: seq<MemoryRegion>): seq<MemoryRegion> {
    var all := NonEmptyRegions(rs);
    all[..Min(|all|, CAPACITY)]
  }

  // ---- the loader ----

  /** Append a region unless it is empty or the list is full. */
  method Push(regions: array<MemoryRegion>, len: nat, r: MemoryRegion) returns (newLen: nat)
    requires regions.Length == CAPACITY && len <= CAPACITY
    modifies regions
    ensures newLen <= CAPACITY
    ensures regions[..newLen] == if r.len == 0 || len == CAPACITY then old(regions[..len]) else old(regions[..len]) + [r]
  {
    if r.len == 0 || len >= regions.Length {
      return len;
    }
    regions[len] := r;
    return len + 1;
  }

  lemma ListedOneMore(rs: seq<MemoryRegion>, r: MemoryRegion)
    ensures Listed(rs + [r]) == if r.len == 0 || |Listed(rs)| == CAPACITY then Listed(rs) else Listed(rs) + [r]
  {
    assert (rs + [r])[..|rs|] == rs;
  }

  method PushAll(regions: array<MemoryRegion>, len: nat, rs: seq<MemoryRegion>, ghost done: seq<MemoryRegion>)
    returns (newLen: nat)
    requires regions.Length == CAPACITY && len <= CAPACITY && regions[..len] == Listed(done)
    modifies regions
    ensures newLen <= CAPACITY && regions[..newLen] == Listed(done + rs)
  {
    newLen := len;
    var i := 0;
    assert done + rs[..0] == done;
    while i < |rs|
      invariant 0 <= i <= |rs| && newLen <= CAPACITY && regions[..newLen] == Listed(done + rs[..i])
    {
      ListedOneMore(done + rs[..i], rs[i]);
      assert done + rs[..i] + [rs[i]] == done + rs[..i + 1];
      newLen := Push(regions, newLen, rs[i]);
      i := i + 1;
    }
    assert rs[..i] == rs;
  }

  /** Translate the firmware's memory map and add what the loader occupies. */
  method BuildList(ds: seq<Descriptor>, o: Occupied, regions: array<MemoryRegion>) returns (len: nat)
    requires regions.Length == CAPACITY
    modifies regions
    ensures len <= CAPACITY && regions[..len] == Listed(Wanted(ds, o))
  {
    len := 0;
    var i := 0;
    ghost var all := seq(|ds|, i requires 0 <= i < |ds| => Translated(ds[i]));
    assert all[..0] == [] && regions[..0] == [];
    while i < |ds|
      invariant 0 <= i <= |ds| && len <= CAPACITY && regions[..len] == Listed(all[..i])
    {
      ListedOneMore(all[..i], all[i]);
      assert all[..i] + [all[i]] == all[..i + 1];
      len := Push(regions, len, Translated(ds[i]));
      i := i + 1;
    }
    assert all[..i] == all;
    len := PushAll(regions, len, Own(o), all);
  }

  // ---- what the list means for the kernel's free memory ----

  lemma {:induction false} NonEmptyKeeps(rs: seq<MemoryRegion>, r: MemoryRegion)
    ensures r in NonEmptyRegions(rs) <==> r in rs && r.len != 0
  {
    if rs != [] {
      NonEmptyKeeps(rs[..|rs| - 1], r);
      assert r in rs <==> r in rs[..|rs| - 1] || r == rs[|rs| - 1];
    }
  }

  /** Some region that is not usable meets the page of x. */
  lemma InListReserved(rs: seq<MemoryRegion>, r: MemoryRegion, x: int)
    requires r in rs && r.kind != USABLE && r.base <= x < EndOf(r)
    ensures IsReserved(rs, x)
  {
    var i :| 0 <= i < |rs| && rs[i] == r;
    assert ReservedAt(rs[i], x);
  }

  /** The non-empty regions that did not fit. */
  function Dropped(rs: seq<MemoryRegion>): seq<MemoryRegion> {
    NonEmptyRegions(rs)[Min(|NonEmptyRegions(rs)|, CAPACITY)..]
  }

  /** x lies in a region that the loader or the firmware keeps. */
  ghost predicate Keeps(r: MemoryRegion, x: int) { r.kind != USABLE && r.base <= x < EndOf(r) }

  lemma ListedOrDropped(rs: seq<MemoryRegion>, r: MemoryRegion)
    requires r in rs && r.len != 0
    ensures r in Listed(rs) || r in Dropped(rs)
  {
    NonEmptyKeeps(rs, r);
    var all := NonEmptyRegions(rs);
    assert all == all[..Min(|all|, CAPACITY)] + all[Min(|all|, CAPACITY)..];
  }

  /** An address that is to be kept counts as free for the kernel exactly if the listed part of the map makes it so,
      and only if the region that keeps it was dropped. */
  lemma KeptYetFree(ds: seq<Descriptor>, o: Occupied, r: MemoryRegion, x: int)
    requires AllRepresentable(Listed(Wanted(ds, o))) && FreeList(Listed(Wanted(ds, o))).Some?
    requires r in Wanted(ds, o) && Keeps(r, x)
    ensures var rs := Listed(Wanted(ds, o));
            && (Covers(FreeList(rs).value, x) <==> IsUsable(rs, x) && !IsReserved(rs, x) && x >= ONE_MIB)
            && (Covers(FreeList(rs).value, x) ==> r in Dropped(Wanted(ds, o)))
  {
    FreeListExact(Listed(Wanted(ds, o)));
    ListedOrDropped(Wanted(ds, o), r);
    if r in Listed(Wanted(ds, o)) {
      InListReserved(Listed(Wanted(ds, o)), r, x);
    }
  }

  /** Some address that a wanted region keeps is free memory for the kernel. */
  ghost predicate KeptMemoryFree(ds: seq<Descriptor>, o: Occupied)
    requires AllRepresentable(Listed(Wanted(ds, o))) && FreeList(Listed(Wanted(ds, o))).Some?
  {
    exists r, x :: r in Wanted(ds, o) && Keeps(r, x) && Covers(FreeList(Listed(Wanted(ds, o))).value, x)
  }

  /** Some dropped region keeps an address that the listed regions make free. */
  ghost predicate DroppedMemoryFree(ds: seq<Descriptor>, o: Occupied) {
    exists r, x :: r in Dropped(Wanted(ds, o)) && Keeps(r, x) && IsFree(Listed(Wanted(ds, o)), x)
  }

  /** What the loader occupies or the firmware keeps becomes free memory exactly if some dropped region keeps an
      address that the listed ones make free; so never, when nothing was dropped. */
  lemma KeptMemoryFreeIff(ds: seq<Descriptor>, o: Occupied)
    requires AllRepresentable(Listed(Wanted(ds, o))) && FreeList(Listed(Wanted(ds, o))).Some?
    ensures KeptMemoryFree(ds, o) <==> DroppedMemoryFree(ds, o)
    ensures |NonEmptyRegions(Wanted(ds, o))| <= CAPACITY ==> !KeptMemoryFree(ds, o)
  {
    var wanted := Wanted(ds, o);
    FreeListExact(Listed(wanted));
    forall r, x | r in wanted && Keeps(r, x) && Covers(FreeList(Listed(wanted)).value, x)
      ensures r in Dropped(wanted) && IsFree(Listed(wanted), x)
    {
      KeptYetFree(ds, o, r, x);
    }
    forall r | r in Dropped(wanted) ensures r in wanted {
      NonEmptyKeeps(wanted, r);
    }
  }

  /** No address that the loader occupies or that the firmware keeps is free memory for the kernel, unless its region
      was dropped. */
  lemma OccupiedIsNeverFree(ds: seq<Descriptor>, o: Occupied, r: MemoryRegion, x: int)
    requires AllRepresentable(Listed(Wanted(ds, o))) && FreeList(Listed(Wanted(ds, o))).Some?
    requires r in Wanted(ds, o) && r !in Dropped(Wanted(ds, o)) && Keeps(r, x)
    ensures !Covers(FreeList(Listed(Wanted(ds, o))).value, x)
  {
    KeptYetFree(ds, o, r, x);
  }

  // ---- maps as firmware reports them ----

  predicate InDescriptor(d: Descriptor, x: int) { d.start <= x < d.start + d.pages * PAGE_SIZE }

  /** x lies in memory that the loader allocated: kernel image, boot information, list. */
  predicate LoadersOwn(o: Occupied, x: int) {
    || o.kernelBase <= x < o.kernelEnd
    || o.info <= x < o.info + PAGE_SIZE
    || o.list <= x < o.list + 8 * PAGE_SIZE
  }

  /** Descriptors stay below the last page and are disjoint, and what the loader allocated before the map was read is
      not conventional memory in it. */
  ghost predicate FirmwareMap(ds: seq<Descriptor>, o: Occupied) {
    && (forall i :: 0 <= i < |ds| ==> ds[i].start + ds[i].pages * PAGE_SIZE <= TWO_64 - PAGE_SIZE)
    && (forall i, j, x: int :: 0 <= i < j < |ds| && InDescriptor(ds[i], x) ==> !InDescriptor(ds[j], x))
    && forall i, x: int :: 0 <= i < |ds| && InDescriptor(ds[i], x) && LoadersOwn(o, x) ==> !ds[i].ty.Conventional?
  }

  /** Everything that the loader occupies, and the framebuffer, is kept by a region of the list it wants. */
  lemma OwnIsWanted(ds: seq<Descriptor>, o: Occupied, x: int) returns (r: MemoryRegion)
    requires LoadersOwn(o, x) || o.fbBase <= x < o.fbBase + o.fbSize
    requires 0 <= x < MAX_U64
    ensures r in Wanted(ds, o) && Keeps(r, x)
  {
    var own := Own(o);
    var k := if o.kernelBase <= x < o.kernelEnd then 0
             else if o.fbBase <= x < o.fbBase + o.fbSize then 1
             else if o.info <= x < o.info + PAGE_SIZE then 2
             else 3;
    r := own[k];
    assert Wanted(ds, o)[|ds| + k] == r;
  }

  function FramebufferRegion(o: Occupied): MemoryRegion { MemoryRegion(o.fbBase, o.fbSize, FRAMEBUFFER) }

  lemma UsableIsConventional(ds: seq<Descriptor>, o: Occupied, x: int) returns (i: int)
    requires FirmwareMap(ds, o) && IsUsable(Listed(Wanted(ds, o)), x)
    ensures 0 <= i < |ds| && ds[i].ty.Conventional? && InDescriptor(ds[i], x)
  {
    var wanted := Wanted(ds, o);
    var l :| 0 <= l < |Listed(wanted)| && UsableAt(Listed(wanted)[l], x);
    var u := Listed(wanted)[l];
    NonEmptyKeeps(wanted, u);
    i :| 0 <= i < |wanted| && wanted[i] == u;
    assert i < |ds| && u == Translated(ds[i]);
  }

  /** On such maps a list that is cut off can cost one thing only: what is kept becomes free memory exactly if the
      framebuffer's region was dropped and the map reports some of the framebuffer as conventional memory that
      is free. */
  lemma CutOffCostsFramebufferOnly(ds: seq<Descriptor>, o: Occupied)
    requires FirmwareMap(ds, o)
    requires AllRepresentable(Listed(Wanted(ds, o))) && FreeList(Listed(Wanted(ds, o))).Some?
    ensures var fb := FramebufferRegion(o);
            KeptMemoryFree(ds, o) <==>
              fb in Dropped(Wanted(ds, o)) && exists x :: Keeps(fb, x) && IsFree(Listed(Wanted(ds, o)), x)
  {
    KeptMemoryFreeIff(ds, o);
    forall r, x | r in Dropped(Wanted(ds, o)) && Keeps(r, x) && IsFree(Listed(Wanted(ds, o)), x)
      ensures r == FramebufferRegion(o)
    {
      DroppedIsFramebuffer(ds, o, r, x);
    }
  }

  lemma DroppedIsFramebuffer(ds: seq<Descriptor>, o: Occupied, r: MemoryRegion, x: int)
    requires FirmwareMap(ds, o) && r in Dropped(Wanted(ds, o)) && Keeps(r, x) && IsFree(Listed(Wanted(ds, o)), x)
    ensures r == FramebufferRegion(o)
  {
    var wanted := Wanted(ds, o);
    var i := UsableIsConventional(ds, o, x);
    NonEmptyKeeps(wanted, r);
    var j :| 0 <= j < |wanted| && wanted[j] == r;
    if j < |ds| {
      assert r == Translated(ds[j]) && InDescriptor(ds[j], x);
    } else {
      assert r in Own(o) && !LoadersOwn(o, x);
    }
  }

  // ---- the free memory of a machine ----

  /** The page of x lies in this piece of conventional memory. */
  predicate Offers(d: Descriptor, x: int) {
    d.ty.Conventional? && d.start <= PageOf(x) && PageOf(x) + PAGE_SIZE <= d.start + d.pages * PAGE_SIZE
  }

  /** The page of x meets memory of another type. */
  predicate Refuses(d: Descriptor, x: int) {
    !d.ty.Conventional? && d.pages > 0 && PageOf(x) < d.start + d.pages * PAGE_SIZE && d.start < PageOf(x) + PAGE_SIZE
  }

  /** The page of x meets the interval. */
  predicate Meets(base: int, end: int, x: int) { base < end && PageOf(x) < end && base < PageOf(x) + PAGE_SIZE }

  /** The page of x meets what the loader occupies, or the framebuffer. */
  predicate MeetsOwn(o: Occupied, x: int) {
    || Meets(o.kernelBase, o.kernelEnd, x) || Meets(o.fbBase, o.fbBase + o.fbSize, x)
    || Meets(o.info, o.info + PAGE_SIZE, x) || Meets(o.list, o.list + 8 * PAGE_SIZE, x)
  }

  lemma RegionOf(d: Descriptor, x: int)
    requires d.start + d.pages * PAGE_SIZE <= TWO_64 - PAGE_SIZE
    ensures UsableAt(Translated(d), x) <==> Offers(d, x)
    ensures ReservedAt(Translated(d), x) <==> Refuses(d, x)
  {
  }

  lemma OwnRegions(o: Occupied, x: int)
    requires o.fbBase + o.fbSize <= TWO_64 - PAGE_SIZE && o.info <= TWO_64 - 2 * PAGE_SIZE && o.list <= TWO_64 - 9 * PAGE_SIZE
    ensures !IsUsable(Own(o), x) && (IsReserved(Own(o), x) <==> MeetsOwn(o, x))
  {
    assert Own(o)[0].kind == KERNEL && Own(o)[1].kind == FRAMEBUFFER && Own(o)[2].kind == BOOT && Own(o)[3].kind == BOOT;
    if MeetsOwn(o, x) {
      assert ReservedAt(Own(o)[0], x) || ReservedAt(Own(o)[1], x) || ReservedAt(Own(o)[2], x) || ReservedAt(Own(o)[3], x);
    }
  }

  lemma ListedMeans(rs: seq<MemoryRegion>, x: int)
    requires |NonEmptyRegions(rs)| <= CAPACITY
    ensures IsUsable(Listed(rs), x) <==> IsUsable(rs, x)
    ensures IsReserved(Listed(rs), x) <==> IsReserved(rs, x)
  {
    assert Listed(rs) == NonEmptyRegions(rs);
    forall i | 0 <= i < |rs| && rs[i].len != 0 ensures rs[i] in Listed(rs) {
      NonEmptyKeeps(rs, rs[i]);
    }
    forall i | 0 <= i < |Listed(rs)| ensures Listed(rs)[i] in rs {
      NonEmptyKeeps(rs, Listed(rs)[i]);
    }
  }

  /** From the firmware's map to the page allocator: if nothing was dropped, an address is free for the kernel iff it is at or
      above 1 MiB and its page lies in one piece of conventional memory, meets no memory of another type, and meets
      nothing that the loader occupies. */
  lemma FreeMemoryIs(ds: seq<Descriptor>, o: Occupied, x: int)
    requires |NonEmptyRegions(Wanted(ds, o))| <= CAPACITY
    requires forall i :: 0 <= i < |ds| ==> ds[i].start + ds[i].pages * PAGE_SIZE <= TWO_64 - PAGE_SIZE
    requires o.fbBase + o.fbSize <= TWO_64 - PAGE_SIZE && o.info <= TWO_64 - 2 * PAGE_SIZE && o.list <= TWO_64 - 9 * PAGE_SIZE
    requires AllRepresentable(Listed(Wanted(ds, o))) && FreeList(Listed(Wanted(ds, o))).Some?
    ensures Covers(FreeList(Listed(Wanted(ds, o))).value, x) <==>
              && x >= ONE_MIB && (exists i :: 0 <= i < |ds| && Offers(ds[i], x))
              && (forall i :: 0 <= i < |ds| ==> !Refuses(ds[i], x)) && !MeetsOwn(o, x)
  {
    hide Offers, Refuses, MeetsOwn, UsableAt, ReservedAt, Translated, Own;
    FreeListExact(Listed(Wanted(ds, o)));
    ListedMeans(Wanted(ds, o), x);
    WantedMeans(ds, o, x);
    OwnRegions(o, x);
    forall i | 0 <= i < |ds|
      ensures (UsableAt(Translated(ds[i]), x) <==> Offers(ds[i], x)) && (ReservedAt(Translated(ds[i]), x) <==> Refuses(ds[i], x))
    {
      RegionOf(ds[i], x);
    }
  }

  lemma WantedMeans(ds: seq<Descriptor>, o: Occupied, x: int)
    ensures IsUsable(Wanted(ds, o), x) <==>
              (exists i :: 0 <= i < |ds| && UsableAt(Translated(ds[i]), x)) || IsUsable(Own(o), x)
    ensures IsReserved(Wanted(ds, o), x) <==>
              (exists i :: 0 <= i < |ds| && ReservedAt(Translated(ds[i]), x)) || IsReserved(Own(o), x)
  {
    hide UsableAt, ReservedAt, Translated, Own;
    var rs, own := Wanted(ds, o), Own(o);
    assert forall i :: 0 <= i < |ds| ==> rs[i] == Translated(ds[i]);
    assert forall i :: 0 <= i < |own| ==> rs[|ds| + i] == own[i];
    assert forall i :: |ds| <= i < |rs| ==> rs[i] == own[i - |ds|];
  }

  // ---- a list that was cut off ----

  /** A firmware map of CAPACITY disjoint entries: 16 MiB of conventional memory from 1 MiB on, and one-page entries of
      other types from 32 MiB on. */
  function FullMap(): seq<Descriptor> {
    [Descriptor(0x10_0000, 0x1000, Conventional)] +
    seq(CAPACITY - 1, i requires 0 <= i < CAPACITY - 1 => Descriptor(0x200_0000 + i * PAGE_SIZE, 1, OtherType))
  }

  /** The loader's own pages are among the latter; the framebuffer lies at 2 MiB. */
  function LowFramebuffer(): Occupied {
    Occupied(0x200_0000, 0x201_0000, 0x20_0000, PAGE_SIZE, 0x201_0000, 0x201_1000)
  }

  lemma FullMapIsFirmwareMap()
    ensures FirmwareMap(FullMap(), LowFramebuffer())
  {
  }

  function CutEntry(i: nat): MemoryRegion
    requires i < CAPACITY - 1
  {
    MemoryRegion(0x200_0000 + i * PAGE_SIZE, PAGE_SIZE, RESERVED)
  }

  function CutList(n: nat): seq<MemoryRegion>
    requires n < CAPACITY
  {
    [MemoryRegion(0x10_0000, 0x100_0000, USABLE)] + seq(n, i requires 0 <= i < n => CutEntry(i))
  }

  const FREED: Range := Range(0x10_0000, 0x110_0000)

  lemma {:induction false} NoneEmpty(rs: seq<MemoryRegion>)
    requires forall i :: 0 <= i < |rs| ==> rs[i].len != 0
    ensures NonEmptyRegions(rs) == rs
  {
    if rs != [] {
      NoneEmpty(rs[..|rs| - 1]);
    }
  }

  /** One more region that does not meet the free range. */
  lemma OneMoreApart(rs: seq<MemoryRegion>, i: nat)
    requires i < CAPACITY - 1 && AllRepresentable(rs) && Carve([FREED], rs) == Some([FREED])
    ensures var all := rs + [CutEntry(i)];
            AllRepresentable(all) && Collect(all) == Collect(rs) && Carve([FREED], all) == Some([FREED])
  {
    var r := CutEntry(i);
    var all := rs + [r];
    assert all[..|all| - 1] == rs && all[|all| - 1] == r;
    CarveApart(Span(r).base, Span(r).end);
  }

  lemma {:induction false} CutListFree(n: nat)
    requires n < CAPACITY
    ensures AllRepresentable(CutList(n))
    ensures Collect(CutList(n)) == [FREED]
    ensures Carve([FREED], CutList(n)) == Some([FREED])
  {
    CutListStep(n);
    hide CutList, CutEntry, Collect, Carve, AllRepresentable;
    if n == 0 {
      UsableFree();
    } else {
      CutListFree(n - 1);
      OneMoreApart(CutList(n - 1), n - 1);
    }
  }

  lemma CutListStep(n: nat)
    requires n < CAPACITY
    ensures n == 0 ==> CutList(n) == [MemoryRegion(0x10_0000, 0x100_0000, USABLE)]
    ensures n > 0 ==> CutList(n) == CutList(n - 1) + [CutEntry(n - 1)]
  {
  }

  lemma UsableFree()
    ensures var rs := [MemoryRegion(0x10_0000, 0x100_0000, USABLE)];
            AllRepresentable(rs) && Collect(rs) == [FREED] && Carve([FREED], rs) == Some([FREED])
  {
    var r := MemoryRegion(0x10_0000, 0x100_0000, USABLE);
    var rs := [r];
    assert rs[..0] == [] && rs[0] == r && Span(r) == FREED;
    assert Collect(rs) == Collect(rs[..0]) + [FREED];
  }

  lemma CarveApart(b: int, e: int)
    requires b < e && (e <= FREED.base || FREED.end <= b)
    ensures CarveOne([FREED], b, e) == Some([FREED]) && Merge(Sort([FREED])) == [FREED]
  {
    var s := [FREED];
    assert s[..0] == [] && s[0] == FREED;
    assert Subtract(s, b, e) == Subtract(s[..0], b, e) + Pieces(FREED, b, e) == s;
    assert Sort(s) == Insert(Sort([]), FREED);
  }

  /** With a firmware map that long the loader's own regions do not fit, and where the map reports the framebuffer as
      conventional memory the kernel's free memory contains it. */
  lemma CutOffListLosesFramebuffer()
    ensures var (ds, o) := (FullMap(), LowFramebuffer());
            var rs := Listed(Wanted(ds, o));
            && FirmwareMap(ds, o) && AllRepresentable(rs) && FreeList(rs).Some?
            && Covers(FreeList(rs).value, o.fbBase) && KeptMemoryFree(ds, o)
  {
    var (ds, o) := (FullMap(), LowFramebuffer());
    FullMapIsFirmwareMap();
    var all := Wanted(ds, o);
    NoneEmpty(all);
    assert all[..CAPACITY] == CutList(CAPACITY - 1);
    CutListFree(CAPACITY - 1);
    CarveApart(0, ONE_MIB);
    var fb := FramebufferRegion(o);
    assert all[|ds| + 1] == fb;
    assert fb in all && Keeps(fb, o.fbBase);
  }
}
