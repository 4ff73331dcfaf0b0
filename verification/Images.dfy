/** Segments in the memory of one address space: what the loader's stores leave there, and that loading one
    segment keeps those loaded before it. */
module Images {
  import opened Words
  import opened Ranges
  import opened PageTables
  import opened PageTree
  import opened Spaces
  import opened DirectMap
  import opened Elf
  import opened Worlds

  // ---- byte stores through the walk ----

  function PaAt(t: Tables, root: int, va: int, off: int): int { Pa(t, root, va + off) }

  /** Memory after data was stored byte by byte from va on, each byte where the walk finds its address. */
  function Stored(b: map<int, int>, t: Tables, root: int, va: int, data: seq<byte>): map<int, int> {
    if data == [] then b
    else
      var n := |data| - 1;
      Stored(b, t, root, va, data[..n])[PaAt(t, root, va, n) := data[n]]
  }

  lemma StoreNothing(b: map<int, int>, t: Tables, root: int, va: int)
    ensures Stored(b, t, root, va, []) == b
  {
  }

  /** One more byte of data. */
  lemma StoreOne(b: map<int, int>, t: Tables, root: int, va: int, data: seq<byte>, off: nat)
    requires off < |data|
    ensures Stored(b, t, root, va, data[..off + 1]) == Stored(b, t, root, va, data[..off])[PaAt(t, root, va, off) := data[off]]
  {
    assert data[..off + 1][..off] == data[..off];
  }

  /** The address is a word, and mapped. */
  predicate Stores(t: Tables, root: int, va: int, off: int) { va + off < TWO_64 && Leaf(t, root, va + off).Some? }

  ghost predicate AllStore(t: Tables, root: int, va: int, n: int) {
    forall off :: 0 <= off < n ==> Stores(t, root, va, off)
  }

  /** The walk that the loader uses for its stores. */
  lemma WhereStored(t: Tables, root: int, va: int, off: int)
    ensures Translate4k(t, root, va + off) == if Leaf(t, root, va + off).Some? then Some(PaAt(t, root, va, off)) else None
  {
  }

  lemma {:induction false} StoredElsewhere(b: map<int, int>, t: Tables, root: int, va: int, data: seq<byte>, a: int)
    requires forall off :: 0 <= off < |data| ==> PaAt(t, root, va, off) != a
    ensures ByteIn(Stored(b, t, root, va, data), a) == ByteIn(b, a)
  {
    if data != [] {
      StoredElsewhere(b, t, root, va, data[..|data| - 1], a);
      assert PaAt(t, root, va, |data| - 1) != a;
    }
  }

  ghost predicate PlacesDiffer(t: Tables, root: int, va: int, n: int) {
    forall i, j :: 0 <= i < j < n ==> PaAt(t, root, va, i) != PaAt(t, root, va, j)
  }

  lemma {:induction false} StoredReads(b: map<int, int>, t: Tables, root: int, va: int, data: seq<byte>, k: nat)
    requires k < |data| && PlacesDiffer(t, root, va, |data|)
    ensures ByteIn(Stored(b, t, root, va, data), PaAt(t, root, va, k)) == data[k]
  {
    var n := |data| - 1;
    if k < n {
      StoredReads(b, t, root, va, data[..n], k);
      assert PaAt(t, root, va, k) != PaAt(t, root, va, n);
    }
  }

  lemma {:induction false} StoredTwice(b: map<int, int>, t: Tables, root: int, va: int, d1: seq<byte>, d2: seq<byte>)
    ensures Stored(Stored(b, t, root, va, d1), t, root, va + |d1|, d2) == Stored(b, t, root, va, d1 + d2)
  {
    if d2 == [] {
      assert d1 + d2 == d1;
    } else {
      var n, d, front := |d2| - 1, d1 + d2, d1 + d2[..|d2| - 1];
      var a := PaAt(t, root, va, |d| - 1);
      StoredTwice(b, t, root, va, d1, d2[..n]);
      FrontOfTwo(d1, d2);
      assert PaAt(t, root, va + |d1|, n) == a;
      assert Stored(b, t, root, va, d) == Stored(b, t, root, va, front)[a := d2[n]];
    }
  }

  lemma FrontOfTwo(d1: seq<byte>, d2: seq<byte>)
    requires d2 != []
    ensures var d := d1 + d2;
            d != [] && d[..|d| - 1] == d1 + d2[..|d2| - 1] && d[|d| - 1] == d2[|d2| - 1]
  {
  }

  // ---- one segment ----

  function FileBytes(elf: seq<byte>, ph: Phdr): seq<byte>
    requires InFile(elf, ph)
  {
    if ph.filesz == 0 then [] else elf[ph.offset..ph.offset + ph.filesz]
  }

  function Zeros(n: int): seq<byte> { if n <= 0 then [] else seq(n, _ => 0) }

  /** The copy of the file bytes, then the clearing of the rest. */
  function SegmentStored(b: map<int, int>, t: Tables, root: int, elf: seq<byte>, ph: Phdr): map<int, int>
    requires InFile(elf, ph)
  {
    var b1 := Stored(b, t, root, ph.vaddr, FileBytes(elf, ph));
    Stored(b1, t, root, ph.vaddr + ph.filesz, Zeros(ph.memsz - ph.filesz))
  }

  /** What a segment's memory must hold, as one sequence. */
  function SegBytes(elf: seq<byte>, ph: Phdr): seq<byte>
    requires InFile(elf, ph)
  {
    FileBytes(elf, ph) + Zeros(ph.memsz - ph.filesz)
  }

  lemma SegBytesAt(elf: seq<byte>, ph: Phdr, off: int)
    requires InFile(elf, ph) && ph.filesz <= ph.memsz && 0 <= off < ph.memsz
    ensures |SegBytes(elf, ph)| == ph.memsz && SegBytes(elf, ph)[off] == SegByte(elf, ph, off)
  {
    assert |FileBytes(elf, ph)| == ph.filesz;
    if off < ph.filesz {
      assert FileBytes(elf, ph)[off] == elf[ph.offset + off];
    } else {
      assert Zeros(ph.memsz - ph.filesz)[off - ph.filesz] == 0;
    }
  }

  lemma SegmentStoredOnce(b: map<int, int>, t: Tables, root: int, elf: seq<byte>, ph: Phdr)
    requires InFile(elf, ph) && ph.filesz <= ph.memsz
    ensures SegmentStored(b, t, root, elf, ph) == Stored(b, t, root, ph.vaddr, SegBytes(elf, ph))
  {
    StoredTwice(b, t, root, ph.vaddr, FileBytes(elf, ph), Zeros(ph.memsz - ph.filesz));
  }

  /** Both parts of the segment can be stored. */
  ghost predicate SegmentStores(t: Tables, root: int, elf: seq<byte>, ph: Phdr) {
    && InFile(elf, ph)
    && AllStore(t, root, ph.vaddr, ph.filesz) && AllStore(t, root, ph.vaddr + ph.filesz, ph.memsz - ph.filesz)
  }

  predicate Writes(ph: Phdr) { ph.flags / 2 % 2 == 1 }

  lemma LowBitOff(b: int, k: int)
    requires 0 <= b < 2
    ensures (b + 2 * k) / 2 == k && (b + 2 * k) % 2 == b
  {
  }

  /** PF_W is the second of the three permission bits; the others, and the bits above, do not matter. */
  lemma WritesIff(ph: Phdr, pfX: bool, pfW: bool, pfR: bool, high: nat)
    requires ph.flags == (if pfX then 1 else 0) + (if pfW then 2 else 0) + (if pfR then 4 else 0) + 8 * high
    ensures Writes(ph) <==> pfW
  {
    var x, w, k := if pfX then 1 else 0, if pfW then 1 else 0, (if pfR then 1 else 0) + 2 * high;
    LowBitOff(x, w + 2 * k);
    LowBitOff(w, k);
  }

  /** Every page that holds an address of [start, end) is mapped for user mode. */
  ghost predicate AllMapped(t: Tables, root: int, start: int, end: int, write: bool) {
    forall x: int {:trigger UserMapped(t, root, x, write)} :: start <= x < end ==> UserMapped(t, root, x, write)
  }

  /** The byte at this offset of the segment is in memory where its address leads. */
  ghost predicate ByteHeld(w: World, root: int, elf: seq<byte>, ph: Phdr, off: int)
    requires InFile(elf, ph) && 0 <= off < ph.memsz
  {
    && UserMapped(w.mem.tables, root, ph.vaddr + off, Writes(ph))
    && ByteIn(w.bytes, PaAt(w.mem.tables, root, ph.vaddr, off)) == SegByte(elf, ph, off)
  }

  ghost predicate SegmentHeld(w: World, root: int, elf: seq<byte>, ph: Phdr) {
    InFile(elf, ph) && forall off :: 0 <= off < ph.memsz ==> ByteHeld(w, root, elf, ph, off)
  }

  /** Different pages of this segment are different pages to the walk, and none is in the direct-map slot. */
  ghost predicate PagesOk(ph: Phdr) {
    && (forall x: int {:trigger OnPages(ph, x)} :: OnPages(ph, x) ==> Idx4(x) != HHDM_SLOT)
    && forall x: int, y: int {:trigger OnPages(ph, x), OnPages(ph, y)} ::
         OnPages(ph, x) && OnPages(ph, y) && x / PAGE_SIZE != y / PAGE_SIZE ==> PageAt(x) != PageAt(y)
  }

  lemma SegmentApart(free0: seq<Range>, w: World, root: int, ph: Phdr)
    requires Sound(free0, w) && IsRoot(w.own, root) && PagesOk(ph)
    requires AllMapped(w.mem.tables, root, ph.vaddr, ph.vaddr + ph.memsz, Writes(ph))
    ensures PlacesDiffer(w.mem.tables, root, ph.vaddr, ph.memsz)
  {
    var t := w.mem.tables;
    forall i, j | 0 <= i < j < ph.memsz ensures PaAt(t, root, ph.vaddr, i) != PaAt(t, root, ph.vaddr, j) {
      var x, y := ph.vaddr + i, ph.vaddr + j;
      assert UserMapped(t, root, x, Writes(ph)) && UserMapped(t, root, y, Writes(ph)) && OnPages(ph, x) && OnPages(ph, y);
      if Pa(t, root, x) == Pa(t, root, y) {
        PaDistinct(free0, w, root, x, y, Writes(ph), Writes(ph));
      }
    }
  }

  /** After its pages were mapped, the loader's stores put the segment in memory. */
  lemma StoresLoad(free0: seq<Range>, w: World, root: int, elf: seq<byte>, ph: Phdr)
    requires Sound(free0, w) && IsRoot(w.own, root) && PagesOk(ph) && InFile(elf, ph) && ph.filesz <= ph.memsz
    requires AllMapped(w.mem.tables, root, ph.vaddr, ph.vaddr + ph.memsz, Writes(ph))
    ensures SegmentHeld(w.(bytes := SegmentStored(w.bytes, w.mem.tables, root, elf, ph)), root, elf, ph)
  {
    var t := w.mem.tables;
    var data := SegBytes(elf, ph);
    var w' := w.(bytes := SegmentStored(w.bytes, t, root, elf, ph));
    SegmentApart(free0, w, root, ph);
    SegmentStoredOnce(w.bytes, t, root, elf, ph);
    forall off | 0 <= off < ph.memsz ensures ByteHeld(w', root, elf, ph, off) {
      SegBytesAt(elf, ph, off);
      StoredReads(w.bytes, t, root, ph.vaddr, data, off);
      assert UserMapped(t, root, ph.vaddr + off, Writes(ph));
    }
  }

  /** Stores to mapped addresses of root change only bytes of its own frames. */
  lemma StoresKeep(free0: seq<Range>, w: World, root: int, va: int, data: seq<byte>, write: bool)
    requires Sound(free0, w) && IsRoot(w.own, root)
    requires AllMapped(w.mem.tables, root, va, va + |data|, write)
    requires forall x: int {:trigger Idx4(x)} :: va <= x < va + |data| ==> Idx4(x) != HHDM_SLOT
    ensures BytesKept(w, w.(bytes := Stored(w.bytes, w.mem.tables, root, va, data)), root)
  {
    hide Sound, Stored, VirtToPhys, UserMapped;
    var t := w.mem.tables;
    var w' := w.(bytes := Stored(w.bytes, t, root, va, data));
    forall a ensures ByteIn(w'.bytes, a) == ByteIn(w.bytes, a) || UsedBy(w.used, root, a) {
      if !UsedBy(w.used, root, a) {
        forall off | 0 <= off < |data| ensures PaAt(t, root, va, off) != a {
          assert UserMapped(t, root, va + off, write);
          UserPa(free0, w, root, va + off, write);
          SamePageFrame(FrameOf(Word1(t, root, va + off)), (va + off) % PAGE_SIZE);
        }
        StoredElsewhere(w.bytes, t, root, va, data, a);
      }
    }
  }

  // ---- mapping a range of pages ----

  /** Addresses of one page have the same indices. */
  lemma OnePage(v: int, x: int)
    requires v % PAGE_SIZE == 0 && v <= x < v + PAGE_SIZE
    ensures PageAt(x) == PageAt(v) && x - x % PAGE_SIZE == v
  {
    assert x / PAGE_SIZE == v / PAGE_SIZE;
    assert x / 0x20_0000 == x / PAGE_SIZE / 512 && x / 0x4000_0000 == x / PAGE_SIZE / 0x4_0000;
    assert x / 0x80_0000_0000 == x / PAGE_SIZE / 0x800_0000;
  }

  lemma NextPage(v: int, end: int)
    requires v % PAGE_SIZE == 0 && end % PAGE_SIZE == 0 && v < end
    ensures v + PAGE_SIZE <= end && (v + PAGE_SIZE) % PAGE_SIZE == 0
  {
  }

  /** vb is, to the walk, on a page that some address of [start, end) lies on. */
  ghost predicate InRange(start: int, end: int, vb: int) {
    exists x: int :: start <= x < end && PageAt(x) == PageAt(vb)
  }

  ghost predicate LeavesBut(w: World, w': World, root: int, start: int, end: int) {
    forall r, vb: int {:trigger Leaf(w'.mem.tables, r, vb)} ::
      IsRoot(w.own, r) && Idx4(vb) != HHDM_SLOT && (r != root || !InRange(start, end, vb)) ==>
        Leaf(w'.mem.tables, r, vb) == Leaf(w.mem.tables, r, vb)
  }

  /** Fresh user pages were mapped to [start, end) of root, and that is all. */
  ghost predicate RangeMapped(w: World, w': World, root: int, start: int, end: int, write: bool) {
    && Progressed(w.mem, w.own, w'.mem, w'.own) && UsesGrow(w.used, w'.used, root) && IsRoot(w'.own, root)
    && w'.bytes == w.bytes && AllMapped(w'.mem.tables, root, start, end, write) && LeavesBut(w, w', root, start, end)
  }

  /** The page of va in root now has a frame that nothing used before; everything else is as it was. */
  ghost predicate PageMapped(w: World, w': World, root: int, va: int, write: bool, f: int) {
    && f !in w.used && w'.used == w.used[f := Use(root, PageAt(va))] && w'.bytes == w.bytes
    && exists e: int :: Present(e) && User(e) && (Writable(e) <==> write) && FrameOf(e) == f
                        && Mapped(w.mem, w.own, w'.mem, w'.own, root, va, e)
  }

  lemma NothingMapped(free0: seq<Range>, w: World, root: int, start: int, write: bool)
    requires Sound(free0, w) && IsRoot(w.own, root)
    ensures RangeMapped(w, w, root, start, start, write)
  {
  }

  /** One more page of a range mapped, to entry e. */
  lemma LeavesStep(w0: World, w: World, w': World, root: int, start: int, v: int, e: int)
    requires start <= v && v % PAGE_SIZE == 0 && LeavesBut(w0, w, root, start, v)
    requires Tree(w0.mem, w0.own) && Progressed(w0.mem, w0.own, w.mem, w.own)
    requires Mapped(w.mem, w.own, w'.mem, w'.own, root, v, e)
    ensures LeavesBut(w0, w', root, start, v + PAGE_SIZE) && Progressed(w0.mem, w0.own, w'.mem, w'.own)
  {
    ProgressTransitive(w0.mem, w0.own, w.mem, w.own, w'.mem, w'.own);
    forall r, vb: int | IsRoot(w0.own, r) && Idx4(vb) != HHDM_SLOT && (r != root || !InRange(start, v + PAGE_SIZE, vb))
      ensures Leaf(w'.mem.tables, r, vb) == Leaf(w0.mem.tables, r, vb)
    {
      assert IsRoot(w.own, r);
      assert LeafAfter(w.own, w.mem.tables, w'.mem.tables, root, v, e, r, vb);
      assert InRange(start, v, vb) ==> InRange(start, v + PAGE_SIZE, vb);
      assert PageAt(v) == PageAt(vb) ==> InRange(start, v + PAGE_SIZE, vb);
      assert Leaf(w.mem.tables, r, vb) == Leaf(w0.mem.tables, r, vb);
    }
  }

  lemma RangeStep(free0: seq<Range>, w0: World, w: World, w': World, root: int, start: int, v: int, write: bool, f: int)
    requires Sound(free0, w0) && start <= v && v % PAGE_SIZE == 0
    requires forall x: int {:trigger Idx4(x)} :: start <= x < v + PAGE_SIZE ==> Idx4(x) != HHDM_SLOT
    requires RangeMapped(w0, w, root, start, v, write) && PageMapped(w, w', root, v, write, f)
    ensures RangeMapped(w0, w', root, start, v + PAGE_SIZE, write)
  {
    var e: int :| Present(e) && User(e) && (Writable(e) <==> write) && FrameOf(e) == f
                  && Mapped(w.mem, w.own, w'.mem, w'.own, root, v, e);
    LeavesStep(w0, w, w', root, start, v, e);
    forall x: int | start <= x < v + PAGE_SIZE ensures UserMapped(w'.mem.tables, root, x, write) {
      assert LeafAfter(w.own, w.mem.tables, w'.mem.tables, root, v, e, root, x);
      if x < v {
        assert UserMapped(w.mem.tables, root, x, write);
      } else {
        OnePage(v, x);
      }
    }
  }

  /** One more page of the range: a fresh frame, mapped for user mode. */
  lemma FreshPage(free0: seq<Range>, w0: World, w: World, root: int, start: int, v: int, end: int, write: bool)
    returns (w': World)
    requires Sound(free0, w0) && Sound(free0, w) && RangeMapped(w0, w, root, start, v, write)
    requires start <= v < end && v % PAGE_SIZE == 0 && end % PAGE_SIZE == 0
    requires forall x: int {:trigger Idx4(x)} :: start <= x < end ==> Idx4(x) != HHDM_SLOT
    requires MapNew(w.mem, root, v, write).Some?
    ensures w'.mem == MapNew(w.mem, root, v, write).value.0 && w'.bytes == w.bytes
    ensures Sound(free0, w') && RangeMapped(w0, w', root, start, v + PAGE_SIZE, write)
    ensures PageMapped(w, w', root, v, write, MapNew(w.mem, root, v, write).value.1)
  {
    NextPage(v, end);
    var (m', f) := MapNew(w.mem, root, v, write).value;
    var own' := MapNewKeeps(free0, w.mem, w.own, w.used, root, v, write);
    w' := World(m', own', w.used[f := Use(root, PageAt(v))], w.bytes);
    RangeStep(free0, w0, w, w', root, start, v, write, f);
  }

  // ---- mapping the kernel image ----

  /** x is mapped to itself, writable, and not for user mode. */
  ghost predicate KernelMapped(t: Tables, root: int, x: int) {
    && Leaf(t, root, x).Some? && !User(Leaf(t, root, x).value) && Writable(Leaf(t, root, x).value)
    && FrameOf(Leaf(t, root, x).value) == x - x % PAGE_SIZE
  }

  ghost predicate KernelRange(w: World, w': World, root: int, start: int, end: int) {
    && Progressed(w.mem, w.own, w'.mem, w'.own) && w'.used == w.used && IsRoot(w'.own, root) && w'.bytes == w.bytes
    && (forall x: int {:trigger KernelMapped(w'.mem.tables, root, x)} ::
          start <= x < end ==> KernelMapped(w'.mem.tables, root, x))
    && LeavesBut(w, w', root, start, end)
  }

  lemma NoKernelPages(free0: seq<Range>, w: World, root: int, start: int)
    requires Sound(free0, w) && IsRoot(w.own, root)
    ensures KernelRange(w, w, root, start, start)
  {
  }

  lemma LowHalf(x: int)
    requires 0 <= x < LOWER_HALF
    ensures Idx4(x) < HHDM_SLOT && CanonicalAddress(x)
  {
  }

  /** e is the word that maps v to itself for the kernel. */
  lemma KernelStep(free0: seq<Range>, w0: World, w: World, w': World, root: int, start: int, v: int, e: int)
    requires Sound(free0, w0) && 0 <= start <= v < LOWER_HALF && v % PAGE_SIZE == 0
    requires FrameOf(e) == v && !User(e) && Writable(e)
    requires KernelRange(w0, w, root, start, v) && w'.used == w.used && w'.bytes == w.bytes
    requires Mapped(w.mem, w.own, w'.mem, w'.own, root, v, e)
    ensures KernelRange(w0, w', root, start, v + PAGE_SIZE)
  {
    LeavesStep(w0, w, w', root, start, v, e);
    forall x: int | start <= x < v + PAGE_SIZE ensures KernelMapped(w'.mem.tables, root, x) {
      LowHalf(x);
      assert LeafAfter(w.own, w.mem.tables, w'.mem.tables, root, v, e, root, x);
      KernelStays(w.own, w.mem.tables, w'.mem.tables, root, v, e, x);
    }
  }

  /** Below 2^48 the walk tells all pages apart. */
  lemma PageNumber(x: int)
    requires 0 <= x < LOWER_HALF
    ensures x / PAGE_SIZE == ((Idx4(x) * 512 + Idx3(x)) * 512 + Idx2(x)) * 512 + Idx1(x)
  {
    var n := x / PAGE_SIZE;
    assert x / 0x20_0000 == n / 512 && x / 0x4000_0000 == n / 512 / 512 && x / 0x80_0000_0000 == n / 512 / 512 / 512;
    assert n / 512 / 512 / 512 % 512 == n / 512 / 512 / 512;
  }

  lemma KernelStays(own: Ways, t: Tables, t': Tables, root: int, v: int, e: int, x: int)
    requires LeafAfter(own, t, t', root, v, e, root, x) && 0 <= x < v + PAGE_SIZE && v % PAGE_SIZE == 0 && v < LOWER_HALF
    requires FrameOf(e) == v && !User(e) && Writable(e)
    requires x < v ==> KernelMapped(t, root, x)
    ensures KernelMapped(t', root, x)
  {
    if v <= x {
      OnePage(v, x);
    } else {
      PageNumber(x);
      PageNumber(v);
      EarlierPage(x, v);
    }
  }

  lemma EarlierPage(x: int, v: int)
    requires x < v && v % PAGE_SIZE == 0
    ensures x / PAGE_SIZE != v / PAGE_SIZE
  {
  }

  lemma KernelWord(v: u64)
    requires v % PAGE_SIZE == 0 && v < TWO_52
    ensures var e := LeafWord(v, false, true); FrameOf(e) == v && !User(e) && Writable(e)
  {
    assert PageDown(v) == v;
    WordParts(v, false, true);
  }

  /** One more page of the kernel image. */
  lemma KernelPage(free0: seq<Range>, w0: World, w: World, root: int, start: int, v: u64) returns (w': World)
    requires Sound(free0, w0) && Sound(free0, w) && KernelRange(w0, w, root, start, v)
    requires 0 <= start <= v < LOWER_HALF && v % PAGE_SIZE == 0
    requires Map4k(w.mem, root, v, v, false, true).Some?
    ensures w'.mem == Map4k(w.mem, root, v, v, false, true).value && w'.bytes == w.bytes && w'.used == w.used
    ensures Sound(free0, w') && KernelRange(w0, w', root, start, v + PAGE_SIZE)
  {
    LowHalf(v);
    KernelWord(v);
    var own' := MapKernelPage(free0, w.mem, w.own, w.used, root, v, v, true);
    w' := World(Map4k(w.mem, root, v, v, false, true).value, own', w.used, w.bytes);
    KernelStep(free0, w0, w, w', root, start, v, LeafWord(v, false, true));
  }

  /** The kernel runs at its own addresses in this address space, and user code cannot reach it there. */
  lemma KernelWalk(free0: seq<Range>, w: World, root: int, x: int)
    requires Sound(free0, w) && IsRoot(w.own, root) && 0 <= x < LOWER_HALF && KernelMapped(w.mem.tables, root, x)
    ensures HardwareWalk(w.mem.tables, root, x) == Some(x) && UserRead(w, root, x) == None
  {
    LowHalf(x);
    UserWalk(free0, w.mem, w.own, w.used, root, x);
    WalkOwned(w.mem, w.own, root, x);
    assert FrameOwned(w.mem.tables, w.own, root);
    RootFrame(root);
    LinkNotHuge(Word2(w.mem.tables, root, x));
  }

  lemma LinkNotHuge(e: int)
    requires e == FrameOf(e) + Bits(false, true) || e == FrameOf(e) + Bits(true, true)
    ensures !Huge(e)
  {
    WordParts(FrameOf(e), false, true);
    WordParts(FrameOf(e), true, true);
  }

  // ---- several segments ----

  /** vb is, to the walk, on a page of the segment. */
  ghost predicate Touches(ph: Phdr, vb: int) {
    exists x: int :: OnPages(ph, x) && PageAt(x) == PageAt(vb)
  }

  /** Leaves of every address space, outside the pages of this segment in root. */
  ghost predicate LeavesOutside(w: World, w': World, root: int, ph: Phdr) {
    forall r, vb: int {:trigger Leaf(w'.mem.tables, r, vb)} ::
      IsRoot(w.own, r) && Idx4(vb) != HHDM_SLOT && (r != root || !Touches(ph, vb)) ==>
        Leaf(w'.mem.tables, r, vb) == Leaf(w.mem.tables, r, vb)
  }

  predicate Addressable(ph: Phdr) { ph.vaddr + ph.memsz <= TWO_64 - PAGE_SIZE }

  /** What loading one segment does. */
  ghost predicate SegmentLoaded(free0: seq<Range>, w: World, w': World, root: int, elf: seq<byte>, ph: Phdr) {
    && Sound(free0, w') && IsRoot(w'.own, root) && Kept(w, w', root) && LeavesOutside(w, w', root, ph)
    && InFile(elf, ph) && Addressable(ph)
    && (ph.filesz <= ph.memsz ==>
          && BytesKept(w, w', root)
          && (PagesOk(ph) ==> SegmentHeld(w', root, elf, ph))
          && forall a {:trigger ByteIn(w'.bytes, a)} ::
               ByteIn(w'.bytes, a) == ByteIn(w.bytes, a) || LeadsTo(w', root, ph, a))
  }

  /** Some address of the segment is found at a. */
  ghost predicate LeadsTo(w: World, root: int, ph: Phdr, a: int) {
    exists off :: 0 <= off < ph.memsz && UserMapped(w.mem.tables, root, ph.vaddr + off, Writes(ph))
                  && PaAt(w.mem.tables, root, ph.vaddr, off) == a
  }

  /** The pages that the loader maps for a segment are exactly those its addresses lie on. */
  lemma PagesCovered(ph: Phdr, end: int)
    requires Loadable(ph) && PageUp(SaturatingAdd(ph.vaddr, ph.memsz)) == Some(end)
    ensures ph.vaddr + ph.memsz <= TWO_64 - PAGE_SIZE
    ensures PageDown(ph.vaddr) <= ph.vaddr < end && ph.vaddr + ph.memsz <= end
    ensures forall x: int {:trigger OnPages(ph, x)} :: OnPages(ph, x) <==> PageDown(ph.vaddr) <= x < end
  {
  }

  /** Map the pages, then store the bytes. */
  lemma MapThenStore(free0: seq<Range>, w: World, w1: World, root: int, elf: seq<byte>, ph: Phdr, end: int)
    requires Sound(free0, w) && Sound(free0, w1) && Loadable(ph) && InFile(elf, ph)
    requires PageUp(SaturatingAdd(ph.vaddr, ph.memsz)) == Some(end)
    requires forall x: int {:trigger OnPages(ph, x)} :: OnPages(ph, x) ==> Idx4(x) != HHDM_SLOT
    requires RangeMapped(w, w1, root, PageDown(ph.vaddr), end, Writes(ph))
    ensures SegmentLoaded(free0, w, w1.(bytes := SegmentStored(w1.bytes, w1.mem.tables, root, elf, ph)), root, elf, ph)
  {
    var t := w1.mem.tables;
    var w2 := w1.(bytes := SegmentStored(w1.bytes, t, root, elf, ph));
    PagesCovered(ph, end);
    OthersOf(w, w1, root, PageDown(ph.vaddr), end);
    ProgressKeeps(w, w2, root);
    forall r, vb: int | IsRoot(w.own, r) && Idx4(vb) != HHDM_SLOT && (r != root || !Touches(ph, vb))
      ensures Leaf(t, r, vb) == Leaf(w.mem.tables, r, vb)
    {
      assert InRange(PageDown(ph.vaddr), end, vb) ==> Touches(ph, vb);
    }
    if ph.filesz <= ph.memsz {
      assert AllMapped(t, root, ph.vaddr, ph.vaddr + ph.memsz, Writes(ph));
      StoredWhereMapped(free0, w1, root, elf, ph);
      if PagesOk(ph) {
        StoresLoad(free0, w1, root, elf, ph);
      }
    }
  }

  lemma OthersOf(w: World, w': World, root: int, start: int, end: int)
    requires LeavesBut(w, w', root, start, end)
    ensures OtherLeaves(w.own, w.mem.tables, w'.mem.tables, root)
  {
  }

  lemma StoredWhereMapped(free0: seq<Range>, w: World, root: int, elf: seq<byte>, ph: Phdr)
    requires Sound(free0, w) && IsRoot(w.own, root) && InFile(elf, ph) && ph.filesz <= ph.memsz
    requires AllMapped(w.mem.tables, root, ph.vaddr, ph.vaddr + ph.memsz, Writes(ph))
    requires forall x: int {:trigger OnPages(ph, x)} :: OnPages(ph, x) ==> Idx4(x) != HHDM_SLOT
    ensures var w' := w.(bytes := SegmentStored(w.bytes, w.mem.tables, root, elf, ph));
            && BytesKept(w, w', root)
            && forall a {:trigger ByteIn(w'.bytes, a)} ::
                 ByteIn(w'.bytes, a) == ByteIn(w.bytes, a) || LeadsTo(w', root, ph, a)
  {
    var t := w.mem.tables;
    var w' := w.(bytes := SegmentStored(w.bytes, t, root, elf, ph));
    SegmentStoredOnce(w.bytes, t, root, elf, ph);
    assert |SegBytes(elf, ph)| == ph.memsz;
    forall x: int | ph.vaddr <= x < ph.vaddr + ph.memsz ensures Idx4(x) != HHDM_SLOT {
      assert OnPages(ph, x);
    }
    StoresKeep(free0, w, root, ph.vaddr, SegBytes(elf, ph), Writes(ph));
    forall a ensures ByteIn(w'.bytes, a) == ByteIn(w.bytes, a) || LeadsTo(w', root, ph, a) {
      if !LeadsTo(w', root, ph, a) {
        forall off | 0 <= off < ph.memsz ensures PaAt(t, root, ph.vaddr, off) != a {
          assert UserMapped(t, root, ph.vaddr + off, Writes(ph));
        }
        StoredElsewhere(w.bytes, t, root, ph.vaddr, SegBytes(elf, ph), a);
      }
    }
  }

  /** Once its pages are mapped, nothing stops the stores of a segment that is not malformed. */
  lemma MappedStores(w: World, root: int, elf: seq<byte>, ph: Phdr, end: int)
    requires Loadable(ph) && !Malformed(elf, ph) && PageUp(SaturatingAdd(ph.vaddr, ph.memsz)) == Some(end)
    requires AllMapped(w.mem.tables, root, PageDown(ph.vaddr), end, Writes(ph))
    ensures SegmentStores(w.mem.tables, root, elf, ph)
  {
    var t := w.mem.tables;
    PagesCovered(ph, end);
    forall off | 0 <= off < ph.memsz ensures Stores(t, root, ph.vaddr, off) {
      assert UserMapped(t, root, ph.vaddr + off, Writes(ph));
    }
    var va := ph.vaddr + ph.filesz;
    forall off | 0 <= off < ph.memsz - ph.filesz ensures Stores(t, root, va, off) {
      assert Stores(t, root, ph.vaddr, ph.filesz + off);
    }
  }

  /** Pages of the one and the other are different pages to the walk. */
  ghost predicate Apart(ph: Phdr, ph': Phdr) {
    forall x: int, y: int {:trigger OnPages(ph, x), OnPages(ph', y)} ::
      OnPages(ph, x) && OnPages(ph', y) ==> PageAt(x) != PageAt(y)
  }

  /** A segment stays in memory while another one is loaded beside it. */
  lemma SegmentStays(free0: seq<Range>, w: World, w': World, root: int, elf: seq<byte>, ph: Phdr, ph': Phdr)
    requires Sound(free0, w) && IsRoot(w.own, root) && SegmentHeld(w, root, elf, ph)
    requires SegmentLoaded(free0, w, w', root, elf, ph') && ph'.filesz <= ph'.memsz
    requires PagesOk(ph) && PagesOk(ph') && Apart(ph, ph')
    ensures SegmentHeld(w', root, elf, ph)
  {
    forall off | 0 <= off < ph.memsz ensures ByteHeld(w', root, elf, ph, off) {
      ByteStays(free0, w, w', root, elf, ph, ph', off);
    }
  }

  lemma ByteStays(free0: seq<Range>, w: World, w': World, root: int, elf: seq<byte>, ph: Phdr, ph': Phdr, off: int)
    requires Sound(free0, w) && IsRoot(w.own, root) && SegmentHeld(w, root, elf, ph) && 0 <= off < ph.memsz
    requires SegmentLoaded(free0, w, w', root, elf, ph') && ph'.filesz <= ph'.memsz
    requires PagesOk(ph) && PagesOk(ph') && Apart(ph, ph')
    ensures ByteHeld(w', root, elf, ph, off)
  {
    var x := ph.vaddr + off;
    assert OnPages(ph, x) && ByteHeld(w, root, elf, ph, off);
    SameLeafSamePa(w, w', root, x, Writes(ph), ph');
    var a := Pa(w'.mem.tables, root, x);
    NotLedTo(free0, w', root, ph, ph', x);
    assert ByteIn(w'.bytes, a) == ByteIn(w.bytes, a) || LeadsTo(w', root, ph', a);
  }

  lemma SameLeafSamePa(w: World, w': World, root: int, x: int, write: bool, ph': Phdr)
    requires IsRoot(w.own, root) && Idx4(x) != HHDM_SLOT && LeavesOutside(w, w', root, ph') && !Touches(ph', x)
    requires UserMapped(w.mem.tables, root, x, write)
    ensures UserMapped(w'.mem.tables, root, x, write) && Pa(w'.mem.tables, root, x) == Pa(w.mem.tables, root, x)
  {
    assert Leaf(w'.mem.tables, root, x) == Leaf(w.mem.tables, root, x);
  }

  lemma NotLedTo(free0: seq<Range>, w: World, root: int, ph: Phdr, ph': Phdr, x: int)
    requires Sound(free0, w) && IsRoot(w.own, root) && PagesOk(ph) && PagesOk(ph') && Apart(ph, ph')
    requires OnPages(ph, x) && UserMapped(w.mem.tables, root, x, Writes(ph))
    ensures !LeadsTo(w, root, ph', Pa(w.mem.tables, root, x))
  {
    forall k | 0 <= k < ph'.memsz && UserMapped(w.mem.tables, root, ph'.vaddr + k, Writes(ph'))
      ensures PaAt(w.mem.tables, root, ph'.vaddr, k) != Pa(w.mem.tables, root, x)
    {
      var y := ph'.vaddr + k;
      assert OnPages(ph', y);
      if Pa(w.mem.tables, root, y) == Pa(w.mem.tables, root, x) {
        PaDistinct(free0, w, root, x, y, Writes(ph), Writes(ph'));
      }
    }
  }

  /** vb is, to the walk, on a page of one of these segments. */
  ghost predicate OnImage(phs: seq<Phdr>, vb: int) {
    exists k :: 0 <= k < |phs| && Loadable(phs[k]) && Touches(phs[k], vb)
  }

  /** What loading the first segments of an image does. */
  ghost predicate ImageLoaded(free0: seq<Range>, w: World, w': World, root: int, elf: seq<byte>, phs: seq<Phdr>) {
    && Sound(free0, w') && IsRoot(w'.own, root) && Kept(w, w', root)
    && (forall k :: 0 <= k < |phs| && Loadable(phs[k]) ==> InFile(elf, phs[k]) && Addressable(phs[k]))
    && (forall vb: int {:trigger Leaf(w'.mem.tables, root, vb)} ::
          Idx4(vb) != HHDM_SLOT && !OnImage(phs, vb) ==> Leaf(w'.mem.tables, root, vb) == Leaf(w.mem.tables, root, vb))
    && (SizesOk(phs) ==>
          && BytesKept(w, w', root)
          && (PagesApart(phs) && AvoidsDirectMap(phs) ==>
                forall k :: 0 <= k < |phs| && Loadable(phs[k]) ==> SegmentHeld(w', root, elf, phs[k])))
  }

  lemma NoSegmentsYet(free0: seq<Range>, w: World, root: int, elf: seq<byte>)
    requires Sound(free0, w) && IsRoot(w.own, root)
    ensures ImageLoaded(free0, w, w, root, elf, [])
  {
  }

  lemma SkipSegment(free0: seq<Range>, w: World, w': World, root: int, elf: seq<byte>, phs: seq<Phdr>, ph: Phdr)
    requires ImageLoaded(free0, w, w', root, elf, phs) && !Loadable(ph)
    ensures ImageLoaded(free0, w, w', root, elf, phs + [ph])
  {
    PrefixOk(phs, ph);
  }

  lemma PrefixOk(phs: seq<Phdr>, ph: Phdr)
    ensures SizesOk(phs + [ph]) ==> SizesOk(phs)
    ensures PagesApart(phs + [ph]) ==> PagesApart(phs)
    ensures AvoidsDirectMap(phs + [ph]) ==> AvoidsDirectMap(phs)
    ensures forall vb: int :: OnImage(phs, vb) ==> OnImage(phs + [ph], vb)
    ensures forall vb: int :: Loadable(ph) && Touches(ph, vb) ==> OnImage(phs + [ph], vb)
  {
    var all := phs + [ph];
    assert forall k :: 0 <= k < |phs| ==> all[k] == phs[k];
    assert all[|phs|] == ph;
  }

  lemma SegmentAvoids(phs: seq<Phdr>, k: int)
    requires AvoidsDirectMap(phs) && 0 <= k < |phs| && Loadable(phs[k])
    ensures forall x: int {:trigger OnPages(phs[k], x)} :: OnPages(phs[k], x) ==> Idx4(x) != HHDM_SLOT
  {
  }

  lemma NextApart(phs: seq<Phdr>, ph: Phdr)
    requires Loadable(ph) && PagesApart(phs + [ph]) && AvoidsDirectMap(phs + [ph])
    ensures PagesOk(ph) && forall k :: 0 <= k < |phs| && Loadable(phs[k]) ==> PagesOk(phs[k]) && Apart(phs[k], ph)
  {
    var all := phs + [ph];
    assert all[|phs|] == ph;
    forall k | 0 <= k < |phs| && Loadable(phs[k]) ensures PagesOk(phs[k]) && Apart(phs[k], ph) {
      assert all[k] == phs[k];
    }
  }

  lemma AddSegment(free0: seq<Range>, w: World, w1: World, w2: World, root: int, elf: seq<byte>, phs: seq<Phdr>, ph: Phdr)
    requires IsRoot(w.own, root) && ImageLoaded(free0, w, w1, root, elf, phs)
    requires Loadable(ph) && SegmentLoaded(free0, w1, w2, root, elf, ph)
    ensures ImageLoaded(free0, w, w2, root, elf, phs + [ph]) && IsRoot(w2.own, root)
  {
    var all := phs + [ph];
    PrefixOk(phs, ph);
    KeptTransitive(w, w1, w2, root);
    forall vb: int | Idx4(vb) != HHDM_SLOT && !OnImage(all, vb)
      ensures Leaf(w2.mem.tables, root, vb) == Leaf(w.mem.tables, root, vb)
    {
      assert Leaf(w1.mem.tables, root, vb) == Leaf(w.mem.tables, root, vb);
    }
    if SizesOk(all) {
      assert all[|phs|] == ph;
      BytesKeptTransitive(w, w1, w2, root);
      if PagesApart(all) && AvoidsDirectMap(all) {
        NextApart(phs, ph);
        forall k | 0 <= k < |all| && Loadable(all[k]) ensures SegmentHeld(w2, root, elf, all[k]) {
          if k < |phs| {
            SegmentStays(free0, w1, w2, root, elf, phs[k], ph);
          }
        }
      }
    }
  }

  /** A loaded image, read by the program it belongs to: every byte of every segment is the file's byte, or zero
      beyond the file's part. */
  lemma ImageReads(free0: seq<Range>, w: World, w': World, root: int, elf: seq<byte>, phs: seq<Phdr>, k: int, off: int)
    requires ImageLoaded(free0, w, w', root, elf, phs)
    requires SizesOk(phs) && PagesApart(phs) && AvoidsDirectMap(phs)
    requires 0 <= k < |phs| && Loadable(phs[k]) && 0 <= off < phs[k].memsz
    ensures InFile(elf, phs[k]) && UserRead(w', root, phs[k].vaddr + off) == Some(SegByte(elf, phs[k], off))
    ensures CanonicalAddress(phs[k].vaddr + off) ==>
              ProgramRead(w', root, phs[k].vaddr + off) == Some(SegByte(elf, phs[k], off))
  {
    hide SpacesOk, VirtToPhys, HardwareUserWalk, Leaf, PagesApart, Kept, Word4, Word3, Word2, Word1;
    ProgramReads(free0, w', root, phs[k].vaddr + off);
    assert ByteHeld(w', root, elf, phs[k], off);
    assert OnPages(phs[k], phs[k].vaddr + off);
    UserPa(free0, w', root, phs[k].vaddr + off, Writes(phs[k]));
  }

  lemma LoadedIsWellFormed(free0: seq<Range>, w: World, w': World, root: int, elf: seq<byte>)
    requires HeaderOk(elf) && ImageLoaded(free0, w, w', root, elf, Phdrs(elf)) && SizesOk(Phdrs(elf))
    ensures WellFormed(elf)
  {
  }
}
