/** The steps of building one process's address space, each as a change of the whole memory, and what they
    add up to. */
module Building {
  import opened Words
  import opened Ranges
  import opened PageTables
  import opened PageTree
  import opened Spaces
  import opened DirectMap
  import opened Elf
  import opened Worlds
  import opened Images

  const STACK_TOP: int := 0x2000_0000
  const STACK_BASE: int := STACK_TOP - 4 * PAGE_SIZE
  const CODE: int := 0x1000_0000

  /** int 0x80, then a jump to itself: what runs when no init image was built in. */
  const BUILTIN: seq<byte> := [0xCD, 0x80, 0xEB, 0xFE]

  /** How a program starts, in the order of its trap frame: r15 to r8, rbp and rbx are zero; then its entry point, the user
      code segment, interrupts on, eight bytes below the top of its stack, and the user data segment. The argument
      registers are not among these. */
  function EntryRegisters(entry: int): seq<int> {
    [0, 0, 0, 0, 0, 0, 0, 0, 0, 0, entry, 0x33, 0x202, STACK_TOP - 8, 0x2b]
  }

  // ---- the root ----

  /** A fresh table becomes the root of a new address space. */
  ghost predicate RootMade(free0: seq<Range>, w: World, w': World, root: int) {
    && Sound(free0, w') && IsRoot(w'.own, root) && root !in w.mem.tables && Kept(w, w', root)
    && w'.bytes == w.bytes && Rd(w'.mem.tables, root, HHDM_SLOT) == 0
  }

  lemma MakeRoot(free0: seq<Range>, w: World)
    requires Sound(free0, w) && NewTable(w.mem).Some?
    ensures var (m', root) := NewTable(w.mem).value;
            RootMade(free0, w, World(m', w.own[root := [root]], w.used, w.bytes), root)
  {
    NewTableKeeps(free0, w.mem, w.own, w.used);
    var (m', root) := NewTable(w.mem).value;
    AdoptRoot(free0, m', w.own, w.used, root);
    var w' := World(m', w.own[root := [root]], w.used, w.bytes);
    forall r, slot, n | DirectAt(w.mem.tables, w.own, r, slot, n) ensures DirectAt(w'.mem.tables, w'.own, r, slot, n) {
      SameDirect(w.mem.tables, w.own, w'.mem.tables, w'.own, root, r, slot, n);
    }
  }

  /** Writing the direct-map slot of a root that had none leaves all direct maps alone. */
  lemma SameDirect(t: Tables, own: Ways, t': Tables, own': Ways, root: int, r: int, slot: int, n: int)
    requires DirectAt(t, own, r, slot, n) && t.Keys <= t'.Keys && !Present(Rd(t, root, HHDM_SLOT))
    requires forall g, j {:trigger Rd(t', g, j)} :: g in t && (g != root || j != HHDM_SLOT) ==> Rd(t', g, j) == Rd(t, g, j)
    requires forall g :: g in t && g !in own ==> g !in own'
    requires root in own || root !in t
    ensures DirectAt(t', own', r, slot, n)
  {
    var pdpt := FrameOf(Rd(t, r, slot));
    forall i | 0 <= i < n ensures DirectEntry(t', own', pdpt, i) {
      assert DirectEntry(t, own, pdpt, i);
    }
  }

  // ---- the direct map ----

  /** A direct map of n chunks now hangs from the direct-map slot of root, which had none. */
  ghost predicate DirectMapMade(free0: seq<Range>, w: World, w': World, root: int, n: int) {
    && Sound(free0, w') && IsRoot(w'.own, root) && Kept(w, w', root) && w'.bytes == w.bytes
    && DirectAt(w'.mem.tables, w'.own, root, HHDM_SLOT, n)
    && forall vb: int {:trigger Leaf(w'.mem.tables, root, vb)} ::
         Idx4(vb) != HHDM_SLOT ==> Leaf(w'.mem.tables, root, vb) == Leaf(w.mem.tables, root, vb)
  }

  lemma DirectMapMakes(free0: seq<Range>, w: World, w': World, root: int, pdpt: int, n: int)
    requires Sound(free0, w) && Sound(free0, w') && IsRoot(w.own, root) && w' == w.(mem := w'.mem)
    requires !Present(Rd(w.mem.tables, root, HHDM_SLOT)) && w.mem.tables.Keys <= w'.mem.tables.Keys
    requires forall g, j {:trigger Rd(w'.mem.tables, g, j)} ::
               g in w.mem.tables && (g != root || j != HHDM_SLOT) ==> Rd(w'.mem.tables, g, j) == Rd(w.mem.tables, g, j)
    requires Rd(w'.mem.tables, root, HHDM_SLOT) == Link(pdpt, false) && FrameOk(pdpt)
    requires DirectPdpt(w'.mem.tables, w.own, pdpt, n)
    ensures DirectMapMade(free0, w, w', root, n)
  {
    var t, t' := w.mem.tables, w'.mem.tables;
    LinkParts(pdpt);
    assert FrameOwned(t', w.own, root);
    forall r, slot, k | DirectAt(t, w.own, r, slot, k) ensures DirectAt(t', w.own, r, slot, k) {
      SameDirect(t, w.own, t', w.own, root, r, slot, k);
    }
    forall g, j | g in w.own && Regular(w.own[g], j) ensures Rd(t', g, j) == Rd(t, g, j) {
      assert FrameOwned(t, w.own, g);
    }
    forall r, vb: int | IsRoot(w.own, r) && Idx4(vb) != HHDM_SLOT ensures Leaf(t', r, vb) == Leaf(t, r, vb) {
      SameForestLeaf(w.mem, w.own, t', r, vb);
    }
  }

  // ---- the program ----

  /** What running process code reads at CODE when there is no init image. */
  ghost predicate BuiltinHeld(w: World, root: int) {
    forall k :: 0 <= k < |BUILTIN| ==> UserRead(w, root, CODE + k) == Some(BUILTIN[k])
  }

  /** vb is, to the walk, on a page of the program. */
  ghost predicate OnProgram(elf: seq<byte>, vb: int) {
    if elf == [] then InRange(CODE, CODE + PAGE_SIZE, vb) else HeaderOk(elf) && OnImage(Phdrs(elf), vb)
  }

  /** The program and its entry point are in place. */
  ghost predicate ProgramLoaded(free0: seq<Range>, w: World, w': World, root: int, elf: seq<byte>, entry: int) {
    && Sound(free0, w') && IsRoot(w'.own, root) && Kept(w, w', root)
    && (forall vb: int {:trigger Leaf(w'.mem.tables, root, vb)} ::
          Idx4(vb) != HHDM_SLOT && !OnProgram(elf, vb) ==> Leaf(w'.mem.tables, root, vb) == Leaf(w.mem.tables, root, vb))
    && if elf == [] then entry == CODE && BytesKept(w, w', root) && BuiltinHeld(w', root)
       else HeaderOk(elf) && entry == EntryPoint(elf) && ImageLoaded(free0, w, w', root, elf, Phdrs(elf))
  }

  /** Nothing of the program's bytes goes beyond its segments. */
  ghost predicate ProgramSizesOk(elf: seq<byte>) { elf != [] && HeaderOk(elf) ==> SizesOk(Phdrs(elf)) }

  lemma ImageIsProgram(free0: seq<Range>, w: World, w': World, root: int, elf: seq<byte>)
    requires elf != [] && HeaderOk(elf) && ImageLoaded(free0, w, w', root, elf, Phdrs(elf))
    ensures ProgramLoaded(free0, w, w', root, elf, EntryPoint(elf))
  {
  }

  /** The four bytes of the built-in program, stored into the frame f of its page. */
  function BuiltinStored(bytes: map<int, int>, f: int): map<int, int> {
    bytes[f := BUILTIN[0]][f + 1 := BUILTIN[1]][f + 2 := BUILTIN[2]][f + 3 := BUILTIN[3]]
  }

  lemma OnFreshPage(free0: seq<Range>, w: World, w1: World, root: int, va: int, write: bool, f: int, k: int)
    requires Sound(free0, w1) && IsRoot(w.own, root) && IsRoot(w1.own, root) && PageMapped(w, w1, root, va, write, f)
    requires va % PAGE_SIZE == 0 && Idx4(va) != HHDM_SLOT && 0 <= k < PAGE_SIZE
    ensures VirtToPhys(w1.mem.tables, root, va + k) == Some(f + k) && UsedBy(w1.used, root, f + k)
  {
    hide Sound, VirtToPhys, Word4, Word3, Word2;
    OnePage(va, va + k);
    var e: int :| Present(e) && User(e) && (Writable(e) <==> write) && FrameOf(e) == f
                  && Mapped(w.mem, w.own, w1.mem, w1.own, root, va, e);
    assert LeafAfter(w.own, w.mem.tables, w1.mem.tables, root, va, e, root, va + k);
    UserPa(free0, w1, root, va + k, write);
    SamePageFrame(f, k);
  }

  lemma BuiltinBytes(bytes: map<int, int>, f: int, a: int)
    ensures f <= a < f + 4 ==> ByteIn(BuiltinStored(bytes, f), a) == BUILTIN[a - f]
    ensures !(f <= a < f + 4) ==> ByteIn(BuiltinStored(bytes, f), a) == ByteIn(bytes, a)
  {
  }

  lemma BuiltinIsProgram(free0: seq<Range>, w: World, w1: World, root: int, f: int)
    requires Sound(free0, w) && IsRoot(w.own, root) && Sound(free0, w1)
    requires RangeMapped(w, w1, root, CODE, CODE + PAGE_SIZE, false) && PageMapped(w, w1, root, CODE, false, f)
    ensures ProgramLoaded(free0, w, w1.(bytes := BuiltinStored(w1.bytes, f)), root, [], CODE)
  {
    hide BuiltinStored, PageMapped, Sound, UsedBy, VirtToPhys;
    var w' := w1.(bytes := BuiltinStored(w1.bytes, f));
    OthersOf(w, w1, root, CODE, CODE + PAGE_SIZE);
    BuiltinKeeps(free0, w, w1, w', root);
    forall k | 0 <= k < |BUILTIN| ensures UserRead(w', root, CODE + k) == Some(BUILTIN[k]) {
      OnFreshPage(free0, w, w1, root, CODE, false, f, k);
      BuiltinBytes(w1.bytes, f, f + k);
    }
    forall a ensures ByteIn(w'.bytes, a) == ByteIn(w.bytes, a) || UsedBy(w'.used, root, a) {
      BuiltinBytes(w1.bytes, f, a);
      if f <= a < f + |BUILTIN| {
        OnFreshPage(free0, w, w1, root, CODE, false, f, a - f);
      }
    }
  }

  lemma BuiltinKeeps(free0: seq<Range>, w: World, w1: World, w': World, root: int)
    requires Sound(free0, w) && Sound(free0, w1) && RangeMapped(w, w1, root, CODE, CODE + PAGE_SIZE, false)
    requires w' == w1.(bytes := w'.bytes)
    ensures Kept(w, w', root) && Sound(free0, w')
  {
    OthersOf(w, w1, root, CODE, CODE + PAGE_SIZE);
    ProgressKeeps(w, w', root);
  }

  // ---- the whole process ----

  /** What building a process does: a new address space with the kernel image, the direct map, a stack and the
      program in it; no other address space is touched. */
  ghost predicate ProcBuilt(free0: seq<Range>, w: World, w': World, root: int, kernelBase: int, kernelEnd: int, n: int,
                            elf: seq<byte>, entry: int)
  {
    && Sound(free0, w') && IsRoot(w'.own, root) && root !in w.mem.tables && Kept(w, w', root)
    && DirectAt(w'.mem.tables, w'.own, root, HHDM_SLOT, n)
    && (forall x: int {:trigger KernelMapped(w'.mem.tables, root, x)} ::
          kernelBase <= x < kernelEnd && !InRange(STACK_BASE, STACK_TOP, x) && !OnProgram(elf, x) ==>
            KernelMapped(w'.mem.tables, root, x))
    && (forall x: int {:trigger UserMapped(w'.mem.tables, root, x, true)} ::
          STACK_BASE <= x < STACK_TOP && !OnProgram(elf, x) ==> UserMapped(w'.mem.tables, root, x, true))
    && (ProgramSizesOk(elf) ==> BytesKept(w, w', root))
    && exists w1 :: ProgramLoaded(free0, w1, w', root, elf, entry)
  }

  /** The four steps of address-space building, in order. */
  lemma StepsBuild(free0: seq<Range>, w0: World, w1: World, w2: World, w3: World, w4: World, w5: World, root: int,
                   start: int, end: int, n: int, elf: seq<byte>, entry: int)
    requires Sound(free0, w0) && RootMade(free0, w0, w1, root)
    requires 0 <= start && (start < end ==> end <= LOWER_HALF) && Sound(free0, w2) && KernelRange(w1, w2, root, start, end)
    requires DirectMapMade(free0, w2, w3, root, n)
    requires Sound(free0, w4) && RangeMapped(w3, w4, root, STACK_BASE, STACK_TOP, true)
    requires ProgramLoaded(free0, w4, w5, root, elf, entry)
    ensures ProcBuilt(free0, w0, w5, root, start, end, n, elf, entry)
  {
    StepsKeep(free0, w0, w1, w2, w3, w4, w5, root, start, end, n);
    forall x: int | start <= x < end && !InRange(STACK_BASE, STACK_TOP, x) && !OnProgram(elf, x)
      ensures KernelMapped(w5.mem.tables, root, x)
    {
      LowHalf(x);
      assert KernelMapped(w2.mem.tables, root, x);
      assert Leaf(w3.mem.tables, root, x) == Leaf(w2.mem.tables, root, x);
      assert Leaf(w4.mem.tables, root, x) == Leaf(w3.mem.tables, root, x);
      assert Leaf(w5.mem.tables, root, x) == Leaf(w4.mem.tables, root, x);
    }
    forall x: int | STACK_BASE <= x < STACK_TOP && !OnProgram(elf, x) ensures UserMapped(w5.mem.tables, root, x, true) {
      LowHalf(x);
      assert UserMapped(w4.mem.tables, root, x, true);
      assert Leaf(w5.mem.tables, root, x) == Leaf(w4.mem.tables, root, x);
    }
    if ProgramSizesOk(elf) {
      assert BytesKept(w4, w5, root);
    }
  }

  lemma StepsKeep(free0: seq<Range>, w0: World, w1: World, w2: World, w3: World, w4: World, w5: World, root: int,
                  start: int, end: int, n: int)
    requires RootMade(free0, w0, w1, root) && Sound(free0, w2) && KernelRange(w1, w2, root, start, end)
    requires DirectMapMade(free0, w2, w3, root, n) && Sound(free0, w4) && RangeMapped(w3, w4, root, STACK_BASE, STACK_TOP, true)
    requires Kept(w4, w5, root)
    ensures Kept(w0, w5, root) && DirectAt(w5.mem.tables, w5.own, root, HHDM_SLOT, n)
  {
    OthersOf(w1, w2, root, start, end);
    ProgressKeeps(w1, w2, root);
    OthersOf(w3, w4, root, STACK_BASE, STACK_TOP);
    ProgressKeeps(w3, w4, root);
    KeptTransitive(w0, w1, w2, root);
    KeptTransitive(w0, w2, w3, root);
    KeptTransitive(w0, w3, w4, root);
    KeptTransitive(w0, w4, w5, root);
    assert DirectAt(w4.mem.tables, w4.own, root, HHDM_SLOT, n);
  }

  lemma BuiltinLeavesStack()
    ensures !OnProgram([], STACK_BASE)
  {
    forall x: int | CODE <= x < CODE + PAGE_SIZE ensures PageAt(x) != PageAt(STACK_BASE) {
      OnePage(CODE, x);
      assert Idx2(CODE) != Idx2(STACK_BASE);
    }
  }

  /** In every process whose program leaves the bottom page of the stack alone there is a pointer that the kernel
      follows and the processor refuses: 2^48 above the stack. The kernel finds the stack there. */
  lemma NonCanonicalPointerAccepted(free0: seq<Range>, w: World, w': World, root: int, kernelBase: int, kernelEnd: int, n: int,
                                    elf: seq<byte>, entry: int)
    requires ProcBuilt(free0, w, w', root, kernelBase, kernelEnd, n, elf, entry)
    requires elf == [] || !OnProgram(elf, STACK_BASE)
    ensures var (t, p) := (w'.mem.tables, STACK_BASE + TWO_48);
            && p < TWO_64 && !CanonicalAddress(p) && HardwareUserWalk(t, root, p).None?
            && VirtToPhys(t, root, p).Some? && VirtToPhys(t, root, p) == VirtToPhys(t, root, STACK_BASE)
  {
    var t := w'.mem.tables;
    BuiltinLeavesStack();
    assert UserMapped(t, root, STACK_BASE, true);
    LowHalf(STACK_BASE);
    UserPa(free0, w', root, STACK_BASE, true);
    hide VirtToPhys, UserMapped, Sound;
    SameWalk(t, root, STACK_BASE);
  }

  // ---- between the steps ----

  lemma EndInLowerHalf(end: u64)
    requires end <= LOWER_HALF && PageUp(end).Some?
    ensures end <= PageUp(end).value <= LOWER_HALF
  {
  }

  lemma RootFacts(free0: seq<Range>, w: World, w': World, root: int)
    requires RootMade(free0, w, w', root)
    ensures Sound(free0, w') && IsRoot(w'.own, root)
  {
  }

  lemma SlotStillEmpty(free0: seq<Range>, w0: World, w1: World, w2: World, root: int, start: int, end: int)
    requires RootMade(free0, w0, w1, root) && KernelRange(w1, w2, root, start, end)
    ensures IsRoot(w2.own, root) && !Present(Rd(w2.mem.tables, root, HHDM_SLOT))
  {
    SlotAfter(w1.mem, w1.own, w2.mem, w2.own, root);
  }

  lemma StackInLowerHalf(free0: seq<Range>, w: World, w': World, root: int, n: int)
    requires DirectMapMade(free0, w, w', root, n)
    ensures IsRoot(w'.own, root)
    ensures forall x: int {:trigger Idx4(x)} :: STACK_BASE <= x < STACK_TOP ==> Idx4(x) != HHDM_SLOT
  {
  }

  lemma RangeKeepsRoot(w: World, w': World, root: int, start: int, end: int, write: bool)
    requires RangeMapped(w, w', root, start, end, write)
    ensures IsRoot(w'.own, root)
  {
  }

  lemma ProgramHolds(free0: seq<Range>, w: World, w': World, root: int, elf: seq<byte>, entry: int)
    requires ProgramLoaded(free0, w, w', root, elf, entry)
    ensures Sound(free0, w')
  {
  }

  lemma BuiltUpTo(free0: seq<Range>, w: World, w': World, root: int, start: int, end: int, end': int, n: int, elf: seq<byte>,
                  entry: int)
    requires ProcBuilt(free0, w, w', root, start, end', n, elf, entry) && end <= end'
    ensures Sound(free0, w') && ProcBuilt(free0, w, w', root, start, end, n, elf, entry)
  {
  }
}
