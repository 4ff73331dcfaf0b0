/** Everything in physical memory at one moment, what one address space can read of it, and what building
    another one leaves alone. */
module Worlds {
  import opened Words
  import opened Ranges
  import opened PageTables
  import opened PageTree
  import opened Spaces
  import opened DirectMap

  /** Table words and free pages, the ways of tables, the uses of data frames, and all other bytes. */
  datatype World = World(mem: Mem, own: Ways, used: Uses, bytes: map<int, int>)

  ghost predicate Sound(free0: seq<Range>, w: World) { SpacesOk(free0, w.mem, w.own, w.used) }

  function ByteIn(bytes: map<int, int>, a: int): int { if a in bytes then bytes[a] else 0 }

  /** Where the walk finds the byte of an address, if it is mapped. */
  function Pa(t: Tables, root: int, va: int): int { FrameOf(Word1(t, root, va)) + va % PAGE_SIZE }

  /** What the kernel reads at va for the program of address space r. */
  function UserRead(w: World, r: int, va: int): Option<int> {
    match VirtToPhys(w.mem.tables, r, va)
    case None => None
    case Some(pa) => Some(ByteIn(w.bytes, pa))
  }

  /** What the program itself reads at va: None is a page fault, or a protection fault off the canonical addresses. */
  function ProgramRead(w: World, r: int, va: int): Option<int> {
    match HardwareUserWalk(w.mem.tables, r, va)
    case None => None
    case Some(pa) => Some(ByteIn(w.bytes, pa))
  }

  /** The kernel reads what the program reads, exactly on canonical addresses and where there is nothing to read. */
  lemma ProgramReads(free0: seq<Range>, w: World, r: int, va: int)
    requires Sound(free0, w) && IsRoot(w.own, r)
    ensures ProgramRead(w, r, va) == if CanonicalAddress(va) then UserRead(w, r, va) else None
    ensures ProgramRead(w, r, va) == UserRead(w, r, va) <==> CanonicalAddress(va) || UserRead(w, r, va).None?
  {
    UserWalk(free0, w.mem, w.own, w.used, r, va);
  }

  /** x is mapped for user mode at root, writable as asked. */
  ghost predicate UserMapped(t: Tables, root: int, x: int, write: bool) {
    Leaf(t, root, x).Some? && User(Leaf(t, root, x).value) && (Writable(Leaf(t, root, x).value) <==> write)
  }

  lemma UserPa(free0: seq<Range>, w: World, root: int, x: int, write: bool)
    requires Sound(free0, w) && IsRoot(w.own, root) && Idx4(x) != HHDM_SLOT && UserMapped(w.mem.tables, root, x, write)
    ensures VirtToPhys(w.mem.tables, root, x) == Some(Pa(w.mem.tables, root, x))
    ensures var f := FrameOf(Word1(w.mem.tables, root, x));
            f in w.used && w.used[f] == Use(root, PageAt(x)) && FrameOk(f) && Pa(w.mem.tables, root, x) == f + x % PAGE_SIZE
  {
    UserWalk(free0, w.mem, w.own, w.used, root, x);
    UserLeaf(free0, w.mem, w.own, w.used, root, x);
    assert FrameTaken(free0, w.mem, FrameOf(Word1(w.mem.tables, root, x)));
  }

  /** Two user addresses of one address space are found at the same place only if they are the same place of
      the same page. */
  lemma PaDistinct(free0: seq<Range>, w: World, root: int, x: int, y: int, write: bool, write': bool)
    requires Sound(free0, w) && IsRoot(w.own, root) && Idx4(x) != HHDM_SLOT && Idx4(y) != HHDM_SLOT
    requires UserMapped(w.mem.tables, root, x, write) && UserMapped(w.mem.tables, root, y, write')
    requires Pa(w.mem.tables, root, x) == Pa(w.mem.tables, root, y)
    ensures PageAt(x) == PageAt(y) && x % PAGE_SIZE == y % PAGE_SIZE
  {
    UserPa(free0, w, root, x, write);
    UserPa(free0, w, root, y, write');
    SamePageFrame(FrameOf(Word1(w.mem.tables, root, x)), x % PAGE_SIZE);
    SamePageFrame(FrameOf(Word1(w.mem.tables, root, y)), y % PAGE_SIZE);
  }

  // ---- what one address space leaves of the others ----

  /** Frames keep their pages; new ones belong to root. */
  ghost predicate UsesGrow(used: Uses, used': Uses, root: int) {
    && (forall f :: f in used ==> f in used' && used'[f] == used[f])
    && (forall f :: f in used' && f !in used ==> used'[f].root == root)
  }

  /** a lies in a data frame of root. */
  predicate UsedBy(used: Uses, root: int, a: int) {
    var f := a - a % PAGE_SIZE; f in used && used[f].root == root
  }

  /** Leaves of other address spaces are as they were. */
  ghost predicate OtherLeaves(own: Ways, t: Tables, t': Tables, root: int) {
    forall r, vb: int {:trigger Leaf(t', r, vb)} ::
      IsRoot(own, r) && r != root && Idx4(vb) != HHDM_SLOT ==> Leaf(t', r, vb) == Leaf(t, r, vb)
  }

  /** The direct maps of process roots, and those of roots outside the forest, are as they were. */
  ghost predicate DirectMapsHeld(own: Ways, t: Tables, own': Ways, t': Tables) {
    forall r, slot, n {:trigger DirectAt(t', own', r, slot, n)} ::
      DirectAt(t, own, r, slot, n) && (r !in own || (IsRoot(own, r) && slot == HHDM_SLOT)) ==>
        DirectAt(t', own', r, slot, n) && (r !in own ==> r !in own')
  }

  /** From w to w' only address space root was worked on. */
  ghost predicate Kept(w: World, w': World, root: int) {
    && (forall r :: IsRoot(w.own, r) ==> IsRoot(w'.own, r))
    && UsesGrow(w.used, w'.used, root)
    && OtherLeaves(w.own, w.mem.tables, w'.mem.tables, root)
    && DirectMapsHeld(w.own, w.mem.tables, w'.own, w'.mem.tables)
  }

  /** Bytes changed only in data frames of root. */
  ghost predicate BytesKept(w: World, w': World, root: int) {
    forall a {:trigger ByteIn(w'.bytes, a)} :: ByteIn(w'.bytes, a) == ByteIn(w.bytes, a) || UsedBy(w'.used, root, a)
  }

  lemma KeptTransitive(w: World, w1: World, w2: World, root: int)
    requires Kept(w, w1, root) && Kept(w1, w2, root)
    ensures Kept(w, w2, root)
  {
    forall r, vb: int | IsRoot(w.own, r) && r != root && Idx4(vb) != HHDM_SLOT
      ensures Leaf(w2.mem.tables, r, vb) == Leaf(w.mem.tables, r, vb)
    {
      assert Leaf(w1.mem.tables, r, vb) == Leaf(w.mem.tables, r, vb);
    }
    forall r, slot, n | DirectAt(w.mem.tables, w.own, r, slot, n) && (r !in w.own || (IsRoot(w.own, r) && slot == HHDM_SLOT))
      ensures DirectAt(w2.mem.tables, w2.own, r, slot, n) && (r !in w.own ==> r !in w2.own)
    {
      assert DirectAt(w1.mem.tables, w1.own, r, slot, n);
    }
  }

  lemma BytesKeptTransitive(w: World, w1: World, w2: World, root: int)
    requires BytesKept(w, w1, root) && BytesKept(w1, w2, root) && UsesGrow(w1.used, w2.used, root)
    ensures BytesKept(w, w2, root)
  {
    forall a ensures ByteIn(w2.bytes, a) == ByteIn(w.bytes, a) || UsedBy(w2.used, root, a) {
      assert ByteIn(w1.bytes, a) == ByteIn(w.bytes, a) || UsedBy(w1.used, root, a);
    }
  }

  /** Whatever was done in address space root, every program in every other one reads what it read before, at
      every address. */
  lemma OthersUndisturbed(free0: seq<Range>, w: World, w': World, root: int, r: int, va: int)
    requires Sound(free0, w) && Sound(free0, w') && Kept(w, w', root) && BytesKept(w, w', root)
    requires IsRoot(w.own, r) && r != root
    ensures UserRead(w', r, va) == UserRead(w, r, va)
  {
    hide SpacesOk, DirectMapsHeld, VirtToPhys, Word4, Word3, Word2;
    UserWalk(free0, w.mem, w.own, w.used, r, va);
    UserWalk(free0, w'.mem, w'.own, w'.used, r, va);
    if Idx4(va) != HHDM_SLOT {
      assert Leaf(w'.mem.tables, r, va) == Leaf(w.mem.tables, r, va);
      if VirtToPhys(w.mem.tables, r, va).Some? {
        UserLeaf(free0, w.mem, w.own, w.used, r, va);
        var f := FrameOf(Leaf(w.mem.tables, r, va).value);
        SamePageFrame(f, va % PAGE_SIZE);
        assert !UsedBy(w'.used, root, f + va % PAGE_SIZE);
      }
    }
  }

  /** Mapping pages of root changes nothing for the others. */
  lemma ProgressKeeps(w: World, w': World, root: int)
    requires Tree(w.mem, w.own) && Progressed(w.mem, w.own, w'.mem, w'.own) && UsesGrow(w.used, w'.used, root)
    requires OtherLeaves(w.own, w.mem.tables, w'.mem.tables, root)
    ensures Kept(w, w', root)
  {
    forall r, slot, n | DirectAt(w.mem.tables, w.own, r, slot, n) && (r !in w.own || (IsRoot(w.own, r) && slot == HHDM_SLOT))
      ensures DirectAt(w'.mem.tables, w'.own, r, slot, n)
    {
      DirectMapPersists(w.mem, w.own, w'.mem, w'.own, r, slot, n);
    }
  }
}
