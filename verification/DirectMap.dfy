/** The direct map in 2 MiB pages: what its tables contain, and that the processor's walk through them is
    the identity. Also the tables outside the forest of 4 KiB mappings. */
module DirectMap {
  import opened Words
  import opened Ranges
  import opened PageTables
  import opened PageTree
  import opened Spaces

  const GIB: int := 0x4000_0000
  const HUGE_2M: int := 0x20_0000

  /** Present, writable, PS. */
  const HUGE_BITS: int := 131

  /** How many 1 GiB chunks cover all addresses up to max; None is an overflow panic. */
  function Chunks(max: u64): Option<int> {
    var end := SaturatingAdd(max, 1);
    if end + (GIB - 1) >= TWO_64 then None
    else
      var maxEnd := (end + (GIB - 1)) / GIB * GIB;
      if maxEnd + (GIB - 1) >= TWO_64 then None else Some(Min((maxEnd + (GIB - 1)) / GIB, 512))
  }

  lemma ChunksCover(max: u64, phys: int)
    requires Chunks(max).Some? && 0 <= phys <= max && phys < 512 * GIB
    ensures 1 <= Chunks(max).value <= 512 && phys < Chunks(max).value * GIB
  {
  }

  /** Exactly as many as that takes, up to the 512 that one slot holds. */
  lemma ChunksAre(max: u64)
    ensures Chunks(max) == if SaturatingAdd(max, 1) > TWO_64 - GIB then None else Some(Min(max / GIB + 1, 512))
  {
  }

  // ---- the tables ----

  /** A page directory that maps one chunk in 2 MiB pages. */
  ghost predicate DirectPd(t: Tables, own: Ways, pd: int, chunk: int) {
    && pd in t && pd !in own
    && forall j :: 0 <= j < ENTRIES ==> Rd(t, pd, j) == chunk + j * HUGE_2M + HUGE_BITS
  }

  ghost predicate DirectEntry(t: Tables, own: Ways, pdpt: int, i: int) {
    var e := Rd(t, pdpt, i);
    Present(e) && !User(e) && FrameOf(e) != pdpt && DirectPd(t, own, FrameOf(e), i * GIB)
  }

  ghost predicate DirectPdpt(t: Tables, own: Ways, pdpt: int, n: int) {
    && pdpt in t && pdpt !in own
    && forall i :: 0 <= i < n ==> DirectEntry(t, own, pdpt, i)
  }

  /** Slot of the root leads to a direct map of n chunks. */
  ghost predicate DirectAt(t: Tables, own: Ways, root: int, slot: int, n: int) {
    && root in t && Present(Rd(t, root, slot)) && !User(Rd(t, root, slot))
    && DirectPdpt(t, own, FrameOf(Rd(t, root, slot)), n)
  }

  /** The processor's walk for the kernel. */
  function HardwareWalk(t: Tables, pml4: int, va: int): Option<int> {
    var root := FrameOf(pml4);
    if !CanonicalAddress(va) then None
    else if !Present(Word4(t, root, va)) || !Present(Word3(t, root, va)) || !Present(Word2(t, root, va)) then None
    else if Huge(Word2(t, root, va)) then Some(Word2(t, root, va) / 0x20_0000 % 0x8000_0000 * 0x20_0000 + va % 0x20_0000)
    else if !Present(Word1(t, root, va)) then None
    else Some(FrameOf(Word1(t, root, va)) + va % PAGE_SIZE)
  }

  lemma HugeWord(chunk: int, i: int, j: int, off: int)
    requires 0 <= i < 512 && 0 <= j < 512 && chunk == i * GIB && 0 <= off < HUGE_2M
    ensures var w := chunk + j * HUGE_2M + HUGE_BITS;
            && Present(w) && Huge(w) && !User(w)
            && w / 0x20_0000 % 0x8000_0000 * 0x20_0000 + off == chunk + j * HUGE_2M + off
  {
    var w := chunk + j * HUGE_2M + HUGE_BITS;
    assert w / 0x20_0000 == i * 512 + j;
  }

  /** The base of a direct map, and the PML4 slot it lives in. */
  predicate DirectBase(base: int, slot: int) {
    (base == 0 && slot == 0) || (base == HHDM_BASE && slot == HHDM_SLOT)
  }

  lemma TopIndex(base: int, slot: int, phys: int)
    requires DirectBase(base, slot) && 0 <= phys < 512 * GIB
    ensures base + phys < TWO_64 && Idx4(base + phys) == slot
  {
  }

  lemma LowIndices(base: int, slot: int, phys: int)
    requires DirectBase(base, slot) && 0 <= phys < 512 * GIB
    ensures base + phys < TWO_64 && Idx3(base + phys) == phys / GIB
    ensures Idx2(base + phys) == phys / HUGE_2M % 512 && (base + phys) % HUGE_2M == phys % HUGE_2M
  {
    if base == HHDM_BASE {
      assert HHDM_BASE == 0x3_fffe_0000 * GIB && 0x3_fffe_0000 % 512 == 0;
      assert (HHDM_BASE + phys) / GIB == 0x3_fffe_0000 + phys / GIB;
      assert HHDM_BASE == 0x7ff_fc00_0000 * HUGE_2M && 0x7ff_fc00_0000 % 512 == 0;
      assert (HHDM_BASE + phys) / HUGE_2M == 0x7ff_fc00_0000 + phys / HUGE_2M;
    }
  }

  lemma ChunkParts(phys: int)
    requires 0 <= phys
    ensures phys == phys / GIB * GIB + phys / HUGE_2M % 512 * HUGE_2M + phys % HUGE_2M
  {
    assert phys / HUGE_2M / 512 == phys / GIB;
  }

  /** Through a direct map of n chunks, every physical address below n GiB is found at the slot's base plus
      itself: the identity map for slot 0, the higher-half map for slot 256. */
  lemma DirectMapIsIdentity(t: Tables, own: Ways, root: int, base: int, slot: int, n: int, phys: int)
    requires DirectBase(base, slot)
    requires FrameOk(root) && DirectAt(t, own, root, slot, n) && n <= 512 && 0 <= phys < n * GIB
    ensures base + phys < TWO_64 && HardwareWalk(t, root, base + phys) == Some(phys)
    ensures HardwareUserWalk(t, root, base + phys) == None
  {
    RootFrame(root);
    TopIndex(base, slot, phys);
    LowIndices(base, slot, phys);
    ChunkParts(phys);
    var i, j := phys / GIB, phys / HUGE_2M % 512;
    var pdpt := FrameOf(Rd(t, root, slot));
    assert DirectEntry(t, own, pdpt, i);
    HugeWord(i * GIB, i, j, phys % HUGE_2M);
  }

  /** Two address spaces with direct maps of the same extent agree on all of it. */
  lemma DirectMapsAgree(t: Tables, own: Ways, root: int, root': int, n: int, phys: int)
    requires FrameOk(root) && FrameOk(root') && n <= 512 && 0 <= phys < n * GIB
    requires DirectAt(t, own, root, HHDM_SLOT, n) && DirectAt(t, own, root', HHDM_SLOT, n)
    ensures HardwareWalk(t, root, HHDM_BASE + phys) == HardwareWalk(t, root', HHDM_BASE + phys) == Some(phys)
  {
    DirectMapIsIdentity(t, own, root, HHDM_BASE, HHDM_SLOT, n, phys);
    DirectMapIsIdentity(t, own, root', HHDM_BASE, HHDM_SLOT, n, phys);
  }

  /** Mapping 4 KiB pages elsewhere leaves direct maps alone. */
  lemma DirectMapPersists(m: Mem, own: Ways, m': Mem, own': Ways, root: int, slot: int, n: int)
    requires Progressed(m, own, m', own') && DirectAt(m.tables, own, root, slot, n)
    requires root !in own || (own[root] == [root] && slot == HHDM_SLOT)
    ensures DirectAt(m'.tables, own', root, slot, n)
  {
    var t, t' := m.tables, m'.tables;
    assert Rd(t', root, slot) == Rd(t, root, slot);
    var pdpt := FrameOf(Rd(t, root, slot));
    forall i | 0 <= i < n ensures DirectEntry(t', own', pdpt, i) {
      assert DirectEntry(t, own, pdpt, i);
      assert Rd(t', pdpt, i) == Rd(t, pdpt, i);
    }
  }

  // ---- tables outside the forest ----

  /** Entries that 4 KiB walks read are the same. */
  ghost predicate SameForest(own: Ways, t: Tables, t': Tables) {
    forall g, j :: g in own && Regular(own[g], j) ==> Rd(t', g, j) == Rd(t, g, j)
  }

  lemma SameForestLeaf(m: Mem, own: Ways, t': Tables, r: int, va: int)
    requires Tree(m, own) && IsRoot(own, r) && Idx4(va) != HHDM_SLOT && SameForest(own, m.tables, t')
    ensures Leaf(t', r, va) == Leaf(m.tables, r, va)
    ensures UserWay(m.tables, r, va) ==> UserWay(t', r, va)
  {
    WalkOwned(m, own, r, va);
  }

  /** Writing tables outside the forest, or direct-map slots without the user bit, keeps the invariant. */
  lemma OutsideKeeps(free0: seq<Range>, m: Mem, own: Ways, used: Uses, t': Tables)
    requires SpacesOk(free0, m, own, used) && t'.Keys == m.tables.Keys && SameForest(own, m.tables, t')
    requires forall g :: g in t' ==> |t'[g]| == ENTRIES
    requires forall r :: IsRoot(own, r) ==> !User(Rd(t', r, HHDM_SLOT))
    ensures SpacesOk(free0, m.(tables := t'), own, used)
  {
    var m' := m.(tables := t');
    forall f, i | f in own && |own[f]| < 4 && 0 <= i < ENTRIES && Regular(own[f], i) ensures EntryOk(t', own, f, i) {
      assert EntryOk(m.tables, own, f, i);
    }
    assert forall f :: f in own ==> FrameOwned(m.tables, own, f);
    assert Tree(m', own);
    forall r, va: int | IsRoot(own, r) && Idx4(va) != HHDM_SLOT ensures LeafUsed(t', used, r, va) {
      assert LeafUsed(m.tables, used, r, va);
      SameForestLeaf(m, own, t', r, va);
    }
    assert forall f :: f in used ==> FrameTaken(free0, m, f);
  }

  /** A fresh zeroed table that belongs to no address space yet. */
  lemma NewTableKeeps(free0: seq<Range>, m: Mem, own: Ways, used: Uses)
    requires SpacesOk(free0, m, own, used) && NewTable(m).Some?
    ensures var (m', c) := NewTable(m).value;
            && SpacesOk(free0, m', own, used) && FrameOk(c) && c !in m.tables && c !in own && c !in used
            && m'.tables == m.tables[c := ZeroTable()]
            && (forall g, j :: Rd(m'.tables, g, j) == Rd(m.tables, g, j))
  {
    TakeFrame(free0, m, own, used);
    var (m', c) := NewTable(m).value;
    var m1 := m.(pool := m'.pool);
    assert m'.tables == m1.tables[c := ZeroTable()];
    assert forall g, j :: Rd(m'.tables, g, j) == Rd(m.tables, g, j);
    assert forall g :: g in own ==> FrameOwned(m.tables, own, g);
    AddTable(free0, m1, own, used, c);
  }

  lemma AddTable(free0: seq<Range>, m: Mem, own: Ways, used: Uses, c: int)
    requires SpacesOk(free0, m, own, used) && c !in m.tables && c !in used && FrameTaken(free0, m, c)
    ensures SpacesOk(free0, m.(tables := m.tables[c := ZeroTable()]), own, used)
  {
    var t' := m.tables[c := ZeroTable()];
    var m' := m.(tables := t');
    assert forall g, j :: Rd(t', g, j) == Rd(m.tables, g, j);
    forall f, i | f in own && |own[f]| < 4 && 0 <= i < ENTRIES && Regular(own[f], i) ensures EntryOk(t', own, f, i) {
      assert EntryOk(m.tables, own, f, i);
    }
    assert forall f :: f in own ==> FrameOwned(m.tables, own, f);
    assert Tree(m', own);
    forall r, va: int | IsRoot(own, r) && Idx4(va) != HHDM_SLOT ensures LeafUsed(t', used, r, va) {
      assert LeafUsed(m.tables, used, r, va);
      SameForestLeaf(m, own, t', r, va);
    }
    assert forall f :: f in used ==> FrameTaken(free0, m, f);
  }

  /** An empty table outside the forest becomes the root of a new, empty address space. */
  lemma AdoptRoot(free0: seq<Range>, m: Mem, own: Ways, used: Uses, c: int)
    requires SpacesOk(free0, m, own, used) && FrameOk(c) && c in m.tables && c !in own
    requires forall j :: Rd(m.tables, c, j) == 0
    ensures SpacesOk(free0, m, own[c := [c]], used) && IsRoot(own[c := [c]], c)
    ensures forall va: int :: Leaf(m.tables, c, va).None?
  {
    var own' := own[c := [c]];
    forall f, i | f in own' && |own'[f]| < 4 && 0 <= i < ENTRIES && Regular(own'[f], i) ensures EntryOk(m.tables, own', f, i) {
      if f != c {
        assert own'[f] == own[f];
        assert EntryOk(m.tables, own, f, i);
      }
    }
    assert forall f :: f in own ==> FrameOwned(m.tables, own, f);
    assert FrameOwned(m.tables, own', c);
    assert Tree(m, own');
    forall r, va: int | IsRoot(own', r) && Idx4(va) != HHDM_SLOT ensures LeafUsed(m.tables, used, r, va) {
      if r != c {
        assert IsRoot(own, r);
        assert LeafUsed(m.tables, used, r, va);
      }
    }
  }

  // ---- filling a direct map ----

  /** The words of a page directory that maps one chunk. */
  function DirectRow(chunk: int): (row: seq<int>)
    ensures |row| == ENTRIES && forall j :: 0 <= j < ENTRIES ==> row[j] == chunk + j * HUGE_2M + HUGE_BITS
  {
    seq(ENTRIES, j => chunk + j * HUGE_2M + HUGE_BITS)
  }

  /** Tables were added; of those that were there, only entries of one may read differently. */
  ghost predicate AddedBeside(t: Tables, t': Tables, changed: int) {
    t.Keys <= t'.Keys && forall g, j {:trigger Rd(t', g, j)} :: g in t && g != changed ==> Rd(t', g, j) == Rd(t, g, j)
  }

  lemma LinkParts(c: int)
    requires FrameOk(c)
    ensures Present(Link(c, false)) && !User(Link(c, false)) && FrameOf(Link(c, false)) == c
  {
    WordParts(c, false, true);
  }

  /** One more chunk: a fresh page directory, linked and filled. */
  lemma ChunkStep(free0: seq<Range>, t0: Tables, m: Mem, own: Ways, used: Uses, pdpt: int, i: int)
    requires SpacesOk(free0, m, own, used) && NewTable(m).Some? && 0 <= i < ENTRIES
    requires DirectPdpt(m.tables, own, pdpt, i) && AddedBeside(t0, m.tables, pdpt)
    ensures var (m1, pd) := NewTable(m).value;
            var t' := Wr(m1.tables, pdpt, i, Link(pd, false))[pd := DirectRow(i * GIB)];
            SpacesOk(free0, m1.(tables := t'), own, used) && DirectPdpt(t', own, pdpt, i + 1) && AddedBeside(t0, t', pdpt)
  {
    NewTableKeeps(free0, m, own, used);
    var (m1, pd) := NewTable(m).value;
    var t1 := Wr(m1.tables, pdpt, i, Link(pd, false));
    var t' := t1[pd := DirectRow(i * GIB)];
    LinkParts(pd);
    ChunkReads(m.tables, m1.tables, t', pdpt, i, pd, own);
    forall r | IsRoot(own, r) ensures !User(Rd(t', r, HHDM_SLOT)) {
      assert FrameOwned(m.tables, own, r);
      assert Rd(t', r, HHDM_SLOT) == Rd(m.tables, r, HHDM_SLOT);
    }
    forall g, j | g in own && Regular(own[g], j) ensures Rd(t', g, j) == Rd(m1.tables, g, j) {
      assert FrameOwned(m.tables, own, g);
    }
    OutsideKeeps(free0, m1, own, used, t');
    forall k | 0 <= k < i + 1 ensures DirectEntry(t', own, pdpt, k) {
      if k < i {
        assert DirectEntry(m.tables, own, pdpt, k);
      }
    }
  }

  lemma ChunkReads(t: Tables, t1: Tables, t': Tables, pdpt: int, i: int, pd: int, own: Ways)
    requires pdpt in t && |t[pdpt]| == ENTRIES && 0 <= i < ENTRIES && pd !in t && t1 == t[pd := ZeroTable()]
    requires t' == Wr(t1, pdpt, i, Link(pd, false))[pd := DirectRow(i * GIB)]
    ensures t'.Keys == t1.Keys && Rd(t', pdpt, i) == Link(pd, false) && |t'[pdpt]| == ENTRIES
    ensures forall g :: g in t && g != pdpt ==> t'[g] == t[g]
    ensures forall j :: 0 <= j < ENTRIES ==> Rd(t', pd, j) == i * GIB + j * HUGE_2M + HUGE_BITS
    ensures forall g, j {:trigger Rd(t', g, j)} :: g in t && (g != pdpt || j != i) ==> Rd(t', g, j) == Rd(t, g, j)
  {
  }

  /** A fresh table, linked from the direct-map slot of a root. */
  lemma LinkSlot(free0: seq<Range>, m: Mem, own: Ways, used: Uses, root: int)
    requires SpacesOk(free0, m, own, used) && NewTable(m).Some? && IsRoot(own, root)
    ensures var (m1, pdpt) := NewTable(m).value;
            var t' := Wr(m1.tables, root, HHDM_SLOT, Link(pdpt, false));
            && SpacesOk(free0, m1.(tables := t'), own, used) && pdpt != root && pdpt !in own && pdpt !in m.tables
            && DirectPdpt(t', own, pdpt, 0)
            && Rd(t', root, HHDM_SLOT) == Link(pdpt, false) && FrameOk(pdpt)
            && m.tables.Keys <= t'.Keys
            && forall g, j {:trigger Rd(t', g, j)} ::
                 g in m.tables && (g != root || j != HHDM_SLOT) ==> Rd(t', g, j) == Rd(m.tables, g, j)
  {
    NewTableKeeps(free0, m, own, used);
    var (m1, pdpt) := NewTable(m).value;
    var t' := Wr(m1.tables, root, HHDM_SLOT, Link(pdpt, false));
    LinkParts(pdpt);
    assert FrameOwned(m.tables, own, root);
    forall r | IsRoot(own, r) ensures !User(Rd(t', r, HHDM_SLOT)) {
      assert !User(Rd(m.tables, r, HHDM_SLOT));
    }
    OutsideKeeps(free0, m1, own, used, t');
  }

  /** The kernel's own root: two fresh tables, the second linked from both slots of the first. */
  lemma LinkBothSlots(free0: seq<Range>, m: Mem, own: Ways, used: Uses)
    requires SpacesOk(free0, m, own, used) && NewTable(m).Some? && NewTable(NewTable(m).value.0).Some?
    ensures var (m1, root) := NewTable(m).value;
            var (m2, pdpt) := NewTable(m1).value;
            var t' := Wr(Wr(m2.tables, root, 0, Link(pdpt, false)), root, HHDM_SLOT, Link(pdpt, false));
            && SpacesOk(free0, m2.(tables := t'), own, used) && FrameOk(root) && FrameOk(pdpt)
            && root !in own && root !in m.tables && pdpt != root && pdpt !in own && pdpt !in m.tables
            && DirectPdpt(t', own, pdpt, 0)
            && root in t' && Rd(t', root, 0) == Rd(t', root, HHDM_SLOT) == Link(pdpt, false)
            && AddedBeside(m.tables, t', root)
  {
    NewTableKeeps(free0, m, own, used);
    var (m1, root) := NewTable(m).value;
    NewTableKeeps(free0, m1, own, used);
    var (m2, pdpt) := NewTable(m1).value;
    var t' := Wr(Wr(m2.tables, root, 0, Link(pdpt, false)), root, HHDM_SLOT, Link(pdpt, false));
    LinkParts(pdpt);
    forall r | IsRoot(own, r) ensures !User(Rd(t', r, HHDM_SLOT)) {
      assert !User(Rd(m2.tables, r, HHDM_SLOT));
    }
    OutsideKeeps(free0, m2, own, used, t');
  }

  /** Both maps of the kernel's root, once the table of chunks is filled. */
  lemma BothMaps(t: Tables, t1: Tables, t': Tables, own: Ways, root: int, pdpt: int, n: int)
    requires FrameOk(pdpt) && root in t1 && root != pdpt && root !in t && pdpt !in t
    requires Rd(t1, root, 0) == Link(pdpt, false) && Rd(t1, root, HHDM_SLOT) == Link(pdpt, false)
    requires AddedBeside(t, t1, root) && AddedBeside(t1, t', pdpt) && DirectPdpt(t', own, pdpt, n)
    ensures DirectAt(t', own, root, 0, n) && DirectAt(t', own, root, HHDM_SLOT, n) && AddedBeside(t, t', root)
  {
    LinkParts(pdpt);
    assert Rd(t', root, 0) == Rd(t1, root, 0) && Rd(t', root, HHDM_SLOT) == Rd(t1, root, HHDM_SLOT);
  }
}
