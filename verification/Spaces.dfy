/** All address spaces together: every user page has a frame of its own, taken from the page allocator. */
module Spaces {
  import opened Words
  import opened Ranges
  import opened PageAlloc
  import opened PageTables
  import opened PageTree

  /** The one page that a data frame was mapped for. */
  datatype Use = Use(root: int, page: Page)

  type Uses = map<int, Use>

  ghost predicate LeafUsed(t: Tables, used: Uses, r: int, va: int) {
    && UserWay(t, r, va)
    && (Leaf(t, r, va).Some? && User(Leaf(t, r, va).value) ==>
          var f := FrameOf(Leaf(t, r, va).value);
          f in used && used[f] == Use(r, PageAt(va)))
  }

  /** The frame is no table, is not free any more, and was free to begin with. */
  ghost predicate FrameTaken(free0: seq<Range>, m: Mem, f: int) {
    && FrameOk(f) && !Covers(m.pool.ranges, f)
    && forall x :: f <= x < f + PAGE_SIZE ==> Covers(free0, x)
  }

  /** free0: the addresses that were free before the first address space was built. */
  ghost predicate SpacesOk(free0: seq<Range>, m: Mem, own: Ways, used: Uses) {
    && Tree(m, own)
    && (forall x :: Covers(m.pool.ranges, x) ==> Covers(free0, x))
    && (forall f :: f in used ==> f !in m.tables && FrameTaken(free0, m, f))
    && (forall r, va: int {:trigger LeafUsed(m.tables, used, r, va)} ::
          IsRoot(own, r) && Idx4(va) != HHDM_SLOT ==> LeafUsed(m.tables, used, r, va))
    && (forall r :: IsRoot(own, r) ==> !User(Rd(m.tables, r, HHDM_SLOT)))
  }

  /** The allocation of one frame. */
  lemma TakeFrame(free0: seq<Range>, m: Mem, own: Ways, used: Uses)
    requires SpacesOk(free0, m, own, used) && Take(m.pool, 1).1.Some?
    ensures var (pool, got) := Take(m.pool, 1);
            var m' := m.(pool := pool);
            && SpacesOk(free0, m', own, used) && got.value !in m.tables && got.value !in used
            && FrameTaken(free0, m', got.value)
  {
    FreshFrame(m, own);
    TakeCorrect(m.pool, 1);
    var (pool, got) := Take(m.pool, 1);
    var m' := m.(pool := pool);
    forall f, i | f in own && |own[f]| < 4 && 0 <= i < ENTRIES && Regular(own[f], i) ensures EntryOk(m'.tables, own, f, i) {
      assert EntryOk(m.tables, own, f, i);
    }
    assert forall f :: f in own ==> FrameOwned(m.tables, own, f);
    assert Tree(m', own);
    assert forall f :: f in used ==> FrameTaken(free0, m, f);
  }

  /** Nothing is free that was not free before. */
  ghost predicate Shrinks(p: Pool, p': Pool) { forall x :: Covers(p'.ranges, x) ==> Covers(p.ranges, x) }

  lemma TakeKeepsPool(p: Pool, pages: u64)
    requires PoolOk(p)
    ensures PoolOk(Take(p, pages).0) && Shrinks(p, Take(p, pages).0)
  {
    TakeCorrect(p, pages);
    TakeBounds(p, pages, PAGE_SIZE, TWO_52);
  }

  /** Blocks that others take from the allocator do not disturb the address spaces. */
  lemma TakenElsewhere(free0: seq<Range>, m: Mem, own: Ways, used: Uses, pages: u64)
    requires SpacesOk(free0, m, own, used)
    ensures SpacesOk(free0, m.(pool := Take(m.pool, pages).0), own, used)
  {
    TakeKeepsPool(m.pool, pages);
    SmallerPool(free0, m, Take(m.pool, pages).0, own, used);
  }

  lemma SmallerPool(free0: seq<Range>, m: Mem, pool: Pool, own: Ways, used: Uses)
    requires SpacesOk(free0, m, own, used) && PoolOk(pool) && Shrinks(m.pool, pool)
    ensures SpacesOk(free0, m.(pool := pool), own, used)
  {
    var m' := m.(pool := pool);
    forall f, i | f in own && |own[f]| < 4 && 0 <= i < ENTRIES && Regular(own[f], i) ensures EntryOk(m'.tables, own, f, i) {
      assert EntryOk(m.tables, own, f, i);
    }
    assert forall f :: f in own ==> FrameOwned(m.tables, own, f);
    assert Tree(m', own);
    forall r, va: int | IsRoot(own, r) && Idx4(va) != HHDM_SLOT ensures LeafUsed(m'.tables, used, r, va) {
      assert LeafUsed(m.tables, used, r, va);
    }
    assert forall f :: f in used ==> FrameTaken(free0, m, f);
  }

  /** Before the first page is mapped for user mode, the addresses that are free now can take the place of those that
      were free at the start. */
  lemma Rebased(free0: seq<Range>, m: Mem, own: Ways)
    requires SpacesOk(free0, m, own, map[])
    ensures SpacesOk(m.pool.ranges, m, own, map[])
  {
    forall r, va: int | IsRoot(own, r) && Idx4(va) != HHDM_SLOT ensures LeafUsed(m.tables, map[], r, va) {
      assert LeafUsed(m.tables, map[], r, va);
    }
  }

  /** m' is m after the page of va in root was mapped to the word w. */
  ghost predicate Mapped(m: Mem, own: Ways, m': Mem, own': Ways, root: int, va: int, w: int) {
    && Progressed(m, own, m', own')
    && forall r, vb: int {:trigger LeafAfter(own, m.tables, m'.tables, root, va, w, r, vb)} ::
         IsRoot(own, r) && Idx4(vb) != HHDM_SLOT ==> LeafAfter(own, m.tables, m'.tables, root, va, w, r, vb)
  }

  lemma LeafUsedAfter(free0: seq<Range>, m: Mem, own: Ways, used: Uses, m': Mem, own': Ways, root: int, va: int, w: int,
                      used': Uses, r: int, vb: int)
    requires LeafUsed(m.tables, used, r, vb) && LeafAfter(own, m.tables, m'.tables, root, va, w, r, vb)
    requires if User(w) then FrameOf(w) !in used && used' == used[FrameOf(w) := Use(root, PageAt(va))] else used' == used
    ensures LeafUsed(m'.tables, used', r, vb)
  {
  }

  lemma FramesAfter(free0: seq<Range>, m: Mem, own: Ways, used: Uses, m': Mem, own': Ways, f: int)
    requires Progressed(m, own, m', own') && f !in m.tables && FrameTaken(free0, m, f)
    ensures f !in m'.tables && FrameTaken(free0, m', f)
  {
  }

  lemma SlotAfter(m: Mem, own: Ways, m': Mem, own': Ways, r: int)
    requires Tree(m, own) && Progressed(m, own, m', own') && IsRoot(own, r)
    ensures Rd(m'.tables, r, HHDM_SLOT) == Rd(m.tables, r, HHDM_SLOT)
  {
    assert FrameOwned(m.tables, own, r);
  }

  /** Mapping keeps the invariant; a user mapping must bring a frame of its own. */
  lemma MappedKeeps(free0: seq<Range>, m: Mem, own: Ways, used: Uses, m': Mem, own': Ways, root: int, va: int, w: int,
                    used': Uses)
    requires SpacesOk(free0, m, own, used) && Mapped(m, own, m', own', root, va, w)
    requires if User(w) then FrameOf(w) !in m.tables && FrameTaken(free0, m, FrameOf(w)) && FrameOf(w) !in used
                             && used' == used[FrameOf(w) := Use(root, PageAt(va))]
             else used' == used
    ensures SpacesOk(free0, m', own', used')
  {
    forall r, vb: int | IsRoot(own', r) && Idx4(vb) != HHDM_SLOT ensures LeafUsed(m'.tables, used', r, vb) {
      assert IsRoot(own, r);
      assert LeafUsed(m.tables, used, r, vb);
      assert LeafAfter(own, m.tables, m'.tables, root, va, w, r, vb);
      LeafUsedAfter(free0, m, own, used, m', own', root, va, w, used', r, vb);
    }
    forall r | IsRoot(own', r) ensures !User(Rd(m'.tables, r, HHDM_SLOT)) {
      assert IsRoot(own, r);
      SlotAfter(m, own, m', own', r);
    }
    forall f | f in used' ensures f !in m'.tables && FrameTaken(free0, m', f) {
      FramesAfter(free0, m, own, used, m', own', f);
    }
  }

  /** Mapping a page to a kernel address, without user rights. */
  lemma MapKernelPage(free0: seq<Range>, m: Mem, own: Ways, used: Uses, root: int, va: int, phys: u64, write: bool)
    returns (own': Ways)
    requires SpacesOk(free0, m, own, used) && IsRoot(own, root) && Idx4(va) != HHDM_SLOT && phys < TWO_52
    requires Map4k(m, root, va, phys, false, write).Some?
    ensures var m' := Map4k(m, root, va, phys, false, write).value;
            SpacesOk(free0, m', own', used) && Mapped(m, own, m', own', root, va, LeafWord(phys, false, write))
  {
    own' := Map4kCorrect(m, own, root, va, phys, false, write);
    WordParts(PageDown(phys), false, write);
    MappedKeeps(free0, m, own, used, Map4k(m, root, va, phys, false, write).value, own', root, va,
                LeafWord(phys, false, write), used);
  }

  lemma UserWord(phys: u64, write: bool)
    requires FrameOk(phys)
    ensures var w := LeafWord(phys, true, write); FrameOf(w) == phys && User(w) && Present(w) && (Writable(w) <==> write)
  {
    assert PageDown(phys) == phys;
    WordParts(phys, true, write);
  }

  /** Mapping a page to a frame that was just allocated, with user rights. */
  lemma MapUserPage(free0: seq<Range>, m: Mem, own: Ways, used: Uses, root: int, va: int, phys: u64, write: bool)
    returns (own': Ways)
    requires SpacesOk(free0, m, own, used) && IsRoot(own, root) && Idx4(va) != HHDM_SLOT
    requires phys !in m.tables && phys !in used && FrameTaken(free0, m, phys)
    requires Map4k(m, root, va, phys, true, write).Some?
    ensures var m' := Map4k(m, root, va, phys, true, write).value;
            && SpacesOk(free0, m', own', used[phys := Use(root, PageAt(va))])
            && Mapped(m, own, m', own', root, va, LeafWord(phys, true, write))
            && FrameOf(LeafWord(phys, true, write)) == phys && User(LeafWord(phys, true, write))
  {
    own' := Map4kCorrect(m, own, root, va, phys, true, write);
    UserWord(phys, write);
    MappedKeeps(free0, m, own, used, Map4k(m, root, va, phys, true, write).value, own', root, va,
                LeafWord(phys, true, write), used[phys := Use(root, PageAt(va))]);
  }

  /** Allocate a frame and map the page of va to it for user mode; None is an allocation failure. */
  function MapNew(m: Mem, root: int, va: int, write: bool): Option<(Mem, u64)>
    requires GoodBlocks(m.pool.ranges)
  {
    TakeCorrect(m.pool, 1);
    var (pool, got) := Take(m.pool, 1);
    if got.None? then None
    else
      var r := Map4k(m.(pool := pool), root, va, got.value, true, write);
      if r.None? then None else Some((r.value, got.value))
  }

  lemma MapNewKeeps(free0: seq<Range>, m: Mem, own: Ways, used: Uses, root: int, va: int, write: bool)
    returns (own': Ways)
    requires SpacesOk(free0, m, own, used) && IsRoot(own, root) && Idx4(va) != HHDM_SLOT && MapNew(m, root, va, write).Some?
    ensures var (m', f) := MapNew(m, root, va, write).value;
            && SpacesOk(free0, m', own', used[f := Use(root, PageAt(va))]) && f !in used
            && Mapped(m, own, m', own', root, va, LeafWord(f, true, write))
            && FrameOf(LeafWord(f, true, write)) == f && User(LeafWord(f, true, write)) && Present(LeafWord(f, true, write))
            && (Writable(LeafWord(f, true, write)) <==> write)
  {
    TakeFrame(free0, m, own, used);
    TakeCorrect(m.pool, 1);
    var m1 := m.(pool := Take(m.pool, 1).0);
    var f := Take(m.pool, 1).1.value;
    FreshFrame(m, own);
    UserWord(f, write);
    own' := MapUserPage(free0, m1, own, used, root, va, f, write);
    FromTake(m, m1, own, MapNew(m, root, va, write).value.0, own', root, va, LeafWord(f, true, write));
  }

  lemma FromTake(m0: Mem, m1: Mem, own0: Ways, m2: Mem, own2: Ways, root: int, va: int, w: int)
    requires m1.tables == m0.tables && forall x :: Covers(m1.pool.ranges, x) ==> Covers(m0.pool.ranges, x)
    requires Mapped(m1, own0, m2, own2, root, va, w)
    ensures Mapped(m0, own0, m2, own2, root, va, w)
  {
    forall r, vb: int | IsRoot(own0, r) && Idx4(vb) != HHDM_SLOT
      ensures LeafAfter(own0, m0.tables, m2.tables, root, va, w, r, vb)
    {
      assert LeafAfter(own0, m1.tables, m2.tables, root, va, w, r, vb);
    }
  }

  // ---- what the invariant says about user addresses ----

  /** No two address spaces share a user-accessible byte, no two pages of one address space do, and what a
      user address reaches was free memory when the first address space was built: it is no page table, and
      nothing that was already in use then (kernel image, heap, kernel stacks). */
  lemma AddressSpacesDisjoint(free0: seq<Range>, m: Mem, own: Ways, used: Uses, r: int, va: int, r': int, vb: int)
    requires SpacesOk(free0, m, own, used) && IsRoot(own, r) && IsRoot(own, r')
    requires VirtToPhys(m.tables, r, va).Some?
    ensures var pa := VirtToPhys(m.tables, r, va).value;
            && Covers(free0, pa) && !Covers(m.pool.ranges, pa - pa % PAGE_SIZE)
            && (forall f :: f in m.tables && FrameOk(f) ==> !(f <= pa < f + PAGE_SIZE))
            && (VirtToPhys(m.tables, r', vb) == Some(pa) ==>
                  r == r' && PageAt(va) == PageAt(vb) && va % PAGE_SIZE == vb % PAGE_SIZE)
  {
    UserLeaf(free0, m, own, used, r, va);
    var w := Leaf(m.tables, r, va).value;
    assert FrameTaken(free0, m, FrameOf(w));
    SamePageFrame(FrameOf(w), va % PAGE_SIZE);
    if VirtToPhys(m.tables, r', vb) == VirtToPhys(m.tables, r, va) {
      UserLeaf(free0, m, own, used, r', vb);
      var w' := Leaf(m.tables, r', vb).value;
      SamePageFrame(FrameOf(w'), vb % PAGE_SIZE);
      assert used[FrameOf(w)] == used[FrameOf(w')];
    }
  }

  lemma SamePageFrame(f: int, off: int)
    requires f % PAGE_SIZE == 0 && 0 <= off < PAGE_SIZE
    ensures (f + off) - (f + off) % PAGE_SIZE == f && (f + off) % PAGE_SIZE == off
    ensures forall g :: g % PAGE_SIZE == 0 && g <= f + off < g + PAGE_SIZE ==> g == f
  {
  }

  /** A user address is never in the direct-map slot, and its leaf was mapped for it. */
  lemma UserLeaf(free0: seq<Range>, m: Mem, own: Ways, used: Uses, r: int, va: int)
    requires SpacesOk(free0, m, own, used) && IsRoot(own, r) && VirtToPhys(m.tables, r, va).Some?
    ensures Idx4(va) != HHDM_SLOT && Leaf(m.tables, r, va).Some?
    ensures var f := FrameOf(Leaf(m.tables, r, va).value);
            f in used && used[f] == Use(r, PageAt(va)) && VirtToPhys(m.tables, r, va) == Some(f + va % PAGE_SIZE)
  {
    assert FrameOwned(m.tables, own, r);
    RootFrame(r);
    assert !User(Rd(m.tables, r, HHDM_SLOT));
    assert LeafUsed(m.tables, used, r, va);
  }

  lemma RootFrame(r: int)
    requires FrameOk(r)
    ensures FrameOf(r) == r
  {
  }

  /** On every address the kernel's walk for user pointers finds something exactly where the last mapping of the
      page was a user mapping, and never in the direct map. */
  lemma UserWalk(free0: seq<Range>, m: Mem, own: Ways, used: Uses, r: int, va: int)
    requires SpacesOk(free0, m, own, used) && IsRoot(own, r)
    ensures VirtToPhys(m.tables, r, va) == HardwareUserWalk(m.tables, r, va) <==>
              CanonicalAddress(va) || VirtToPhys(m.tables, r, va).None?
    ensures Idx4(va) == HHDM_SLOT ==> VirtToPhys(m.tables, r, va).None?
    ensures Idx4(va) != HHDM_SLOT ==>
              && (VirtToPhys(m.tables, r, va).Some? <==> Leaf(m.tables, r, va).Some? && User(Leaf(m.tables, r, va).value))
              && (VirtToPhys(m.tables, r, va).Some? ==> VirtToPhys(m.tables, r, va) == Translate4k(m.tables, r, va))
  {
    assert FrameOwned(m.tables, own, r);
    RootFrame(r);
    if Idx4(va) == HHDM_SLOT {
      assert !User(Rd(m.tables, r, HHDM_SLOT));
    } else {
      assert LeafUsed(m.tables, used, r, va);
      WalksAgree(m, own, r, va);
    }
  }

  /** The kernel resolves a user pointer as the processor would resolve the address in user mode, exactly where the
      pointer is canonical or leads nowhere: on every other pointer the processor would fault, and the kernel
      goes on with the page of the address modulo 2^48. */
  lemma UserWalkIsHardwareWalk(free0: seq<Range>, m: Mem, own: Ways, used: Uses, r: int, va: u64)
    requires SpacesOk(free0, m, own, used) && IsRoot(own, r)
    ensures VirtToPhys(m.tables, r, va) == HardwareUserWalk(m.tables, r, va) <==>
              CanonicalAddress(va) || VirtToPhys(m.tables, r, va).None?
    ensures VirtToPhys(m.tables, r, va) == VirtToPhys(m.tables, r, va % TWO_48)
  {
    UserWalk(free0, m, own, used, r, va);
    SameWalk(m.tables, r, va);
  }

  /** The kernel's walk looks at the low 48 bits only. */
  lemma SameWalk(t: Tables, r: int, va: u64)
    ensures VirtToPhys(t, r, va) == VirtToPhys(t, r, va % TWO_48)
    ensures va < TWO_48 ==> VirtToPhys(t, r, va + TWO_48) == VirtToPhys(t, r, va)
  {
    SamePlace(va);
    if va < TWO_48 {
      SamePlace(va + TWO_48);
      assert (va + TWO_48) % TWO_48 == va;
    }
  }

  lemma SamePlace(va: u64)
    ensures PageAt(va) == PageAt(va % TWO_48) && va % PAGE_SIZE == va % TWO_48 % PAGE_SIZE
  {
    var q, low := va / TWO_48, va % TWO_48;
    assert va == low + q * 512 * 0x80_0000_0000;
    Beyond(low / 0x80_0000_0000, q);
    Beyond(low / 0x4000_0000, q * 512);
    Beyond(low / 0x20_0000, q * 512 * 512);
    Beyond(low / PAGE_SIZE, q * 512 * 512 * 512);
  }

  lemma Beyond(x: int, q: int)
    ensures (x + 512 * q) % 512 == x % 512
  {
  }
}
