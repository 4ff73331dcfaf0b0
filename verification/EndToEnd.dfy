/** Where the cores meet: what the trap handlers take for granted about user memory and kernel stacks, from what the
    page tables, the allocator and the boot loader guarantee. */
module EndToEnd {
  import opened Words
  import opened Ranges
  import opened PageTables
  import opened PageTree
  import opened Spaces
  import opened Worlds
  import Machine
  import Invariant
  import Heap
  import Images
  import Isolation
  import UserCopy

  // ---- the flat address spaces of the trap handlers ----

  const PAGES: int := 0x10_0000_0000_0000

  /** The pages that user mode reaches, as the trap handlers see an address space. */
  ghost function FlatSpace(t: Tables, root: int): map<int, int> {
    map n: int | 0 <= n < PAGES && VirtToPhys(t, root, n * PAGE_SIZE).Some? :: VirtToPhys(t, root, n * PAGE_SIZE).value
  }

  lemma SamePage(va: u64)
    ensures var base := va / PAGE_SIZE * PAGE_SIZE;
            PageAt(va) == PageAt(base) && base % PAGE_SIZE == 0 && 0 <= va / PAGE_SIZE < PAGES
  {
    Images.OnePage(va / PAGE_SIZE * PAGE_SIZE, va);
  }

  /** On every 64-bit address the flat map and the page walk say the same. */
  lemma FlatSpaceExact(t: Tables, root: int, va: u64)
    ensures Machine.Translate(FlatSpace(t, root), va) == VirtToPhys(t, root, va)
  {
    SamePage(va);
  }

  /** A send from a buffer 2^48 above one that the program can use sends that one's bytes: nothing between the system
      call and the page walk looks at the upper bits of a pointer. */
  lemma {:induction false} SendFromBeyond(mem: map<int, int>, t: Tables, root: int, ptr: u64, n: nat)
    requires ptr + n <= LOWER_HALF
    ensures Machine.CopyIn(mem, FlatSpace(t, root), ptr + TWO_48, n) == Machine.CopyIn(mem, FlatSpace(t, root), ptr, n)
  {
    hide VirtToPhys, FlatSpace, Machine.Translate;
    if n > 0 {
      var va := ptr + n - 1;
      SendFromBeyond(mem, t, root, ptr, n - 1);
      FlatSpaceExact(t, root, va);
      FlatSpaceExact(t, root, va + TWO_48);
      SameWalk(t, root, va);
    }
  }

  /** Copying into user memory, as the trap handlers do it, is a run of single stores by that address space, so
      everything that memory isolation says about stores holds of it. */
  lemma {:induction false} CopyIsStores(free0: seq<Range>, w: World, root: int, ptr: u64, bytes: seq<int>, i: nat)
    returns (ws: seq<World>, ss: seq<Isolation.Step>)
    requires Sound(free0, w) && IsRoot(w.own, root)
    ensures Isolation.IsRun(free0, ws, ss) && ws[0] == w
    ensures ws[|ss|] == w.(bytes := Machine.CopyOut(w.bytes, FlatSpace(w.mem.tables, root), ptr, bytes, i).0)
    ensures forall k :: 0 <= k < |ss| ==> ss[k].Store? && ss[k].root == root
    decreases |bytes| - i
  {
    var t := w.mem.tables;
    ws, ss := [w], [];
    if i < |bytes| {
      var va := (ptr + i) % TWO_64;
      FlatSpaceExact(t, root, va);
      var pa := VirtToPhys(t, root, va);
      if pa.Some? {
        var w1 := w.(bytes := w.bytes[pa.value := bytes[i]]);
        var ws1, ss1 := CopyIsStores(free0, w1, root, ptr, bytes, i + 1);
        RunFrom(free0, w, Isolation.Store(root, va, bytes[i]), ws1, ss1);
        ws, ss := [w] + ws1, [Isolation.Store(root, va, bytes[i])] + ss1;
      }
    }
  }

  lemma RunFrom(free0: seq<Range>, w: World, s: Isolation.Step, ws: seq<World>, ss: seq<Isolation.Step>)
    requires Sound(free0, w) && Isolation.IsRun(free0, ws, ss) && Isolation.Steps(free0, w, s, ws[0])
    ensures Isolation.IsRun(free0, [w] + ws, [s] + ss)
  {
    forall k | 0 <= k < |ss| + 1 ensures Isolation.Steps(free0, ([w] + ws)[k], ([s] + ss)[k], ([w] + ws)[k + 1]) {
      if k > 0 {
        assert Isolation.Steps(free0, ws[k - 1], ss[k - 1], ws[k]);
      }
    }
  }

  /** A message copied into the buffer of one process is invisible to every other. */
  lemma CopyInvisible(free0: seq<Range>, w: World, root: int, ptr: u64, bytes: seq<int>, r: int, va: int)
    requires Sound(free0, w) && IsRoot(w.own, root) && IsRoot(w.own, r) && r != root
    ensures var w' := w.(bytes := Machine.CopyOut(w.bytes, FlatSpace(w.mem.tables, root), ptr, bytes, 0).0);
            UserRead(w', r, va) == UserRead(w, r, va)
  {
    var ws, ss := CopyIsStores(free0, w, root, ptr, bytes, 0);
    Isolation.IsolatedForever(free0, ws, ss, r, va);
  }

  lemma ShiftKeepsOffset(k: int, r: int)
    ensures (PAGE_SIZE * k + r) % PAGE_SIZE == r % PAGE_SIZE
  {
  }

  lemma WrapKeepsOffset(x: nat)
    ensures x % TWO_64 % PAGE_SIZE == x % PAGE_SIZE
  {
    ShiftKeepsOffset(0x10_0000_0000_0000 * (x / TWO_64), x % TWO_64);
  }

  /** Two bytes of a buffer of at most a page are at different places of their pages. */
  lemma OffsetsDiffer(ptr: u64, i: nat, j: nat)
    requires i < j < i + PAGE_SIZE
    ensures (ptr + i) % TWO_64 % PAGE_SIZE != (ptr + j) % TWO_64 % PAGE_SIZE
  {
    WrapKeepsOffset(ptr + i);
    WrapKeepsOffset(ptr + j);
  }

  lemma OffsetKept(t: Tables, root: int, va: int)
    requires VirtToPhys(t, root, va).Some?
    ensures VirtToPhys(t, root, va).value % PAGE_SIZE == va % PAGE_SIZE
  {
    var leaf := Word1(t, FrameOf(root), va);
    SamePageFrame(FrameOf(leaf), va % PAGE_SIZE);
  }

  /** In a process's address space no two bytes of a buffer of at most a page share a place, so messages arrive
      unchanged. */
  lemma BuffersOneToOne(t: Tables, root: int, ptr: u64, n: nat)
    requires n <= PAGE_SIZE
    ensures UserCopy.OneToOne(FlatSpace(t, root), ptr, n)
  {
    hide VirtToPhys, FlatSpace, Machine.Translate;
    var space := FlatSpace(t, root);
    forall i, j | 0 <= i < j < n && UserCopy.Spot(space, ptr, i).Some? && UserCopy.Spot(space, ptr, j).Some?
      ensures UserCopy.Spot(space, ptr, i) != UserCopy.Spot(space, ptr, j)
    {
      var a, b := (ptr + i) % TWO_64, (ptr + j) % TWO_64;
      FlatSpaceExact(t, root, a);
      FlatSpaceExact(t, root, b);
      OffsetsDiffer(ptr, i, j);
      OffsetKept(t, root, a);
      OffsetKept(t, root, b);
    }
  }

  // ---- kernel stacks ----

  /** Kernel stacks that come out of the heap one after the other are as far apart as the trap handlers need. */
  lemma HeapStacksApart(h: Heap.Arena, ls: seq<Heap.Layout>, i: nat, j: nat, p: Machine.Proc, q: Machine.Proc)
    requires h.next <= h.end < TWO_64 - 1
    requires i < j < |ls| && ls[i].size == ls[j].size == Machine.KSTACK_SIZE
    requires Heap.BumpAll(h, ls).1[i].Block? && Heap.BumpAll(h, ls).1[j].Block?
    requires p.kstackTop == Heap.BumpAll(h, ls).1[i].base + Machine.KSTACK_SIZE
    requires q.kstackTop == Heap.BumpAll(h, ls).1[j].base + Machine.KSTACK_SIZE
    ensures Invariant.StacksApart(p, q)
  {
    Heap.BlocksDisjoint(h, ls);
  }
}
