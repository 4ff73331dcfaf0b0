/** Memory isolation over whole runs: processes are built one after another and store to their own memory in
    between; what a process reads changes only by its own stores. */
module Isolation {
  import opened Words
  import opened Ranges
  import opened PageTables
  import opened PageTree
  import opened Spaces
  import opened Worlds
  import opened Building

  /** Building an address space, or one byte stored by the program that runs in an address space, whether by
      its own instruction or by the kernel through the program's pointer. */
  datatype Step = Build(root: int) | Store(root: int, va: int, value: int)

  ghost predicate Steps(free0: seq<Range>, w: World, s: Step, w': World) {
    match s
    case Build(root) =>
      exists start, end, n, elf, entry :: ProgramSizesOk(elf) && ProcBuilt(free0, w, w', root, start, end, n, elf, entry)
    case Store(root, va, value) =>
      && IsRoot(w.own, root) && VirtToPhys(w.mem.tables, root, va).Some?
      && w' == w.(bytes := w.bytes[VirtToPhys(w.mem.tables, root, va).value := value])
  }

  ghost predicate IsRun(free0: seq<Range>, ws: seq<World>, ss: seq<Step>) {
    && |ws| == |ss| + 1 && Sound(free0, ws[0])
    && forall i :: 0 <= i < |ss| ==> Steps(free0, ws[i], ss[i], ws[i + 1])
  }

  /** A store is seen at its own address of its own address space and nowhere else. */
  lemma StoreIsLocal(free0: seq<Range>, w: World, w': World, root: int, va: int, value: int, r: int, vb: int)
    requires Sound(free0, w) && Steps(free0, w, Store(root, va, value), w') && IsRoot(w.own, r)
    ensures Sound(free0, w')
    ensures UserRead(w', r, vb) ==
              if r == root && PageAt(vb) == PageAt(va) && vb % PAGE_SIZE == va % PAGE_SIZE then Some(value)
              else UserRead(w, r, vb)
  {
    var t := w.mem.tables;
    AddressSpacesDisjoint(free0, w.mem, w.own, w.used, root, va, r, vb);
    if r == root && PageAt(vb) == PageAt(va) && vb % PAGE_SIZE == va % PAGE_SIZE {
      assert VirtToPhys(t, r, vb) == VirtToPhys(t, root, va);
    }
  }

  lemma StepKeepsOthers(free0: seq<Range>, w: World, s: Step, w': World, r: int, vb: int)
    requires Sound(free0, w) && Steps(free0, w, s, w') && IsRoot(w.own, r) && !(s.Store? && s.root == r)
    ensures Sound(free0, w') && IsRoot(w'.own, r) && UserRead(w', r, vb) == UserRead(w, r, vb)
  {
    match s
    case Build(root) =>
      var start, end, n, elf, entry :| ProgramSizesOk(elf) && ProcBuilt(free0, w, w', root, start, end, n, elf, entry);
      assert r != root by {
        assert FrameOwned(w.mem.tables, w.own, r);
      }
      OthersUndisturbed(free0, w, w', root, r, vb);
    case Store(root, va, value) =>
      StoreIsLocal(free0, w, w', root, va, value, r, vb);
  }

  /** Along every run, what the program of an address space reads, at every address, is what it read before, until
      it stores something itself. */
  lemma {:induction false} IsolatedForever(free0: seq<Range>, ws: seq<World>, ss: seq<Step>, r: int, vb: int)
    requires IsRun(free0, ws, ss) && IsRoot(ws[0].own, r)
    requires forall i :: 0 <= i < |ss| ==> !(ss[i].Store? && ss[i].root == r)
    ensures Sound(free0, ws[|ss|]) && IsRoot(ws[|ss|].own, r) && UserRead(ws[|ss|], r, vb) == UserRead(ws[0], r, vb)
  {
    if |ss| > 0 {
      var n := |ss| - 1;
      forall i | 0 <= i < n ensures Steps(free0, ws[..n + 1][i], ss[..n][i], ws[..n + 1][i + 1]) {
        assert Steps(free0, ws[i], ss[i], ws[i + 1]);
      }
      IsolatedForever(free0, ws[..n + 1], ss[..n], r, vb);
      assert Steps(free0, ws[n], ss[n], ws[n + 1]);
      StepKeepsOthers(free0, ws[n], ss[n], ws[n + 1], r, vb);
    }
  }
}
