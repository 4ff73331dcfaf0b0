/** The trap handlers and physical memory as one machine: programs store through the page tables, traps copy between
    their buffers, and spawning builds address spaces out of the free pages. What a program reads changes only by its own
    doing, or by a message into the buffer that it waits with. */
module Together {
  import opened Words
  import opened Rings
  import opened Ranges
  import opened PageTables
  import opened PageTree
  import opened Spaces
  import opened Worlds
  import opened Building
  import opened Machine
  import opened Invariant
  import opened Traps
  import opened TrapMemory
  import opened EndToEnd
  import Elf
  import Calls
  import Delivery
  import Isolation
  import Runs
  import UserCopy

  /** The two views of one moment: the handlers' flat spaces are what user mode reaches through the tables. */
  ghost predicate Coupled(free0: seq<Range>, s: State, w: World) {
    && Inv(s) && Sound(free0, w) && s.mem == w.bytes && SpacesMatch(s, w)
  }

  ghost predicate SpacesMatch(s: State, w: World) {
    forall r :: r in s.spaces ==> IsRoot(w.own, r) && s.spaces[r] == FlatSpace(w.mem.tables, r)
  }

  /** Between two traps, the program of root stores what it likes where it can. */
  ghost predicate Acts(free0: seq<Range>, w: World, root: int, w': World) {
    exists ws, ss :: Isolation.IsRun(free0, ws, ss) && ws[0] == w && ws[|ss|] == w' && OnlyStores(ss, root)
  }

  ghost predicate OnlyStores(ss: seq<Isolation.Step>, root: int) {
    forall k :: 0 <= k < |ss| ==> ss[k].Store? && ss[k].root == root
  }

  /** The process that a spawn gets was built in this memory, and starts at its program's entry point. */
  ghost predicate BuiltIn(free0: seq<Range>, w: World, b: Build, w': World) {
    && b.space == FlatSpace(w'.mem.tables, b.cr3) && w'.bytes == w.bytes + b.image
    && exists start, end, n, elf, entry ::
         ProgramSizesOk(elf) && ProcBuilt(free0, w, w', b.cr3, start, end, n, elf, entry) && b.others == EntryRegisters(entry)
  }

  /** One turn of the machine: the current program runs, traps, and the kernel handles the trap. w1 is memory at the trap,
      w2 after the building of a process if it spawns. */
  ghost predicate Turn(free0: seq<Range>, s: State, w: World, ev: Event, w1: World, w2: World, s': State, w': World)
    requires Wf(s)
  {
    && Acts(free0, w, s.cr3, w1) && ev.mem == w1.bytes && EventOk(s, ev)
    && (if Spawns(ev) then BuiltIn(free0, w1, ev.build, w2) else w2 == w1)
    && s' == Trap(s, ev) && w' == w2.(bytes := s'.mem)
  }

  // ---- what the program does between traps ----

  lemma {:induction false} StoresOnly(free0: seq<Range>, ws: seq<World>, ss: seq<Isolation.Step>, root: int)
    requires Isolation.IsRun(free0, ws, ss) && OnlyStores(ss, root)
    ensures Sound(free0, ws[|ss|]) && ws[|ss|] == ws[0].(bytes := ws[|ss|].bytes)
  {
    hide SpacesOk;
    if |ss| > 0 {
      var n := |ss| - 1;
      forall i | 0 <= i < n ensures Isolation.Steps(free0, ws[..n + 1][i], ss[..n][i], ws[..n + 1][i + 1]) {
        assert Isolation.Steps(free0, ws[i], ss[i], ws[i + 1]);
      }
      StoresOnly(free0, ws[..n + 1], ss[..n], root);
      assert Isolation.Steps(free0, ws[n], ss[n], ws[n + 1]);
    }
  }

  lemma ActsKeep(free0: seq<Range>, w: World, root: int, w': World)
    requires Acts(free0, w, root, w')
    ensures Sound(free0, w') && w' == w.(bytes := w'.bytes)
    ensures forall r, va :: IsRoot(w.own, r) && r != root ==> UserRead(w', r, va) == UserRead(w, r, va)
  {
    hide SpacesOk, UserRead;
    var ws, ss :| Isolation.IsRun(free0, ws, ss) && ws[0] == w && ws[|ss|] == w' && OnlyStores(ss, root);
    StoresOnly(free0, ws, ss, root);
    forall r, va | IsRoot(w.own, r) && r != root ensures UserRead(w', r, va) == UserRead(w, r, va) {
      Isolation.IsolatedForever(free0, ws, ss, r, va);
    }
  }

  // ---- what building does ----

  /** A built address space is new, and leaves the flat spaces and all readings of the others as they were. */
  lemma BuildKeeps(free0: seq<Range>, w: World, b: Build, w': World, r: int)
    requires Sound(free0, w) && BuiltIn(free0, w, b, w') && IsRoot(w.own, r)
    ensures Sound(free0, w') && IsRoot(w'.own, r) && IsRoot(w'.own, b.cr3) && r != b.cr3
    ensures FlatSpace(w'.mem.tables, r) == FlatSpace(w.mem.tables, r)
    ensures forall va :: UserRead(w', r, va) == UserRead(w, r, va)
  {
    hide SpacesOk, ProgramLoaded, VirtToPhys, DirectMapsHeld, UserRead;
    var start, end, n, elf, entry :| ProgramSizesOk(elf) && ProcBuilt(free0, w, w', b.cr3, start, end, n, elf, entry);
    assert r != b.cr3 by {
      RootIsTable(free0, w, r);
    }
    forall va: int ensures VirtToPhys(w'.mem.tables, r, va) == VirtToPhys(w.mem.tables, r, va) {
      SameUserWalk(free0, w, w', b.cr3, r, va);
    }
    forall va ensures UserRead(w', r, va) == UserRead(w, r, va) {
      OthersUndisturbed(free0, w, w', b.cr3, r, va);
    }
  }

  lemma RootIsTable(free0: seq<Range>, w: World, r: int)
    requires Sound(free0, w) && IsRoot(w.own, r)
    ensures r in w.mem.tables
  {
    assert FrameOwned(w.mem.tables, w.own, r);
  }

  lemma SameUserWalk(free0: seq<Range>, w: World, w': World, root: int, r: int, va: int)
    requires Sound(free0, w) && Sound(free0, w') && Kept(w, w', root) && IsRoot(w.own, r) && r != root
    ensures VirtToPhys(w'.mem.tables, r, va) == VirtToPhys(w.mem.tables, r, va)
  {
    hide SpacesOk, DirectMapsHeld, VirtToPhys, UsesGrow, Word4, Word3, Word2;
    UserWalk(free0, w.mem, w.own, w.used, r, va);
    UserWalk(free0, w'.mem, w'.own, w'.used, r, va);
    if Idx4(va) != HHDM_SLOT {
      assert Leaf(w'.mem.tables, r, va) == Leaf(w.mem.tables, r, va);
    }
  }

  // ---- what the kernel's copies do ----

  /** va is, to the walk, byte k of the buffer. */
  predicate BufferByte(ptr: int, k: int, va: int) {
    PageAt((ptr + k) % TWO_64) == PageAt(va) && (ptr + k) % TWO_64 % PAGE_SIZE == va % PAGE_SIZE
  }

  ghost predicate InBuffer(ptr: int, n: nat, va: int) { exists k :: 0 <= k < n && BufferByte(ptr, k, va) }

  /** A copy into a buffer of root is seen by nobody else, and by the program of root only in the buffer. */
  lemma CopySeen(free0: seq<Range>, w: World, root: int, ptr: int, bytes: seq<int>, r: int, va: int)
    requires Sound(free0, w) && IsRoot(w.own, root) && IsRoot(w.own, r)
    requires !(r == root && InBuffer(ptr, |bytes|, va))
    ensures var w' := w.(bytes := CopyOut(w.bytes, FlatSpace(w.mem.tables, root), ptr, bytes, 0).0);
            Sound(free0, w') && UserRead(w', r, va) == UserRead(w, r, va)
  {
    hide SpacesOk, VirtToPhys, FlatSpace, CopyOut, Translate, PageAt;
    var t := w.mem.tables;
    var space := FlatSpace(t, root);
    if VirtToPhys(t, r, va).Some? {
      var pa := VirtToPhys(t, r, va).value;
      forall k | 0 <= k < |bytes| ensures UserCopy.Spot(space, ptr, k) != Some(pa) {
        var vb := (ptr + k) % TWO_64;
        FlatSpaceExact(t, root, vb);
        AddressSpacesDisjoint(free0, w.mem, w.own, w.used, r, va, root, vb);
        assert !(r == root && BufferByte(ptr, k, va));
      }
      UserCopy.CopyOutElsewhere(w.bytes, space, ptr, bytes, 0, pa);
    }
  }

  // ---- one turn ----

  lemma CurrentRoot(free0: seq<Range>, s: State, w: World)
    requires Coupled(free0, s, w)
    ensures s.cr3 == s.procs[s.current].cr3
    ensures forall p :: 0 <= p < MAX_PROCS && s.procs[p].alive ==>
              s.procs[p].cr3 in s.spaces && IsRoot(w.own, s.procs[p].cr3)
              && SpaceOf(s, s.procs[p].cr3) == FlatSpace(w.mem.tables, s.procs[p].cr3)
              && (p != s.current ==> s.procs[p].cr3 != s.cr3)
    ensures s.procs[s.current].alive && IsRoot(w.own, s.cr3) && SpaceOf(s, s.cr3) == FlatSpace(w.mem.tables, s.cr3)
  {
    hide FlatSpace, SpacesOk, AllWaitersOk, CapsOk;
    assert ProcOk(s, s.procs[s.current]);
    forall p | 0 <= p < MAX_PROCS && s.procs[p].alive
      ensures s.procs[p].cr3 in s.spaces && (p != s.current ==> s.procs[p].cr3 != s.cr3)
    {
      assert ProcOk(s, s.procs[p]);
    }
  }

  /** The two views stay one, whatever the program does and whatever it calls for. */
  lemma TurnKeeps(free0: seq<Range>, s: State, w: World, ev: Event, w1: World, w2: World, s': State, w': World)
    requires Coupled(free0, s, w) && Turn(free0, s, w, ev, w1, w2, s', w')
    ensures Coupled(free0, s', w')
  {
    hide FlatSpace, SpacesOk, ProcsOk, AllWaitersOk, CapsOk, CurrentOk, Trap, CopyOut, Change, ProcBuilt;
    TrapKeeps(s, ev);
    CurrentRoot(free0, s, w);
    ActsKeep(free0, w, s.cr3, w1);
    var mev := TrapMem(s, ev);
    if mev.Loaded? {
      forall r | r in s.spaces ensures IsRoot(w2.own, r) && s.spaces[r] == FlatSpace(w2.mem.tables, r) && r != ev.build.cr3 {
        BuildKeeps(free0, w1, ev.build, w2, r);
      }
      BuildKeeps(free0, w1, ev.build, w2, s.cr3);
    }
  }

  lemma RootsDiffer(s: State, p: nat, q: nat)
    requires Core(s) && p < MAX_PROCS && q < MAX_PROCS && s.procs[p].alive && s.procs[q].alive
    ensures p != q ==> s.procs[p].cr3 != s.procs[q].cr3
  {
  }

  lemma WaiterAlive(s: State, e: nat)
    requires Core(s) && e < MAX_ENDPOINTS && WaitList(s.eps[e]) != []
    ensures WaitList(s.eps[e])[0] < MAX_PROCS && s.procs[WaitList(s.eps[e])[0]].alive && WaitList(s.eps[e])[0] != s.current
  {
    assert WaitersOk(s, e) && Sleeping(s, e, WaitList(s.eps[e])[0]);
  }

  /** In this trap the current process sends on the endpoint where p waits first. */
  ghost predicate Serves(s: State, ev: Event, p: nat, e: nat)
    requires Wf(s)
  {
    && e < MAX_ENDPOINTS && WaitList(s.eps[e]) != [] && WaitList(s.eps[e])[0] == p < MAX_PROCS
    && ev.kind == Syscall && (ev.regs.rax == SYS_SEND || ev.regs.rax == SYS_SEND_CAP)
    && Calls.Names(s.procs[s.current].caps, ev.regs.rdi % TWO_32, e + 1)
  }

  /** A message may come into this place of the buffer that p waits with. */
  ghost predicate ArrivesAt(s: State, ev: Event, p: nat, va: int)
    requires Wf(s)
  {
    && p < MAX_PROCS && (exists e :: Serves(s, ev, p, e))
    && InBuffer(FrameAt(s, Tf(s, p)).rsi, Min(FrameAt(s, Tf(s, p)).rdx, MAX_MSG), va)
  }

  /** In one turn, what a program reads at an address stays as it was, unless it is the one that ran, or the one that ran
      sends to it and the address is in the buffer that it waits with. */
  lemma TurnSeen(free0: seq<Range>, s: State, w: World, ev: Event, w1: World, w2: World, s': State, w': World, p: nat, va: int)
    requires Coupled(free0, s, w) && Turn(free0, s, w, ev, w1, w2, s', w')
    requires p < MAX_PROCS && s.procs[p].alive && p != s.current && !ArrivesAt(s, ev, p, va)
    ensures UserRead(w', s.procs[p].cr3, va) == UserRead(w, s.procs[p].cr3, va)
  {
    hide FlatSpace, SpacesOk, ProcsOk, AllWaitersOk, CapsOk, CurrentOk, Trap, CopyOut, UserRead, ProcBuilt, InBuffer;
    CurrentRoot(free0, s, w);
    ActsKeep(free0, w, s.cr3, w1);
    var r := s.procs[p].cr3;
    var mev := TrapMem(s, ev);
    match mev
    case Untouched => assert w' == w1;
    case Loaded => BuildKeeps(free0, w1, ev.build, w2, r); assert w' == w2;
    case Taken(bytes) => CopySeen(free0, w1, s.cr3, ev.regs.rsi, bytes, r, va);
    case Delivered(e, msg) =>
      var q := Delivery.First(s, e);
      WaiterAlive(s, e);
      RootsDiffer(s, p, q);
      assert Serves(s, ev, q, e);
      DeliveredSeen(free0, s, w1, q, msg, p, va);
  }

  lemma DeliveredSeen(free0: seq<Range>, s: State, w1: World, q: nat, msg: seq<int>, p: nat, va: int)
    requires Wf(s) && q < MAX_PROCS && p < MAX_PROCS && Sound(free0, w1)
    requires IsRoot(w1.own, s.procs[q].cr3) && IsRoot(w1.own, s.procs[p].cr3)
    requires SpaceOf(s, s.procs[q].cr3) == FlatSpace(w1.mem.tables, s.procs[q].cr3)
    requires p != q ==> s.procs[p].cr3 != s.procs[q].cr3
    requires p == q ==> !InBuffer(FrameAt(s, Tf(s, p)).rsi, Min(FrameAt(s, Tf(s, p)).rdx, MAX_MSG), va)
    ensures var w' := w1.(bytes := Delivery.Copied(s.(mem := w1.bytes), q, msg).0);
            UserRead(w', s.procs[p].cr3, va) == UserRead(w1, s.procs[p].cr3, va)
  {
    hide FlatSpace, SpacesOk, CopyOut, UserRead, BufferByte;
    var f := FrameAt(s, Tf(s, q));
    var bytes := Delivery.CutFor(s.(mem := w1.bytes), q, msg);
    assert |bytes| <= Min(f.rdx, MAX_MSG);
    CopySeen(free0, w1, s.procs[q].cr3, f.rsi, bytes, s.procs[p].cr3, va);
  }

  // ---- whole runs ----

  /** What happened in one turn. */
  datatype Move = Move(ev: Event, w1: World, w2: World)

  ghost predicate TurnAt(free0: seq<Range>, ss: seq<State>, ws: seq<World>, ms: seq<Move>, i: int)
    requires 0 <= i < |ms| < |ss| == |ws|
  {
    Wf(ss[i]) && Turn(free0, ss[i], ws[i], ms[i].ev, ms[i].w1, ms[i].w2, ss[i + 1], ws[i + 1])
  }

  ghost predicate IsHistory(free0: seq<Range>, ss: seq<State>, ws: seq<World>, ms: seq<Move>) {
    && |ss| == |ws| == |ms| + 1 && Coupled(free0, ss[0], ws[0])
    && forall i :: 0 <= i < |ms| ==> TurnAt(free0, ss, ws, ms, i)
  }

  /** The first process, built in this memory, enters user mode. */
  lemma FirstEntry(free0: seq<Range>, b: Build, w: World)
    requires Sound(free0, w) && IsRoot(w.own, b.cr3) && b.space == FlatSpace(w.mem.tables, b.cr3) && b.image == w.bytes
    requires b.kstackTop > KSTACK_SIZE
    ensures Coupled(free0, Runs.Boot(b), w)
  {
    hide FlatSpace, SpacesOk;
    Runs.BootInv(b);
  }

  lemma {:induction false} HistoryKeeps(free0: seq<Range>, ss: seq<State>, ws: seq<World>, ms: seq<Move>, n: nat)
    requires IsHistory(free0, ss, ws, ms) && n <= |ms|
    ensures Coupled(free0, ss[n], ws[n])
    ensures n < |ms| ==> Lasting(ss[n], ss[n + 1])
  {
    hide Coupled, Turn, Lasting;
    if n > 0 {
      HistoryKeeps(free0, ss, ws, ms, n - 1);
      assert TurnAt(free0, ss, ws, ms, n - 1);
      TurnKeeps(free0, ss[n - 1], ws[n - 1], ms[n - 1].ev, ms[n - 1].w1, ms[n - 1].w2, ss[n], ws[n]);
    }
    if n < |ms| {
      assert TurnAt(free0, ss, ws, ms, n);
      TurnChanges(free0, ss[n], ws[n], ms[n], ss[n + 1], ws[n + 1]);
    }
  }

  lemma TurnChanges(free0: seq<Range>, s: State, w: World, m: Move, s': State, w': World)
    requires Coupled(free0, s, w) && Turn(free0, s, w, m.ev, m.w1, m.w2, s', w')
    ensures Lasting(s, s')
  {
    TrapKeeps(s, m.ev);
  }

  /** Live processes stay, each with its address space. */
  ghost predicate Lasting(s: State, s': State) {
    && Wf(s) && Wf(s')
    && forall p :: 0 <= p < MAX_PROCS && s.procs[p].alive ==> s'.procs[p].alive && s'.procs[p].cr3 == s.procs[p].cr3
  }

  /** Between the moments m and n process p runs, or the running process sends to it and the address is in the buffer
      that it waits with. */
  ghost predicate Explained(ss: seq<State>, ms: seq<Move>, p: nat, va: int, m: nat, n: nat)
    requires n <= |ms| < |ss|
  {
    exists i :: m <= i < n && Wf(ss[i]) && (ss[i].current == p || ArrivesAt(ss[i], ms[i].ev, p, va))
  }

  /** Memory isolation of the whole machine: over every run of programs that store what they like, traps, deliveries and
      spawns, if a live process reads something else at some address than it did before, then it has itself run in the
      meantime, or another process has sent it a message while it waited with a buffer that holds the address. */
  lemma {:induction false} ReadsExplained(free0: seq<Range>, ss: seq<State>, ws: seq<World>, ms: seq<Move>, p: nat, va: int,
                                          m: nat, n: nat)
    requires IsHistory(free0, ss, ws, ms) && m <= n <= |ms| && p < MAX_PROCS && Wf(ss[m]) && ss[m].procs[p].alive
    ensures Wf(ss[n]) && ss[n].procs[p].alive && ss[n].procs[p].cr3 == ss[m].procs[p].cr3
    ensures UserRead(ws[n], ss[m].procs[p].cr3, va) != UserRead(ws[m], ss[m].procs[p].cr3, va) ==> Explained(ss, ms, p, va, m, n)
    decreases n
  {
    hide Turn, ArrivesAt, UserRead, Coupled;
    if m < n {
      ReadsExplained(free0, ss, ws, ms, p, va, m, n - 1);
      HistoryKeeps(free0, ss, ws, ms, n - 1);
      assert TurnAt(free0, ss, ws, ms, n - 1);
      if !(ss[n - 1].current == p || ArrivesAt(ss[n - 1], ms[n - 1].ev, p, va)) {
        TurnSeen(free0, ss[n - 1], ws[n - 1], ms[n - 1].ev, ms[n - 1].w1, ms[n - 1].w2, ss[n], ws[n], p, va);
      }
    }
  }

  // ---- what arrives ----

  /** When the running process sends to one that waits, and its buffer takes the message, then byte for byte the receiver
      reads, in the buffer that it named, what the sender could read, in the buffer that it named, when it trapped. */
  lemma MessageCrosses(free0: seq<Range>, s: State, w: World, ev: Event, w1: World, w2: World, s': State, w': World,
                       e: nat, bytes: seq<int>, xfer: nat, p: nat, k: nat)
    requires Coupled(free0, s, w) && Turn(free0, s, w, ev, w1, w2, s', w')
    requires Calls.SentBy(s, ev, e, bytes, xfer) && e < MAX_ENDPOINTS
    requires WaitList(s.eps[e]) != [] && WaitList(s.eps[e])[0] == p < MAX_PROCS
    requires var n := Runs.CutLength(s, p, |bytes|);
             k < n && UserCopy.AllMapped(SpaceOf(s, s.procs[p].cr3), FrameAt(s, Tf(s, p)).rsi, n)
    ensures UserRead(w', s.procs[p].cr3, (FrameAt(s, Tf(s, p)).rsi + k) % TWO_64) == Some(bytes[k])
    ensures UserRead(w1, s.cr3, (ev.regs.rsi + k) % TWO_64) == Some(bytes[k])
  {
    hide FlatSpace, SpacesOk, ProcsOk, AllWaitersOk, CapsOk, CurrentOk, Trap, UserRead, ProcBuilt, Calls.Reads;
    hide Calls.CopiedInto, Calls.Given, Calls.Popped, UserCopy.AllMapped;
    CurrentRoot(free0, s, w);
    ActsKeep(free0, w, s.cr3, w1);
    WaiterAlive(s, e);
    var c, caps := Calls.SendDelivers(s, ev, e, bytes, xfer);
    var t, f := w1.mem.tables, FrameAt(s, Tf(s, p));
    BytesRead(w1, s.cr3, ev.regs.rsi, bytes, k);
    NowHolds(w1, s.procs[p].cr3, f.rsi, bytes[..Runs.CutLength(s, p, |bytes|)], w'.bytes);
    BytesRead(w', s.procs[p].cr3, f.rsi, bytes[..Runs.CutLength(s, p, |bytes|)], k);
  }

  lemma BytesRead(w: World, root: int, ptr: u64, bytes: seq<int>, k: nat)
    requires Calls.Reads(FlatSpace(w.mem.tables, root), w.bytes, ptr, bytes) && k < |bytes|
    ensures UserRead(w, root, (ptr + k) % TWO_64) == Some(bytes[k])
  {
    hide FlatSpace, VirtToPhys, Translate;
    FlatSpaceExact(w.mem.tables, root, (ptr + k) % TWO_64);
  }

  lemma NowHolds(w: World, root: int, ptr: u64, bytes: seq<int>, mem: map<int, int>)
    requires var space := FlatSpace(w.mem.tables, root);
             Calls.CopiedInto(space, ptr, bytes, w.bytes, mem) && UserCopy.AllMapped(space, ptr, |bytes|)
    requires |bytes| <= MAX_MSG
    ensures Calls.Reads(FlatSpace(w.mem.tables, root), mem, ptr, bytes)
  {
    hide FlatSpace, Calls.Reads, UserCopy.AllMapped, UserCopy.OneToOne;
    BuffersOneToOne(w.mem.tables, root, ptr, |bytes|);
  }

  // ---- what starts ----

  /** Process p is ready to start: its saved frame has its role, the number c of its capability for x (0 for none), and the
      entry point of the program that is in its address space, on the stack that is mapped there for it. */
  ghost predicate Newborn(free0: seq<Range>, s: State, w: World, p: nat, role: u64, c: nat, x: nat, elf: seq<Elf.byte>, entry: int) {
    && Wf(s) && p < MAX_PROCS && Ready(s.procs[p])
    && c <= CAP_SLOTS && FrameAt(s, Tf(s, p)) == Frame(0, role, c, 0, 0, EntryRegisters(entry))
    && (if x == 0 then c == 0 else Calls.Names(s.procs[p].caps, c, x))
    && (exists w0 :: ProgramLoaded(free0, w0, w, s.procs[p].cr3, elf, entry))
    && (OnProgram(elf, STACK_TOP - 8) || UserMapped(w.mem.tables, s.procs[p].cr3, STACK_TOP - 8, true))
  }

  predicate FirstDead(procs: seq<Proc>, p: nat) { p < |procs| && !procs[p].alive && forall q :: 0 <= q < p ==> procs[q].alive }

  /** After a spawn with a free slot p the new process is ready to start, and the parent goes on and is told p. */
  lemma SpawnedIsReady(free0: seq<Range>, s: State, w: World, ev: Event, w1: World, w2: World, s': State, w': World,
                       p: nat, x: nat) returns (c: nat, elf: seq<Elf.byte>, entry: int)
    requires Coupled(free0, s, w) && Turn(free0, s, w, ev, w1, w2, s', w')
    requires Spawns(ev) && Calls.Shares(s, ev.regs, x) && FirstDead(s.procs, p)
    ensures Newborn(free0, s', w', p, ev.regs.rsi, c, x, elf, entry)
    ensures s'.current == s.current && FrameAt(s', s'.ret) == ev.regs.(rax := p)
  {
    hide FlatSpace, SpacesOk, ProcsOk, AllWaitersOk, CapsOk, CurrentOk, Trap, UserRead, ProgramLoaded, Calls.Given, Kept;
    hide DirectMapsHeld, UserMapped, OnProgram;
    ActsKeep(free0, w, s.cr3, w1);
    var start, end, n, elf', entry' :|
      ProgramSizesOk(elf') && ProcBuilt(free0, w1, w2, ev.build.cr3, start, end, n, elf', entry')
      && ev.build.others == EntryRegisters(entry');
    elf, entry := elf', entry';
    var n', caps := Calls.SpawnMakes(s, ev, p, x);
    c := n';
    Calls.NumberNames(Calls.NO_CAPS, x, c, caps);
    Calls.ChildFrame(s, ev);
    assert w' == w2;
  }
}
