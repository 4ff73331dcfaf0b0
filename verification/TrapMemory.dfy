/** What a trap does to user memory: nothing, or one copy into the buffer of one process, or a new image. */
module TrapMemory {
  import opened Words
  import opened Rings
  import opened Machine
  import opened Invariant
  import opened Delivery
  import opened Calls

  /** Delivered: the process that waits first at endpoint e + 1 gets this message. Taken: the current process gets these
      bytes. Loaded: the image of a new process. */
  datatype MemEvent = Untouched | Delivered(e: nat, msg: seq<int>) | Taken(bytes: seq<int>) | Loaded

  /** The current process, whose registers are f, called for what happened to memory. */
  ghost predicate MemStep(s: State, f: Frame, b: Build, s': State, mev: MemEvent)
    requires Wf(s)
  {
    && (s'.spaces == if mev.Loaded? then s.spaces[b.cr3 := b.space] else s.spaces)
    && match mev
       case Untouched => s'.mem == s.mem
       case Delivered(e, msg) =>
         && e < MAX_ENDPOINTS && WaitList(s.eps[e]) != [] && First(s, e) < MAX_PROCS
         && (f.rax == SYS_SEND || f.rax == SYS_SEND_CAP) && Sends(s, f, s.mem, e, msg)
         && s'.mem == Copied(s, First(s, e), msg).0
       case Taken(bytes) =>
         && (f.rax == SYS_RECV || f.rax == SYS_RECV_CAP) && |bytes| <= Min(f.rdx, MAX_MSG)
         && s'.mem == CopyOut(s.mem, SpaceOf(s, s.cr3), f.rsi, bytes, 0).0
       case Loaded => s'.mem == s.mem + b.image
  }

  /** The call is a send on endpoint e + 1, where somebody waits, and nothing is wrong with its arguments. */
  ghost predicate Offers(s: State, f: Frame, e: nat)
    requires Wf(s)
  {
    && e < MAX_ENDPOINTS && WaitList(s.eps[e]) != [] && CurrentLookup(s, f.rdi % TWO_32) == e + 1
    && CopyIn(s.mem, SpaceOf(s, s.cr3), f.rsi, Min(f.rdx, MAX_MSG)).Some?
    && (f.rax == SYS_SEND
        || (f.rax == SYS_SEND_CAP && (f.rcx % TWO_32 != 0 ==> CurrentLookup(s, f.rcx % TWO_32) != 0)))
  }

  predicate Spawns(ev: Event) { ev.kind == Syscall && ev.regs.rax == SYS_SPAWN && ev.regs.rdi == 1 }

  lemma CapAllocMem(s: State, pid: nat, ep: nat)
    requires Wf(s)
    ensures CapAlloc(s, pid, ep).0.mem == s.mem && CapAlloc(s, pid, ep).0.spaces == s.spaces
  {
  }

  lemma SwitchMem(s: State, tf: int)
    requires Wf(s)
    ensures SwitchFrom(s, tf).0.mem == s.mem && SwitchFrom(s, tf).0.spaces == s.spaces
  {
  }

  lemma DeliverMem(s: State, pid: nat, msg: seq<int>, xfer: nat)
    requires Wf(s) && pid < MAX_PROCS
    ensures Deliver(s, pid, msg, xfer).0.mem == Copied(s, pid, msg).0 && Deliver(s, pid, msg, xfer).0.spaces == s.spaces
  {
    CapAllocMem(s.(mem := Copied(s, pid, msg).0), pid, xfer);
  }

  lemma SendMem(s: State, tf: int, xfer: nat, b: Build) returns (mev: MemEvent)
    requires Core(s) && (FrameAt(s, tf).rax == SYS_SEND || FrameAt(s, tf).rax == SYS_SEND_CAP)
    ensures MemStep(s, FrameAt(s, tf), b, SendMsg(s, tf, xfer), mev) && !mev.Loaded?
    ensures forall e :: Offers(s, FrameAt(s, tf), e) ==> mev.Delivered?
  {
    hide Deliver, Send, CopyIn, CopyOut, ProcsOk, AllWaitersOk, CapsOk, CurrentOk, RingOk;
    mev := Untouched;
    var f := FrameAt(s, tf);
    var msg := CopyIn(s.mem, SpaceOf(s, s.cr3), f.rsi, Min(f.rdx, MAX_MSG));
    var ep := CurrentLookup(s, f.rdi % TWO_32);
    if msg.Some? && 0 < ep <= MAX_ENDPOINTS {
      var e := ep - 1;
      ServedNext(s, e, msg.value, xfer);
      SendsIs(s, f, s.mem, e);
      if WaitList(s.eps[e]) != [] {
        mev := Delivered(e, msg.value);
      }
    }
  }

  lemma ServedNext(s: State, e: nat, msg: seq<int>, xfer: nat)
    requires Core(s) && e < MAX_ENDPOINTS
    ensures RingOk(s.eps[e]) && RingOk(WaiterPop(s.eps[e]).0)
    ensures if WaitList(s.eps[e]) == [] then WaiterPop(s.eps[e]).1.None?
            else
              && WaiterPop(s.eps[e]).1 == Some(First(s, e)) && First(s, e) < MAX_PROCS
              && var s1 := Deliver(SetRing(s, e + 1, WaiterPop(s.eps[e]).0), First(s, e), msg, xfer).0;
                 && s1.mem == Copied(s, First(s, e), msg).0
                 && s1.spaces == s.spaces
  {
    PopTakesFirst(s.eps[e]);
    if WaitList(s.eps[e]) != [] {
      assert WaitersOk(s, e);
      assert Sleeping(s, e, WaitList(s.eps[e])[0]);
      DeliverMem(SetRing(s, e + 1, WaiterPop(s.eps[e]).0), First(s, e), msg, xfer);
    }
  }

  lemma RecvMem(s: State, tf: int, withCap: bool, b: Build) returns (mev: MemEvent)
    requires Core(s) && (FrameAt(s, tf).rax == SYS_RECV || FrameAt(s, tf).rax == SYS_RECV_CAP)
    ensures MemStep(s, FrameAt(s, tf), b, RecvMsg(s, tf, withCap).0, mev) && !mev.Loaded?
  {
    hide Recv, WaiterPush, SwitchFrom, RecvDone, HasOtherRunnable, CopyOut, ProcsOk, AllWaitersOk, CapsOk, CurrentOk, RingOk;
    mev := Untouched;
    var f := FrameAt(s, tf);
    var ep := CurrentLookup(s, f.rdi % TWO_32);
    if 0 < ep <= MAX_ENDPOINTS {
      var ring, max := s.eps[ep - 1], Min(f.rdx, MAX_MSG);
      assert RingOk(ring);
      RingOpsOk(ring, s.current, [], 0, max);
      var (ring', got) := Recv(ring, max);
      if got.Some? {
        AtMost(ring, max);
        RecvDoneMem(SetRing(s, ep, ring'), tf, withCap, got.value);
        mev := Taken(got.value.bytes);
      } else {
        SwitchMem(Block(SetRing(s, ep, WaiterPush(ring, s.current).0), ep), tf);
      }
    }
  }

  lemma AtMost(r: Ring, max: nat)
    requires RingOk(r) && Recv(r, max).1.Some?
    ensures |Recv(r, max).1.value.bytes| <= max
  {
  }

  lemma RecvDoneMem(s: State, tf: int, withCap: bool, p: Payload)
    requires Wf(s) && |p.bytes| <= MAX_MSG
    ensures RecvDone(s, tf, withCap, p).mem == CopyOut(s.mem, SpaceOf(s, s.cr3), FrameAt(s, tf).rsi, p.bytes, 0).0
    ensures RecvDone(s, tf, withCap, p).spaces == s.spaces
  {
    CapAllocMem(s.(mem := CopyOut(s.mem, SpaceOf(s, s.cr3), FrameAt(s, tf).rsi, p.bytes, 0).0), s.current, p.xfer);
  }

  lemma SpawnMem(s: State, tf: int, b: Build)
    requires Wf(s)
    ensures var (s', loads) := (Spawn(s, tf, b), FrameAt(s, tf).rdi == 1);
            && s'.mem == (if loads then s.mem + b.image else s.mem)
            && s'.spaces == if loads then s.spaces[b.cr3 := b.space] else s.spaces
  {
  }

  lemma DispatchMem(s: State, b: Build) returns (mev: MemEvent)
    requires Core(s)
    ensures var f := FrameAt(s, Cf(s));
            && MemStep(s, f, b, Dispatch(s, Cf(s), b).0, mev)
            && (mev.Loaded? <==> f.rax == SYS_SPAWN && f.rdi == 1)
            && forall e :: Offers(s, f, e) ==> mev.Delivered?
  {
    hide SendMsg, RecvMsg, Spawn, SwitchFrom, ProcsOk, AllWaitersOk, CapsOk, CurrentOk;
    var tf := Cf(s);
    var f := FrameAt(s, tf);
    mev := Untouched;
    if f.rax == SYS_YIELD {
      SwitchMem(SetRax(s, tf, 0), tf);
    } else if f.rax == SYS_EP_CREATE {
      CapAllocMem(s.(nextEp := s.nextEp + 1), s.current, s.nextEp + 1);
    } else if f.rax == SYS_SEND {
      mev := SendMem(s, tf, 0, b);
    } else if f.rax == SYS_SEND_CAP {
      mev := SendMem(s, tf, CurrentLookup(s, f.rcx % TWO_32), b);
      if f.rcx % TWO_32 != 0 && CurrentLookup(s, f.rcx % TWO_32) == 0 {
        mev := Untouched;
      }
    } else if f.rax == SYS_RECV {
      mev := RecvMem(s, tf, false, b);
    } else if f.rax == SYS_RECV_CAP {
      mev := RecvMem(s, tf, true, b);
    } else if f.rax == SYS_SPAWN {
      SpawnMem(s, tf, b);
      mev := if f.rdi == 1 then Loaded else Untouched;
    }
  }

  /** A trap leaves user memory alone, or fills the buffer that the current process named in its own receive, or fills the
      buffer of the process that waits first where the current process sends, with no more than it asked for; or it
      adds the image of a new process. */
  lemma TrapMem(s: State, ev: Event) returns (mev: MemEvent)
    requires Inv(s)
    ensures MemStep(s.(mem := ev.mem), ev.regs, ev.build, Trap(s, ev), mev)
    ensures (mev.Loaded? <==> Spawns(ev)) && (ev.kind == Timer ==> mev.Untouched?)
    ensures ev.kind == Syscall ==> forall e :: Offers(s.(mem := ev.mem), ev.regs, e) ==> mev.Delivered?
  {
    hide ProcsOk, AllWaitersOk, CapsOk, CurrentOk, Dispatch;
    var tf := Cf(s);
    QuietKeeps(s, ev.regs, ev.mem);
    EntryIsCurrent(s);
    var s0 := Enter(s, ev);
    mev := Untouched;
    if ev.kind == Timer {
      SwitchMem(s0, tf);
    } else {
      mev := DispatchMem(s0, ev.build);
      SameAsking(s, ev, mev);
      forall e | Offers(s.(mem := ev.mem), ev.regs, e) ensures mev.Delivered? {
        assert Offers(s0, ev.regs, e);
      }
    }
  }

  lemma EntryIsCurrent(s: State)
    requires Inv(s)
    ensures EntryFrame(s.rsp0) == Cf(s)
  {
  }

  /** The trap's own frame is not the saved frame of a sleeper. */
  lemma SameAsking(s: State, ev: Event, mev: MemEvent)
    requires Inv(s)
    requires mev.Delivered? ==> mev.e < MAX_ENDPOINTS && WaitList(s.eps[mev.e]) != []
    ensures mev.Delivered? ==> First(s, mev.e) < MAX_PROCS && FrameAt(Enter(s, ev), Tf(s, First(s, mev.e))) == FrameAt(s, Tf(s, First(s, mev.e)))
  {
    if mev.Delivered? {
      var p := WaitList(s.eps[mev.e])[0];
      assert WaitersOk(s, mev.e) && Sleeping(s, mev.e, p);
      OthersFrame(s, p, s.current);
    }
  }
}
