/** Every trap keeps the invariant, and what one trap can change. */
module Traps {
  import opened Words
  import opened Rings
  import opened Machine
  import opened Invariant

  // ---- what one trap can change ----

  /** Nothing granted is ever taken away or moved, and no process disappears. */
  ghost predicate Grew(s: State, s': State)
    requires Wf(s) && Wf(s')
  {
    && s.nextEp <= s'.nextEp && s.frames.Keys <= s'.frames.Keys
    && forall p :: 0 <= p < MAX_PROCS && s.procs[p].alive ==>
         && s'.procs[p].alive && s'.procs[p].kstackTop == s.procs[p].kstackTop && s'.procs[p].cr3 == s.procs[p].cr3
         && forall i :: 0 <= i < CAP_SLOTS && s.procs[p].caps[i] != 0 ==> s'.procs[p].caps[i] == s.procs[p].caps[i]
  }

  /** p is the current process and x is the message at the head of an endpoint that it holds. */
  ghost predicate InMessage(s: State, p: int, x: nat, f: int)
    requires Wf(s)
  {
    && p == s.current && 1 <= f <= MAX_ENDPOINTS && Holds(s, p, f)
    && s.eps[f - 1].head < s.eps[f - 1].tail && s.eps[f - 1].buf[s.eps[f - 1].head % Q_LEN].xfer == x
  }

  /** p waits first in line at an endpoint that the current process holds as well. */
  ghost predicate FirstAt(s: State, p: int, f: int)
    requires Wf(s)
  {
    && 1 <= f <= MAX_ENDPOINTS && WaitList(s.eps[f - 1]) != [] && WaitList(s.eps[f - 1])[0] == p
    && Holds(s, p, f) && Holds(s, s.current, f)
  }

  /** The three ways in which a live process comes to hold endpoint x. */
  ghost predicate MayGain(s: State, p: int, x: nat)
    requires Wf(s)
  {
    || (p == s.current && x == s.nextEp + 1)
    || (exists f :: InMessage(s, p, x, f))
    || (Holds(s, s.current, x) && exists f :: FirstAt(s, p, f))
  }

  ghost predicate CapsStep(s: State, s': State)
    requires Wf(s) && Wf(s')
  {
    && (forall p, i :: 0 <= p < MAX_PROCS && 0 <= i < CAP_SLOTS && s.procs[p].alive ==>
          s'.procs[p].caps[i] == s.procs[p].caps[i] || MayGain(s, p, s'.procs[p].caps[i]))
    && (forall p, i :: 0 <= p < MAX_PROCS && 0 <= i < CAP_SLOTS && !s.procs[p].alive && s'.procs[p].alive ==>
          s'.procs[p].caps[i] == 0 || Holds(s, s.current, s'.procs[p].caps[i]))
    && (forall p :: 0 <= p < MAX_PROCS && !s'.procs[p].alive ==> s'.procs[p] == s.procs[p])
  }

  /** A message slot changes only when the current process, holding the endpoint, sends; it can transfer
      only what it holds. */
  ghost predicate MsgsStep(s: State, s': State)
    requires Wf(s) && Wf(s')
  {
    forall e, j :: 0 <= e < MAX_ENDPOINTS && 0 <= j < Q_LEN && s'.eps[e].buf[j] != s.eps[e].buf[j] ==>
      Holds(s, s.current, e + 1) && (s'.eps[e].buf[j].xfer == 0 || Holds(s, s.current, s'.eps[e].buf[j].xfer))
  }

  ghost predicate ListStep(s: State, s': State, e: nat)
    requires Wf(s) && Wf(s') && e < MAX_ENDPOINTS
  {
    var (w, w') := (WaitList(s.eps[e]), WaitList(s'.eps[e]));
    || w' == w
    || (w != [] && w' == w[1..] && FirstAt(s, w[0], e + 1))
    || (w' == w + [s.current] && Holds(s, s.current, e + 1))
  }

  /** Processes other than the current one change only by being popped for delivery. */
  ghost predicate OthersStep(s: State, s': State)
    requires Wf(s) && Wf(s')
  {
    forall p :: 0 <= p < MAX_PROCS && p != s.current && s.procs[p].alive ==>
      || (s'.procs[p] == s.procs[p] && FrameAt(s', Tf(s, p)) == FrameAt(s, Tf(s, p)))
      || (exists f :: FirstAt(s, p, f) && WaitList(s'.eps[f - 1]) == WaitList(s.eps[f - 1])[1..])
  }

  ghost predicate Change(s: State, s': State)
    requires Wf(s) && Wf(s')
  {
    && Grew(s, s') && CapsStep(s, s') && MsgsStep(s, s') && OthersStep(s, s')
    && forall e :: 0 <= e < MAX_ENDPOINTS ==> ListStep(s, s', e)
  }

  // ---- the handlers, one by one ----

  lemma LookupHolds(s: State, cap: int)
    requires Core(s)
    ensures CurrentLookup(s, cap) <= Issued(s)
    ensures CurrentLookup(s, cap) != 0 ==> Holds(s, s.current, CurrentLookup(s, cap))
  {
    if CurrentLookup(s, cap) != 0 {
      assert s.procs[s.current].caps[cap - 1] == CurrentLookup(s, cap);
    }
  }

  /** Memory and the current frame are free to change. */
  lemma QuietChange(s: State, f: Frame, mem: map<int, int>)
    requires Core(s)
    ensures var s' := s.(frames := s.frames[Cf(s) := f], mem := mem);
            Core(s') && Change(s, s')
  {
    QuietKeeps(s, f, mem);
    var s' := s.(frames := s.frames[Cf(s) := f], mem := mem);
    forall p | 0 <= p < MAX_PROCS && p != s.current && s.procs[p].alive
      ensures FrameAt(s', Tf(s, p)) == FrameAt(s, Tf(s, p))
    {
      OthersFrame(s, p, s.current);
    }
  }

  /** Change looks only at processes, endpoints and the frames of the others: what the entry and the
      exit of a trap touch is invisible to it. */
  lemma ChangeAround(s: State, s0: State, s1: State, s': State)
    requires Wf(s) && Wf(s0) && Wf(s1) && Wf(s') && Change(s0, s1)
    requires s0.procs == s.procs && s0.eps == s.eps && s0.nextEp == s.nextEp && s0.current == s.current
    requires s'.procs == s1.procs && s'.eps == s1.eps && s'.nextEp == s1.nextEp
    requires s.frames.Keys <= s0.frames.Keys && s1.frames.Keys <= s'.frames.Keys
    requires forall p :: 0 <= p < MAX_PROCS && p != s.current && s.procs[p].alive ==>
               && FrameAt(s0, Tf(s, p)) == FrameAt(s, Tf(s, p))
               && FrameAt(s', Tf(s, p)) == FrameAt(s1, Tf(s, p))
    ensures Change(s, s')
  {
    forall p, x: nat | MayGain(s0, p, x) ensures MayGain(s, p, x) {
      if f :| InMessage(s0, p, x, f) {
        assert InMessage(s, p, x, f);
      } else if f :| FirstAt(s0, p, f) {
        assert FirstAt(s, p, f);
      }
    }
    assert CapsStep(s, s');
    forall p | 0 <= p < MAX_PROCS && p != s.current && s.procs[p].alive
      ensures || (s'.procs[p] == s.procs[p] && FrameAt(s', Tf(s, p)) == FrameAt(s, Tf(s, p)))
              || (exists f :: FirstAt(s, p, f) && WaitList(s'.eps[f - 1]) == WaitList(s.eps[f - 1])[1..])
    {
      if f :| FirstAt(s0, p, f) && WaitList(s1.eps[f - 1]) == WaitList(s0.eps[f - 1])[1..] {
        assert FirstAt(s, p, f);
      }
    }
    forall e | 0 <= e < MAX_ENDPOINTS ensures ListStep(s, s', e) {
      assert ListStep(s0, s1, e);
    }
  }

  /** A trailing update of the current frame. */
  lemma ThenFrame(s: State, s1: State, f: Frame)
    requires Core(s) && Core(s1) && Change(s, s1) && s1.current == s.current && Cf(s1) == Cf(s)
    ensures Core(SetFrame(s1, Cf(s), f)) && Change(s, SetFrame(s1, Cf(s), f))
  {
    QuietKeeps(s1, f, s1.mem);
    var s' := SetFrame(s1, Cf(s), f);
    forall p | 0 <= p < MAX_PROCS && p != s.current && s.procs[p].alive
      ensures FrameAt(s', Tf(s, p)) == FrameAt(s1, Tf(s, p))
    {
      OthersFrame(s, p, s.current);
    }
    ChangeAround(s, s, s1, s');
  }

  lemma YieldChange(s: State)
    requires Core(s) && Entered(s)
    ensures var (s', next) := SwitchFrom(s, Cf(s));
            && Core(s') && Change(s, s')
            && next == (if s'.current == s.current then 0 else Tf(s', s'.current))
  {
    SwitchKeeps(s);
  }

  lemma EpCreateChange(s: State)
    requires Core(s)
    ensures var s' := EpCreate(s).0; Core(s') && Change(s, s') && s'.current == s.current
    ensures Cf(EpCreate(s).0) == Cf(s)
  {
    hide AllWaitersOk;
    EpCreateKeeps(s);
    CapAllocEffect(s.(nextEp := s.nextEp + 1), s.current, s.nextEp + 1);
    var s' := EpCreate(s).0;
    forall p, i | 0 <= p < MAX_PROCS && 0 <= i < CAP_SLOTS && s'.procs[p].caps[i] != s.procs[p].caps[i]
      ensures p == s.current && s'.procs[p].caps[i] == s.nextEp + 1
    {
    }
  }

  lemma EnqueueChange(s: State, e: nat, bytes: seq<int>, xfer: nat)
    requires Core(s) && e < MAX_ENDPOINTS && WaitList(s.eps[e]) == [] && Holds(s, s.current, e + 1)
    requires xfer <= Issued(s) && (xfer == 0 || Holds(s, s.current, xfer))
    ensures RingOk(Send(s.eps[e], bytes, xfer).0)
    ensures var s' := SetRing(s, e + 1, Send(s.eps[e], bytes, xfer).0); Core(s') && Change(s, s')
  {
    SendKeeps(s, e, bytes, xfer);
    var r := Send(s.eps[e], bytes, xfer).0;
    var s' := SetRing(s, e + 1, r);
    assert WaitList(r) == WaitList(s.eps[e]);
  }

  lemma DeliverChange(s: State, e: nat, msg: seq<int>, xfer: nat)
    requires Core(s) && e < MAX_ENDPOINTS && WaitList(s.eps[e]) != [] && Holds(s, s.current, e + 1)
    requires xfer <= Issued(s) && (xfer == 0 || Holds(s, s.current, xfer))
    ensures RingOk(WaiterPop(s.eps[e]).0) && WaiterPop(s.eps[e]).1 == Some(WaitList(s.eps[e])[0])
    ensures var s' := Deliver(SetRing(s, e + 1, WaiterPop(s.eps[e]).0), WaitList(s.eps[e])[0], msg, xfer).0;
            Core(s') && Change(s, s') && s'.current == s.current && Cf(s') == Cf(s)
  {
    PopTakesFirst(s.eps[e]);
    PopKeeps(s, e);
    PoppedIsUnlisted(s, e);
    var pid := WaitList(s.eps[e])[0];
    var s1 := SetRing(s, e + 1, WaiterPop(s.eps[e]).0);
    DeliverKeeps(s1, pid, msg, xfer);
    var f := FrameAt(s, s.procs[pid].tfRsp);
    assert s.procs[pid].caps[f.rdi % TWO_32 - 1] == e + 1;
    assert FirstAt(s, pid, e + 1);
    DeliverEffect(s1, pid, msg, xfer);
    DeliverIsChange(s, s1, Deliver(s1, pid, msg, xfer).0, e, xfer);
  }

  /** Everything a delivery can touch. */
  ghost predicate DeliveredTo(s: State, s': State, pid: nat, xfer: nat)
    requires Wf(s) && Wf(s') && pid < MAX_PROCS
  {
    && s'.eps == s.eps && s'.nextEp == s.nextEp && s'.current == s.current && s.frames.Keys <= s'.frames.Keys
    && (forall p :: 0 <= p < MAX_PROCS && p != pid ==> s'.procs[p] == s.procs[p])
    && (forall a :: a != s.procs[pid].tfRsp ==> FrameAt(s', a) == FrameAt(s, a))
    && var (p, p') := (s.procs[pid], s'.procs[pid]);
       && p'.alive == p.alive && p'.kstackTop == p.kstackTop && p'.cr3 == p.cr3
       && forall i :: 0 <= i < CAP_SLOTS ==> p'.caps[i] == p.caps[i] || (p.caps[i] == 0 && p'.caps[i] == xfer != 0)
  }

  lemma DeliverEffect(s: State, pid: nat, msg: seq<int>, xfer: nat)
    requires Wf(s) && pid < MAX_PROCS
    ensures DeliveredTo(s, Deliver(s, pid, msg, xfer).0, pid, xfer)
  {
    var tf := s.procs[pid].tfRsp;
    var f := FrameAt(s, tf);
    var n := Min(Min(f.rdx, MAX_MSG), |msg|);
    var (mem, ok) := CopyOut(s.mem, SpaceOf(s, s.procs[pid].cr3), f.rsi, msg[..n], 0);
    CapAllocEffect(s.(mem := mem), pid, xfer);
  }

  lemma DeliverIsChange(s: State, s1: State, s': State, e: nat, xfer: nat)
    requires Core(s) && Wf(s1) && Wf(s') && e < MAX_ENDPOINTS && WaitList(s.eps[e]) != []
    requires FirstAt(s, WaitList(s.eps[e])[0], e + 1) && s.procs[WaitList(s.eps[e])[0]].alive
    requires s1 == s.(eps := s1.eps) && WaitList(s1.eps[e]) == WaitList(s.eps[e])[1..] && s1.eps[e].buf == s.eps[e].buf
    requires forall e' :: 0 <= e' < MAX_ENDPOINTS && e' != e ==> s1.eps[e'] == s.eps[e']
    requires DeliveredTo(s1, s', WaitList(s.eps[e])[0], xfer)
    requires xfer == 0 || Holds(s, s.current, xfer)
    ensures Change(s, s')
  {
    var pid := WaitList(s.eps[e])[0];
    forall p, i | 0 <= p < MAX_PROCS && 0 <= i < CAP_SLOTS && s'.procs[p].caps[i] != s.procs[p].caps[i]
      ensures MayGain(s, p, s'.procs[p].caps[i])
    {
      assert FirstAt(s, p, e + 1);
    }
    forall p | 0 <= p < MAX_PROCS && p != pid && s.procs[p].alive
      ensures s'.procs[p] == s.procs[p] && FrameAt(s', Tf(s, p)) == FrameAt(s, Tf(s, p))
    {
      OthersFrame(s, p, pid);
    }
    assert FirstAt(s, pid, e + 1) && WaitList(s'.eps[e + 1 - 1]) == WaitList(s.eps[e + 1 - 1])[1..];
  }

  lemma SendChange(s: State, xfer: nat)
    requires Core(s) && xfer <= Issued(s) && (xfer == 0 || Holds(s, s.current, xfer))
    ensures var s' := SendMsg(s, Cf(s), xfer); Core(s') && Change(s, s') && s'.current == s.current
  {
    var tf := Cf(s);
    var f := FrameAt(s, tf);
    var msg := CopyIn(s.mem, SpaceOf(s, s.cr3), f.rsi, Min(f.rdx, MAX_MSG));
    var ep := CurrentLookup(s, f.rdi % TWO_32);
    LookupHolds(s, f.rdi % TWO_32);
    if msg.None? || ep == 0 {
      QuietChange(s, f.(rax := ERR), s.mem);
    } else {
      var e := ep - 1;
      PopTakesFirst(s.eps[e]);
      if WaitList(s.eps[e]) != [] {
        DeliverChange(s, e, msg.value, xfer);
        var (s1, rax) := Deliver(SetRing(s, ep, WaiterPop(s.eps[e]).0), WaitList(s.eps[e])[0], msg.value, xfer);
        ThenFrame(s, s1, FrameAt(s1, tf).(rax := rax));
      } else {
        var (r, ok) := Send(s.eps[e], msg.value, xfer);
        if ok {
          EnqueueChange(s, e, msg.value, xfer);
          var s1 := SetRing(s, ep, r);
          ThenFrame(s, s1, FrameAt(s1, tf).(rax := |msg.value|));
        } else {
          QuietChange(s, f.(rax := FULL), s.mem);
        }
      }
    }
  }

  lemma SendCapChange(s: State)
    requires Core(s)
    ensures var s' := SendCap(s, Cf(s)); Core(s') && Change(s, s') && s'.current == s.current
  {
    var f := FrameAt(s, Cf(s));
    var xferCap := f.rcx % TWO_32;
    LookupHolds(s, xferCap);
    if xferCap != 0 && CurrentLookup(s, xferCap) == 0 {
      QuietChange(s, f.(rax := ERR), s.mem);
    } else {
      SendChange(s, CurrentLookup(s, xferCap));
    }
  }

  /** A message is taken from the ring. */
  lemma TakeChange(s: State, e: nat, max: nat, mem: map<int, int>)
    requires Core(s) && e < MAX_ENDPOINTS && Holds(s, s.current, e + 1) && Recv(s.eps[e], max).1.Some?
    ensures RingOk(Recv(s.eps[e], max).0)
    ensures var s' := SetRing(s, e + 1, Recv(s.eps[e], max).0).(mem := mem); Core(s') && Change(s, s')
    ensures InMessage(s, s.current, Recv(s.eps[e], max).1.value.xfer, e + 1)
  {
    RecvKeeps(s, e, max);
    var r := Recv(s.eps[e], max).0;
    MemKeeps(SetRing(s, e + 1, r), mem);
    assert WaitList(r) == WaitList(s.eps[e]);
  }

  /** ... and its transferred endpoint is installed. */
  lemma InstallChange(s: State, s1: State, xfer: nat, f: int)
    requires Core(s) && Core(s1) && Change(s, s1) && s1.current == s.current
    requires s1.procs == s.procs && InMessage(s, s.current, xfer, f) && xfer <= Issued(s1)
    ensures var s' := CapAlloc(s1, s.current, xfer).0;
            Core(s') && Change(s, s') && s'.current == s.current && Cf(s') == Cf(s)
  {
    CapAllocKeeps(s1, s.current, xfer);
    CapAllocEffect(s1, s.current, xfer);
    var s' := CapAlloc(s1, s.current, xfer).0;
    forall e | 0 <= e < MAX_ENDPOINTS ensures ListStep(s, s', e) {
      assert ListStep(s, s1, e);
    }
  }

  lemma RecvDoneChange(s: State, e: nat, max: nat, withCap: bool)
    requires Core(s) && e < MAX_ENDPOINTS && Holds(s, s.current, e + 1)
    requires Recv(s.eps[e], max).1.Some? && RingOk(Recv(s.eps[e], max).0)
    ensures var s' := RecvDone(SetRing(s, e + 1, Recv(s.eps[e], max).0), Cf(s), withCap, Recv(s.eps[e], max).1.value);
            Core(s') && Change(s, s') && s'.current == s.current
  {
    var tf := Cf(s);
    var (r, got) := Recv(s.eps[e], max);
    var s0 := SetRing(s, e + 1, r);
    var f := FrameAt(s0, tf);
    var (mem, ok) := CopyOut(s0.mem, SpaceOf(s0, s0.cr3), f.rsi, got.value.bytes, 0);
    var s1 := s0.(mem := mem);
    TakeChange(s, e, max, mem);
    if !ok {
      ThenFrame(s, s1, if withCap then f.(rax := ERR, rdx := 0) else f.(rax := ERR));
    } else if !withCap {
      ThenFrame(s, s1, f.(rax := |got.value.bytes|));
    } else {
      InstallChange(s, s1, got.value.xfer, e + 1);
      var (s2, cap) := CapAlloc(s1, s1.current, got.value.xfer);
      ThenFrame(s, s2, f.(rax := |got.value.bytes|, rdx := cap));
    }
  }

  /** The current process goes to sleep on endpoint e + 1 and another one takes over. */
  lemma SleepChange(s: State, e: nat)
    requires Core(s) && e < MAX_ENDPOINTS && HasOtherRunnable(s) && s.eps[e].head == s.eps[e].tail
    requires Holds(s, s.current, e + 1) && Receiving(s, e)
    ensures RingOk(WaiterPush(s.eps[e], s.current).0) && WaiterPush(s.eps[e], s.current).1
    ensures var (s', next) := Slept(s, e);
            && Core(s') && Change(s, s') && s'.current != s.current && next == Tf(s', s'.current) != 0
            && WaitList(s'.eps[e]) == WaitList(s.eps[e]) + [s.current]
  {
    hide AllWaitersOk;
    PushNeverRefuses(s, e);
    BlockKeeps(s, e);
    SleptEffect(s, e);
  }

  lemma RecvChange(s: State, withCap: bool)
    requires Core(s) && FrameAt(s, Cf(s)).rax == (if withCap then SYS_RECV_CAP else SYS_RECV)
    ensures var (s', next) := RecvMsg(s, Cf(s), withCap);
            && Core(s') && Change(s, s')
            && next == (if s'.current == s.current then 0 else Tf(s', s'.current))
  {
    hide Change, RecvDone, SwitchFrom, ProcsOk, AllWaitersOk, CapsOk, Block, HasOtherRunnable, Holds;
    var tf := Cf(s);
    var f := FrameAt(s, tf);
    var cap := f.rdi % TWO_32;
    var ep := CurrentLookup(s, cap);
    LookupHolds(s, cap);
    if ep == 0 {
      QuietChange(s, if withCap then f.(rax := ERR, rdx := 0) else f.(rax := ERR), s.mem);
    } else {
      var e := ep - 1;
      var max := Min(f.rdx, MAX_MSG);
      RingOpsOk(s.eps[e], s.current, [], 0, max);
      if Recv(s.eps[e], max).1.Some? {
        RecvDoneChange(s, e, max, withCap);
      } else if HasOtherRunnable(s) {
        SleepChange(s, e);
      } else {
        QuietChange(s, if withCap then f.(rax := EMPTY, rdx := 0) else f.(rax := EMPTY), s.mem);
      }
    }
  }

  lemma SpawnEffect(s: State, b: Build, role: u64, ep: nat)
    requires Core(s) && FreshBuild(s, b)
    ensures var s' := SpawnWith(s, b, role, ep).0;
            var pid := FreeProc(s.procs, 0);
            && s'.eps == s.eps && s'.nextEp == s.nextEp && s'.current == s.current
            && (forall p :: 0 <= p < MAX_PROCS && p != pid ==> s'.procs[p] == s.procs[p])
            && (pid < MAX_PROCS ==> s'.procs[pid].alive)
            && (pid < MAX_PROCS ==> forall i :: 0 <= i < CAP_SLOTS ==> s'.procs[pid].caps[i] in {0, ep})
            && forall a :: a != b.kstackTop - FRAME_SIZE ==> FrameAt(s', a) == FrameAt(s, a)
  {
    var s1 := Embryo(s, b, role);
    var pid := FreeProc(s1.procs, 0);
    if pid < MAX_PROCS {
      CapAllocEffect(s1.(procs := s1.procs[pid := NewProc(b)]), pid, ep);
    }
  }

  lemma SpawnWithChange(s: State, b: Build, role: u64, ep: nat)
    requires Core(s) && FreshBuild(s, b) && ep <= Issued(s) && (ep == 0 || Holds(s, s.current, ep))
    ensures var s' := SpawnWith(s, b, role, ep).0;
            Core(s') && Change(s, s') && s'.current == s.current && Cf(s') == Cf(s)
  {
    SpawnKeeps(s, b, role, ep);
    SpawnEffect(s, b, role, ep);
    var s' := SpawnWith(s, b, role, ep).0;
    forall p | 0 <= p < MAX_PROCS && s.procs[p].alive ensures Tf(s, p) != b.kstackTop - FRAME_SIZE {
      assert StacksApart(NewProc(b), s.procs[p]);
    }
  }

  ghost predicate EventOk(s: State, ev: Event)
    requires Wf(s)
  {
    ev.kind == Syscall && ev.regs.rax == SYS_SPAWN && ev.regs.rdi == 1 ==> FreshBuild(s, ev.build)
  }

  lemma SpawnChange(s: State, b: Build)
    requires Core(s) && (FrameAt(s, Cf(s)).rdi == 1 ==> FreshBuild(s, b))
    ensures var s' := Spawn(s, Cf(s), b); Core(s') && Change(s, s') && s'.current == s.current
  {
    var tf := Cf(s);
    var f := FrameAt(s, tf);
    if f.rdi != 1 {
      QuietChange(s, f.(rax := ERR), s.mem);
    } else {
      LookupHolds(s, f.rdx % TWO_32);
      var ep := CurrentLookup(s, f.rdx % TWO_32);
      SpawnWithChange(s, b, f.rsi, ep);
      var (s1, rax) := SpawnWith(s, b, f.rsi, ep);
      ThenFrame(s, s1, FrameAt(s1, tf).(rax := rax));
    }
  }

  /** What the current process's frame and memory were at the start of a trap does not matter. */
  lemma EntryInvisible(s: State, s0: State, s1: State)
    requires Core(s) && Core(s0) && Wf(s1) && Change(s0, s1)
    requires s0.procs == s.procs && s0.eps == s.eps && s0.nextEp == s.nextEp && s0.current == s.current
    requires s.frames.Keys <= s0.frames.Keys
    requires forall a :: a != Cf(s) ==> FrameAt(s0, a) == FrameAt(s, a)
    ensures Change(s, s1)
  {
    forall p | 0 <= p < MAX_PROCS && p != s.current && s.procs[p].alive
      ensures FrameAt(s0, Tf(s, p)) == FrameAt(s, Tf(s, p))
    {
      OthersFrame(s, p, s.current);
    }
    ChangeAround(s, s0, s1, s1);
  }

  /** A switch after quiet changes to the current frame. */
  lemma YieldAfter(s: State, s1: State)
    requires Core(s) && Core(s1) && Entered(s1)
    requires s1.procs == s.procs && s1.eps == s.eps && s1.nextEp == s.nextEp && s1.current == s.current
    requires s.frames.Keys <= s1.frames.Keys
    requires forall a :: a != Cf(s) ==> FrameAt(s1, a) == FrameAt(s, a)
    ensures var (s', next) := SwitchFrom(s1, Cf(s1));
            && Core(s') && Change(s, s')
            && next == (if s'.current == s.current then 0 else Tf(s', s'.current))
  {
    YieldChange(s1);
    EntryInvisible(s, s1, SwitchFrom(s1, Cf(s1)).0);
  }

  lemma YieldCall(s: State)
    requires Core(s)
    ensures var (s', next) := SwitchFrom(SetRax(s, Cf(s), 0), Cf(s));
            && Core(s') && Change(s, s')
            && next == (if s'.current == s.current then 0 else Tf(s', s'.current))
  {
    var s1 := SetRax(s, Cf(s), 0);
    QuietKeeps(s, FrameAt(s, Cf(s)).(rax := 0), s.mem);
    assert Cf(s1) == Cf(s);
    YieldAfter(s, s1);
  }

  lemma EpCallChange(s: State)
    requires Core(s)
    ensures var (s1, rax) := EpCreate(s);
            var s' := SetRax(s1, Cf(s), rax);
            Core(s') && Change(s, s') && s'.current == s.current
  {
    EpCreateChange(s);
    var (s1, rax) := EpCreate(s);
    ThenFrame(s, s1, FrameAt(s1, Cf(s)).(rax := rax));
  }

  lemma DispatchChange(s: State, b: Build)
    requires Core(s)
    requires var f := FrameAt(s, Cf(s)); f.rax == SYS_SPAWN && f.rdi == 1 ==> FreshBuild(s, b)
    ensures var (s', next) := Dispatch(s, Cf(s), b);
            && Core(s') && Change(s, s')
            && next == (if s'.current == s.current then 0 else Tf(s', s'.current))
  {
    var f := FrameAt(s, Cf(s));
    if f.rax == SYS_YIELD {
      YieldCall(s);
    } else if f.rax == SYS_EP_CREATE {
      EpCallChange(s);
    } else if f.rax == SYS_SEND {
      SendChange(s, 0);
    } else if f.rax == SYS_RECV {
      RecvChange(s, false);
    } else if f.rax == SYS_SEND_CAP {
      SendCapChange(s);
    } else if f.rax == SYS_RECV_CAP {
      RecvChange(s, true);
    } else if f.rax == SYS_SPAWN {
      SpawnChange(s, b);
    } else if f.rax == SYS_PUTC {
      QuietChange(s, f.(rax := 0), s.mem);
    } else if f.rax == SYS_WRITE {
      QuietChange(s, f.(rax := Readable(SpaceOf(s, s.cr3), f.rdi, 0, Min(f.rsi, 1024))), s.mem);
    } else {
      QuietChange(s, f.(rax := ERR), s.mem);
    }
  }

  lemma LeaveKeeps(s: State, s1: State, next: int)
    requires Inv(s) && Core(s1) && s1.procs[s.current].cr3 == s.procs[s.current].cr3
    requires s1.procs[s.current].kstackTop == s.procs[s.current].kstackTop
    requires next == (if s1.current == s.current then 0 else Tf(s1, s1.current))
    requires s1.cr3 == s.cr3 && Cf(s) in s1.frames
    ensures Inv(Leave(s1, Cf(s), next))
  {
    var s' := Leave(s1, Cf(s), next);
    assert ProcOk(s1, s1.procs[s1.current]);
    assert ProcsOk(s');
    forall e | 0 <= e < MAX_ENDPOINTS ensures WaitersOk(s', e) {
      assert WaitersOk(s1, e);
      var w := WaitList(s1.eps[e]);
      forall k | 0 <= k < |w| ensures Sleeping(s', e, w[k]) {
        assert Sleeping(s1, e, w[k]);
      }
    }
  }

  lemma LeaveChange(s: State, s1: State, tf: int, next: int)
    requires Wf(s) && Wf(s1) && Change(s, s1)
    ensures Change(s, Leave(s1, tf, next))
  {
    ChangeAround(s, s, s1, Leave(s1, tf, next));
  }

  /** Every trap keeps the invariant: at its end the current process is live and runnable, and the stack,
      the address space and the frame that the processor uses next are that process's own. */
  lemma TrapKeeps(s: State, ev: Event)
    requires Inv(s) && EventOk(s, ev)
    ensures Inv(Trap(s, ev)) && Change(s, Trap(s, ev))
  {
    var tf := Cf(s);
    QuietKeeps(s, ev.regs, ev.mem);
    var s0 := Enter(s, ev);
    HandleChange(s0, ev);
    AfterBody(s, s0, Handle(s0, tf, ev).0, Handle(s0, tf, ev).1);
  }

  lemma HandleChange(s: State, ev: Event)
    requires Core(s) && Entered(s) && FrameAt(s, Cf(s)) == ev.regs && EventOk(s, ev)
    ensures var (s', next) := Handle(s, Cf(s), ev);
            && Core(s') && Change(s, s')
            && next == (if s'.current == s.current then 0 else Tf(s', s'.current))
  {
    if ev.kind == Timer {
      YieldChange(s);
    } else {
      DispatchChange(s, ev.build);
    }
  }

  lemma AfterBody(s: State, s0: State, s1: State, next: int)
    requires Inv(s) && Core(s0) && Entered(s0) && s.frames.Keys <= s0.frames.Keys && Core(s1) && Change(s0, s1) && s1.cr3 == s.cr3
    requires s0.procs == s.procs && s0.eps == s.eps && s0.nextEp == s.nextEp && s0.current == s.current
    requires forall a :: a != Cf(s) ==> FrameAt(s0, a) == FrameAt(s, a)
    requires next == (if s1.current == s0.current then 0 else Tf(s1, s1.current))
    ensures Inv(Leave(s1, Cf(s), next)) && Change(s, Leave(s1, Cf(s), next))
  {
    EntryInvisible(s, s0, s1);
    LeaveKeeps(s, s1, next);
    LeaveChange(s, s1, Cf(s), next);
  }
}
