/** What each system call does, as its caller sees it: which capability slots, bytes, queues and registers decide, what the
    registers say afterwards, and that nothing else has changed. */
module Calls {
  import opened Words
  import opened Rings
  import opened Machine
  import opened Invariant
  import opened Traps
  import opened UserCopy

  // ---- what the caller names ----

  /** c is the number of a slot that holds endpoint x; numbers count from 1. */
  predicate Names(caps: seq<nat>, c: int, x: nat) { 1 <= c <= |caps| && caps[c - 1] == x != 0 }

  /** Every byte of the buffer is mapped, and these are the bytes. */
  ghost predicate Reads(space: map<int, int>, mem: map<int, int>, ptr: int, bytes: seq<int>) {
    forall k :: 0 <= k < |bytes| ==> Spot(space, ptr, k).Some? && bytes[k] == ByteAt(mem, Spot(space, ptr, k).value)
  }

  /** The registers name endpoint e + 1 and a buffer with these bytes. */
  ghost predicate Sends(s: State, f: Frame, mem: map<int, int>, e: nat, bytes: seq<int>)
    requires Wf(s)
  {
    && Names(s.procs[s.current].caps, f.rdi % TWO_32, e + 1)
    && |bytes| == Min(f.rdx, MAX_MSG) && Reads(SpaceOf(s, s.cr3), mem, f.rsi, bytes)
  }

  /** The transfer that a send asks for: none, or the endpoint that its fourth argument names. */
  predicate Transfers(s: State, f: Frame, xfer: nat)
    requires Wf(s)
  {
    if f.rax == SYS_SEND || f.rcx % TWO_32 == 0 then xfer == 0
    else Names(s.procs[s.current].caps, f.rcx % TWO_32, xfer)
  }

  /** In this trap the current process sends these bytes on endpoint e + 1, transferring xfer. */
  ghost predicate SentBy(s: State, ev: Event, e: nat, bytes: seq<int>, xfer: nat)
    requires Wf(s)
  {
    && ev.kind == Syscall && (ev.regs.rax == SYS_SEND || ev.regs.rax == SYS_SEND_CAP)
    && Sends(s, ev.regs, ev.mem, e, bytes) && Transfers(s, ev.regs, xfer)
  }

  lemma LookupNames(caps: seq<nat>, c: int)
    requires |caps| == CAP_SLOTS
    ensures forall x: nat :: x != 0 ==> (CapLookup(caps, c) == x <==> Names(caps, c, x))
  {
  }

  lemma CopyInIs(mem: map<int, int>, space: map<int, int>, ptr: int, n: nat)
    ensures forall bytes :: CopyIn(mem, space, ptr, n) == Some(bytes) <==> |bytes| == n && Reads(space, mem, ptr, bytes)
  {
    hide Spot;
    CopyInReads(mem, space, ptr, n);
    forall bytes | |bytes| == n && Reads(space, mem, ptr, bytes) ensures CopyIn(mem, space, ptr, n) == Some(bytes) {
      assert CopyIn(mem, space, ptr, n).Some?;
      assert CopyIn(mem, space, ptr, n).value == bytes;
    }
  }

  lemma SendsIs(s: State, f: Frame, mem: map<int, int>, e: nat)
    requires Wf(s)
    ensures forall bytes :: Sends(s, f, mem, e, bytes) <==>
              && CurrentLookup(s, f.rdi % TWO_32) == e + 1
              && CopyIn(mem, SpaceOf(s, s.cr3), f.rsi, Min(f.rdx, MAX_MSG)) == Some(bytes)
  {
    hide Reads, CopyIn;
    LookupNames(s.procs[s.current].caps, f.rdi % TWO_32);
    CopyInIs(mem, SpaceOf(s, s.cr3), f.rsi, Min(f.rdx, MAX_MSG));
  }

  // ---- calls that go back to their caller ----

  /** The trap is over, the caller goes on with registers f, and nothing else has changed. */
  function Reply(s: State, ev: Event, f: Frame): State
    requires Wf(s)
  {
    s.(mem := ev.mem, frames := s.frames[Cf(s) := f], ret := Cf(s))
  }

  lemma TrapIs(s: State, ev: Event)
    requires Inv(s) && ev.kind == Syscall
    ensures var s0 := Enter(s, ev);
            && Core(s0) && Entered(s0) && Cf(s0) == Cf(s) && FrameAt(s0, Cf(s)) == ev.regs && s0.current == s.current
            && s0 == s.(mem := ev.mem, frames := s.frames[Cf(s) := ev.regs])
            && var (s1, next) := Dispatch(s0, Cf(s), ev.build); Trap(s, ev) == Leave(s1, Cf(s), next)
  {
    QuietKeeps(s, ev.regs, ev.mem);
  }

  lemma Rewritten(frames: map<int, Frame>, a: int, f: Frame, f': Frame)
    ensures frames[a := f][a := f'] == frames[a := f']
  {
  }

  /** A state that differs from the entered one, seen from the caller's registers. */
  lemma BackWith(s: State, ev: Event, s1: State, f: Frame)
    requires Inv(s) && Wf(s1) && s1.frames == Enter(s, ev).frames && s1.ret == s.ret
    ensures Leave(SetFrame(s1, Cf(s), f), Cf(s), 0) == s1.(frames := s.frames[Cf(s) := f], ret := Cf(s))
  {
    Rewritten(s.frames, Cf(s), ev.regs, f);
  }

  predicate Unknown(call: int) {
    call !in {SYS_PUTC, SYS_YIELD, SYS_WRITE, SYS_EP_CREATE, SYS_SEND, SYS_RECV, SYS_SEND_CAP, SYS_RECV_CAP, SYS_SPAWN}
  }

  /** PUTC answers 0, an unknown call the error, and WRITE the number of bytes before the first unmapped one, of at most
      1024. */
  lemma PlainCalls(s: State, ev: Event)
    requires Inv(s) && ev.kind == Syscall
    ensures ev.regs.rax == SYS_PUTC ==> Trap(s, ev) == Reply(s, ev, ev.regs.(rax := 0))
    ensures Unknown(ev.regs.rax) ==> Trap(s, ev) == Reply(s, ev, ev.regs.(rax := ERR))
    ensures ev.regs.rax == SYS_WRITE ==>
              exists n: nat ::
                && n <= Min(ev.regs.rsi, 1024) && AllMapped(SpaceOf(s, s.cr3), ev.regs.rdi, n)
                && (n < Min(ev.regs.rsi, 1024) ==> Spot(SpaceOf(s, s.cr3), ev.regs.rdi, n).None?)
                && Trap(s, ev) == Reply(s, ev, ev.regs.(rax := n))
  {
    hide AllWaitersOk, ProcsOk, CapsOk;
    TrapIs(s, ev);
    var s0 := Enter(s, ev);
    BackWith(s, ev, s0, ev.regs.(rax := 0));
    BackWith(s, ev, s0, ev.regs.(rax := ERR));
    if ev.regs.rax == SYS_WRITE {
      var n := Readable(SpaceOf(s, s.cr3), ev.regs.rdi, 0, Min(ev.regs.rsi, 1024));
      ReadableMeaning(SpaceOf(s, s.cr3), ev.regs.rdi, 0, Min(ev.regs.rsi, 1024));
      BackWith(s, ev, s0, ev.regs.(rax := n));
    }
  }

  // ---- capability numbers ----

  /** Endpoint x (0 for none) is put into the first empty slot, and c is the number of that slot; or there is nothing to put
      or no empty slot, and c is 0. */
  ghost predicate Given(caps: seq<nat>, x: nat, c: nat, caps': seq<nat>) {
    if x == 0 || forall i :: 0 <= i < |caps| ==> caps[i] != 0 then c == 0 && caps' == caps
    else
      && 1 <= c <= |caps| && caps[c - 1] == 0 && (forall i :: 0 <= i < c - 1 ==> caps[i] != 0)
      && caps' == caps[c - 1 := x]
  }

  /** The number that was given names the endpoint, and all other numbers name what they named. */
  lemma NumberNames(caps: seq<nat>, x: nat, c: nat, caps': seq<nat>)
    requires Given(caps, x, c, caps') && |caps| == CAP_SLOTS
    ensures |caps'| == CAP_SLOTS && (c != 0 ==> Names(caps', c, x) && CapLookup(caps', c) == x != 0 == CapLookup(caps, c))
    ensures forall d: int :: d != c ==> CapLookup(caps', d) == CapLookup(caps, d)
  {
  }

  function WithCaps(s: State, p: nat, caps: seq<nat>): State
    requires Wf(s) && p < MAX_PROCS
  {
    s.(procs := s.procs[p := s.procs[p].(caps := caps)])
  }

  lemma CapAllocGives(s: State, p: nat, x: nat) returns (c: nat, caps: seq<nat>)
    requires Wf(s) && p < MAX_PROCS
    ensures Given(s.procs[p].caps, x, c, caps) && |caps| == CAP_SLOTS && c <= CAP_SLOTS
    ensures CapAlloc(s, p, x) == (WithCaps(s, p, caps), c)
  {
    CapAllocEffect(s, p, x);
    var (s', n) := CapAlloc(s, p, x);
    c, caps := n, s'.procs[p].caps;
    assert s.procs[p := s.procs[p]] == s.procs;
  }

  /** EP_CREATE: a number that names a new endpoint, or the error if no endpoint or no slot is left. Either way one more
      endpoint is used up. */
  lemma EpCreateAnswers(s: State, ev: Event) returns (c: nat, caps: seq<nat>)
    requires Inv(s) && ev.kind == Syscall && ev.regs.rax == SYS_EP_CREATE
    ensures Given(s.procs[s.current].caps, if s.nextEp < MAX_ENDPOINTS then s.nextEp + 1 else 0, c, caps)
    ensures Trap(s, ev) ==
              WithCaps(Reply(s, ev, ev.regs.(rax := if c == 0 then ERR else c)), s.current, caps).(nextEp := s.nextEp + 1)
  {
    hide AllWaitersOk, ProcsOk, CapsOk, CapAlloc, Given;
    TrapIs(s, ev);
    var s1 := Enter(s, ev).(nextEp := s.nextEp + 1);
    c, caps := CapAllocGives(s1, s.current, if s.nextEp < MAX_ENDPOINTS then s.nextEp + 1 else 0);
    NothingGiven(s1, s.current);
    var f := ev.regs.(rax := if c == 0 then ERR else c);
    BackWith(s, ev, WithCaps(s1, s.current, caps), f);
  }

  lemma NothingGiven(s: State, p: nat)
    requires Wf(s)
    ensures CapAlloc(s, p, 0) == (s, 0)
  {
  }

  // ---- sending ----

  /** The message ring takes no more. */
  predicate RingFull(r: Ring) { r.head < Q_LEN && (r.tail - r.head) % Q_LEN == Q_LEN - 1 }

  /** The message is in the slot of its number, and the ring is otherwise as it was. */
  ghost predicate Enqueued(r: Ring, r': Ring, p: Payload) {
    && RingOk(r) && RingOk(r') && r' == r.(tail := r.tail + 1, buf := r'.buf)
    && PayloadOf(r'.buf[r.tail % Q_LEN]) == p
    && forall j :: 0 <= j < Q_LEN && j != r.tail % Q_LEN ==> r'.buf[j] == r.buf[j]
  }

  lemma SendEnqueues(r: Ring, bytes: seq<int>, xfer: nat)
    requires RingOk(r) && |bytes| <= MAX_MSG
    ensures var (r', ok) := Send(r, bytes, xfer);
            && (ok <==> !RingFull(r)) && (if ok then Enqueued(r, r', Payload(bytes, xfer)) else r' == r)
  {
    var (r', ok) := Send(r, bytes, xfer);
    if ok {
      var m := r'.buf[r.tail % Q_LEN];
      assert m.data[..m.len] == bytes;
    }
  }

  /** Nothing is sent: no endpoint named, or a byte of the buffer not mapped, or no endpoint named for the transfer. */
  ghost predicate SendsNothing(s: State, ev: Event)
    requires Wf(s)
  {
    forall e, bytes, xfer :: !SentBy(s, ev, e, bytes, xfer)
  }

  lemma EndpointNamed(s: State, c: int, x: nat)
    requires Core(s) && Names(s.procs[s.current].caps, c, x)
    ensures 1 <= x <= MAX_ENDPOINTS && CurrentLookup(s, c) == x && RingOk(s.eps[x - 1])
  {
    LookupHolds(s, c);
  }

  lemma WhatIsMissing(s: State, ev: Event)
    requires Inv(s) && ev.kind == Syscall && (ev.regs.rax == SYS_SEND || ev.regs.rax == SYS_SEND_CAP)
    requires SendsNothing(s, ev)
    ensures || CurrentLookup(s, ev.regs.rdi % TWO_32) == 0
            || CopyIn(ev.mem, SpaceOf(s, s.cr3), ev.regs.rsi, Min(ev.regs.rdx, MAX_MSG)).None?
            || (ev.regs.rax == SYS_SEND_CAP && ev.regs.rcx % TWO_32 != 0 && CurrentLookup(s, ev.regs.rcx % TWO_32) == 0)
  {
    hide AllWaitersOk, ProcsOk, CapsOk, CopyIn, Reads, Sends;
    var f := ev.regs;
    LookupNames(s.procs[s.current].caps, f.rcx % TWO_32);
    var ep, xfer := CurrentLookup(s, f.rdi % TWO_32), if f.rax == SYS_SEND then 0 else CurrentLookup(s, f.rcx % TWO_32);
    var msg := CopyIn(ev.mem, SpaceOf(s, s.cr3), f.rsi, Min(f.rdx, MAX_MSG));
    if ep != 0 && msg.Some? {
      SendsIs(s, f, ev.mem, ep - 1);
      assert !SentBy(s, ev, ep - 1, msg.value, if f.rcx % TWO_32 == 0 then 0 else xfer);
    }
  }

  /** A send that is not valid answers the error and does nothing. */
  lemma SendRefused(s: State, ev: Event)
    requires Inv(s) && ev.kind == Syscall && (ev.regs.rax == SYS_SEND || ev.regs.rax == SYS_SEND_CAP)
    requires SendsNothing(s, ev)
    ensures Trap(s, ev) == Reply(s, ev, ev.regs.(rax := ERR))
  {
    hide AllWaitersOk, ProcsOk, CapsOk, Deliver, Send, CopyIn, SendsNothing;
    TrapIs(s, ev);
    WhatIsMissing(s, ev);
    BackWith(s, ev, Enter(s, ev), ev.regs.(rax := ERR));
  }

  lemma WhatIsSent(s: State, ev: Event, e: nat, bytes: seq<int>, xfer: nat)
    requires Inv(s) && SentBy(s, ev, e, bytes, xfer)
    ensures CurrentLookup(s, ev.regs.rdi % TWO_32) == e + 1 <= MAX_ENDPOINTS && RingOk(s.eps[e]) && |bytes| <= MAX_MSG
    ensures CopyIn(ev.mem, SpaceOf(s, s.cr3), ev.regs.rsi, Min(ev.regs.rdx, MAX_MSG)) == Some(bytes)
    ensures if ev.regs.rax == SYS_SEND then xfer == 0
            else xfer == CurrentLookup(s, ev.regs.rcx % TWO_32) && (ev.regs.rcx % TWO_32 != 0 ==> xfer != 0)
  {
    hide AllWaitersOk, ProcsOk, CapsOk, CopyIn, Reads;
    EndpointNamed(s, ev.regs.rdi % TWO_32, e + 1);
    SendsIs(s, ev.regs, ev.mem, e);
    LookupNames(s.procs[s.current].caps, ev.regs.rcx % TWO_32);
  }

  function WithRing(s: State, e: nat, r: Ring): State
    requires Wf(s) && e < MAX_ENDPOINTS
  {
    s.(eps := s.eps[e := r])
  }

  /** Both send calls come to the same, once the transfer is known. */
  lemma SendDispatch(s: State, ev: Event, e: nat, bytes: seq<int>, xfer: nat)
    requires Inv(s) && SentBy(s, ev, e, bytes, xfer)
    ensures Trap(s, ev) == Leave(SendMsg(Enter(s, ev), Cf(s), xfer), Cf(s), 0)
  {
    hide AllWaitersOk, ProcsOk, CapsOk, SendMsg, Sends;
    TrapIs(s, ev);
    LookupNames(s.procs[s.current].caps, ev.regs.rcx % TWO_32);
  }

  lemma SendMsgQueues(s: State, tf: int, e: nat, bytes: seq<int>, xfer: nat)
    requires Wf(s) && e < MAX_ENDPOINTS && WaitList(s.eps[e]) == [] && CurrentLookup(s, FrameAt(s, tf).rdi % TWO_32) == e + 1
    requires CopyIn(s.mem, SpaceOf(s, s.cr3), FrameAt(s, tf).rsi, Min(FrameAt(s, tf).rdx, MAX_MSG)) == Some(bytes)
    ensures var (r, ok) := Send(s.eps[e], bytes, xfer);
            SendMsg(s, tf, xfer) ==
              if ok then SetFrame(WithRing(s, e, r), tf, FrameAt(s, tf).(rax := |bytes|))
              else SetFrame(s, tf, FrameAt(s, tf).(rax := FULL))
  {
    hide Deliver, Send, CopyIn, RingOk;
    PopTakesFirst(s.eps[e]);
  }

  /** A valid send where nobody waits: the message is in the queue, with exactly these bytes and this transfer, and the
      answer is their number; or the queue is full, nothing happens, and the answer says so. */
  lemma SendQueues(s: State, ev: Event, e: nat, bytes: seq<int>, xfer: nat)
    requires Inv(s) && SentBy(s, ev, e, bytes, xfer) && e < MAX_ENDPOINTS && WaitList(s.eps[e]) == []
    ensures RingFull(s.eps[e]) ==> Trap(s, ev) == Reply(s, ev, ev.regs.(rax := FULL))
    ensures !RingFull(s.eps[e]) ==>
              && Enqueued(s.eps[e], Trap(s, ev).eps[e], Payload(bytes, xfer))
              && Trap(s, ev) == WithRing(Reply(s, ev, ev.regs.(rax := |bytes|)), e, Trap(s, ev).eps[e])
  {
    hide AllWaitersOk, ProcsOk, CapsOk, Send, CopyIn, RingFull, WaitList, RingOk, Trap, SendMsg, Sends, Enqueued;
    SendDispatch(s, ev, e, bytes, xfer);
    TrapIs(s, ev);
    WhatIsSent(s, ev, e, bytes, xfer);
    var s0 := Enter(s, ev);
    SendMsgQueues(s0, Cf(s), e, bytes, xfer);
    SendEnqueues(s.eps[e], bytes, xfer);
    var r := Send(s.eps[e], bytes, xfer).0;
    BackWith(s, ev, s0, ev.regs.(rax := FULL));
    BackWith(s, ev, WithRing(s0, e, r), ev.regs.(rax := |bytes|));
  }

  /** mem' is mem with the bytes copied into the buffer: other bytes are as they were, and if the whole buffer is mapped, to
      different places, it holds the bytes. */
  ghost predicate CopiedInto(space: map<int, int>, ptr: int, bytes: seq<int>, mem: map<int, int>, mem': map<int, int>) {
    && (forall a {:trigger ByteAt(mem', a)} :: Outside(space, ptr, |bytes|, a) ==> ByteAt(mem', a) == ByteAt(mem, a))
    && (AllMapped(space, ptr, |bytes|) && OneToOne(space, ptr, |bytes|) ==> Reads(space, mem', ptr, bytes))
  }

  ghost predicate Outside(space: map<int, int>, ptr: int, n: nat, a: int) {
    forall k :: 0 <= k < n ==> Spot(space, ptr, k) != Some(a)
  }

  lemma CopyOutIs(mem: map<int, int>, space: map<int, int>, ptr: int, bytes: seq<int>)
    ensures var (mem', ok) := CopyOut(mem, space, ptr, bytes, 0);
            CopiedInto(space, ptr, bytes, mem, mem') && (ok <==> AllMapped(space, ptr, |bytes|))
  {
    hide Spot, CopyOut;
    var mem' := CopyOut(mem, space, ptr, bytes, 0).0;
    CopyOutSucceedsIff(mem, space, ptr, bytes, 0);
    forall a | Outside(space, ptr, |bytes|, a) ensures ByteAt(mem', a) == ByteAt(mem, a) {
      CopyOutElsewhere(mem, space, ptr, bytes, 0, a);
    }
    if AllMapped(space, ptr, |bytes|) && OneToOne(space, ptr, |bytes|) {
      forall k | 0 <= k < |bytes|
        ensures Spot(space, ptr, k).Some? && bytes[k] == ByteAt(mem', Spot(space, ptr, k).value)
      {
        CopyOutReads(mem, space, ptr, bytes, 0, k);
      }
    }
  }

  /** The process goes on with its call answered. */
  function Served(p: Proc, caps: seq<nat>): Proc { p.(caps := caps, runnable := true, blockedEp := 0) }

  /** What p's delivery comes to: its buffer is not mapped, or its registers tell the number of bytes and the new
      capability number. */
  lemma DeliverGives(s: State, p: nat, msg: seq<int>, xfer: nat) returns (c: nat, caps: seq<nat>)
    requires Wf(s) && p < MAX_PROCS && s.procs[p].alive
    ensures var (f, space) := (FrameAt(s, Tf(s, p)), SpaceOf(s, s.procs[p].cr3));
            var n := Min(Min(f.rdx, MAX_MSG), |msg|);
            var (s', rax) := Deliver(s, p, msg, xfer);
            && CopiedInto(space, f.rsi, msg[..n], s.mem, s'.mem)
            && if AllMapped(space, f.rsi, n) then
                 && rax == n && Given(s.procs[p].caps, xfer, c, caps) && |caps| == CAP_SLOTS
                 && s' == s.(mem := s'.mem, procs := s.procs[p := Served(s.procs[p], caps)],
                             frames := s.frames[Tf(s, p) := f.(rax := n, rdx := c)])
               else rax == ERR && s' == s.(mem := s'.mem)
  {
    hide CopyOut, CopiedInto, AllMapped, Given, CapAlloc;
    var f, space := FrameAt(s, Tf(s, p)), SpaceOf(s, s.procs[p].cr3);
    var n := Min(Min(f.rdx, MAX_MSG), |msg|);
    CopyOutIs(s.mem, space, f.rsi, msg[..n]);
    var mem := CopyOut(s.mem, space, f.rsi, msg[..n], 0).0;
    c, caps := CapAllocGives(s.(mem := mem), p, xfer);
  }

  lemma FirstWaiter(s: State, e: nat)
    requires Core(s) && e < MAX_ENDPOINTS && WaitList(s.eps[e]) != []
    ensures var p := WaitList(s.eps[e])[0];
            p < MAX_PROCS && s.procs[p].alive && p != s.current && Tf(s, p) != Cf(s)
    ensures RingOk(s.eps[e]) && WaiterPop(s.eps[e]).1 == Some(WaitList(s.eps[e])[0])
    ensures RingOk(WaiterPop(s.eps[e]).0) && Popped(s.eps[e], WaiterPop(s.eps[e]).0)
  {
    assert WaitersOk(s, e) && Sleeping(s, e, WaitList(s.eps[e])[0]);
    PopTakesFirst(s.eps[e]);
    OthersFrame(s, WaitList(s.eps[e])[0], s.current);
  }

  /** The first waiter is off the list. */
  ghost predicate Popped(r: Ring, r': Ring) {
    RingOk(r) && RingOk(r') && WaitList(r) != [] && r' == r.(waitHead := r'.waitHead) && WaitList(r') == WaitList(r)[1..]
  }

  lemma SendMsgDelivers(s: State, tf: int, e: nat, bytes: seq<int>, xfer: nat)
    requires Wf(s) && e < MAX_ENDPOINTS && WaitList(s.eps[e]) != [] && CurrentLookup(s, FrameAt(s, tf).rdi % TWO_32) == e + 1
    requires CopyIn(s.mem, SpaceOf(s, s.cr3), FrameAt(s, tf).rsi, Min(FrameAt(s, tf).rdx, MAX_MSG)) == Some(bytes)
    requires RingOk(WaiterPop(s.eps[e]).0) && WaitList(s.eps[e])[0] < MAX_PROCS
    ensures var (s1, rax) := Deliver(WithRing(s, e, WaiterPop(s.eps[e]).0), WaitList(s.eps[e])[0], bytes, xfer);
            SendMsg(s, tf, xfer) == SetRax(s1, tf, rax)
  {
    hide Deliver, Send, CopyIn, RingOk;
    PopTakesFirst(s.eps[e]);
  }

  /** A valid send where somebody waits, and f are the first waiter's registers: it is off the list, and either its buffer,
      for as much of the message as it asked for, is not mapped, or it is awake and its registers tell the number of bytes
      and of its new capability. The sender is told the same number, or the error. */
  lemma SendDelivers(s: State, ev: Event, e: nat, bytes: seq<int>, xfer: nat) returns (c: nat, caps: seq<nat>)
    requires Inv(s) && SentBy(s, ev, e, bytes, xfer) && e < MAX_ENDPOINTS && WaitList(s.eps[e]) != []
    requires WaitList(s.eps[e])[0] < MAX_PROCS
    ensures var (s', p) := (Trap(s, ev), WaitList(s.eps[e])[0]);
            var (f, space) := (FrameAt(s, Tf(s, p)), SpaceOf(s, s.procs[p].cr3));
            var n := Min(Min(f.rdx, MAX_MSG), |bytes|);
            && Popped(s.eps[e], s'.eps[e]) && CopiedInto(space, f.rsi, bytes[..n], ev.mem, s'.mem)
            && if AllMapped(space, f.rsi, n) then
                 && Given(s.procs[p].caps, xfer, c, caps)
                 && s' == WithRing(Reply(s, ev, ev.regs), e, s'.eps[e])
                          .(mem := s'.mem, procs := s.procs[p := Served(s.procs[p], caps)],
                            frames := s.frames[Tf(s, p) := f.(rax := n, rdx := c)][Cf(s) := ev.regs.(rax := n)])
               else s' == WithRing(Reply(s, ev, ev.regs.(rax := ERR)), e, s'.eps[e]).(mem := s'.mem)
  {
    hide ProcsOk, AllWaitersOk, CapsOk, CurrentOk, CopyIn, WaitList, WaiterPop, Trap, SendMsg, Sends, Deliver;
    hide CopiedInto, AllMapped, Given, Popped, SpaceOf;
    SendDispatch(s, ev, e, bytes, xfer);
    TrapIs(s, ev);
    WhatIsSent(s, ev, e, bytes, xfer);
    FirstWaiter(s, e);
    var s0 := Enter(s, ev);
    var p := WaitList(s.eps[e])[0];
    var s1 := WithRing(s0, e, WaiterPop(s.eps[e]).0);
    SameSpace(s, s1, s.procs[p].cr3);
    SameSpace(s, s0, s.cr3);
    SendMsgDelivers(s0, Cf(s), e, bytes, xfer);
    c, caps := DeliverGives(s1, p, bytes, xfer);
    var (s2, rax) := Deliver(s1, p, bytes, xfer);
    TwoWritten(s.frames, Cf(s), ev.regs, Tf(s, p), FrameAt(s2, Tf(s, p)), ev.regs.(rax := rax));
  }

  lemma SameSpace(s: State, s1: State, cr3: int)
    requires s1.spaces == s.spaces
    ensures SpaceOf(s1, cr3) == SpaceOf(s, cr3)
  {
  }

  lemma TwoWritten(frames: map<int, Frame>, a: int, f: Frame, b: int, g: Frame, f': Frame)
    requires a != b
    ensures frames[a := f][b := g][a := f'] == frames[b := g][a := f']
    ensures frames[a := f][a := f'] == frames[a := f']
  {
  }

  // ---- receiving ----

  predicate Receives(ev: Event) { ev.kind == Syscall && (ev.regs.rax == SYS_RECV || ev.regs.rax == SYS_RECV_CAP) }

  /** The registers of a receive that is over: only the capability-aware call tells a capability number. */
  function Answer(f: Frame, n: u64, c: u64): Frame {
    if f.rax == SYS_RECV_CAP then f.(rax := n, rdx := c) else f.(rax := n)
  }

  lemma RecvDispatch(s: State, ev: Event)
    requires Inv(s) && Receives(ev)
    ensures var (s1, next) := RecvMsg(Enter(s, ev), Cf(s), ev.regs.rax == SYS_RECV_CAP);
            Trap(s, ev) == Leave(s1, Cf(s), next)
  {
    hide AllWaitersOk, ProcsOk, CapsOk, RecvMsg;
    TrapIs(s, ev);
  }

  /** A receive that names no endpoint answers the error and does nothing. */
  lemma RecvRefused(s: State, ev: Event)
    requires Inv(s) && Receives(ev) && forall x: nat :: !Names(s.procs[s.current].caps, ev.regs.rdi % TWO_32, x)
    ensures Trap(s, ev) == Reply(s, ev, Answer(ev.regs, ERR, 0))
  {
    hide AllWaitersOk, ProcsOk, CapsOk, CurrentOk, Trap, Recv, WaiterPush, SwitchFrom, RecvDone, HasOtherRunnable;
    RecvDispatch(s, ev);
    TrapIs(s, ev);
    LookupNames(s.procs[s.current].caps, ev.regs.rdi % TWO_32);
    assert !Names(s.procs[s.current].caps, ev.regs.rdi % TWO_32, CurrentLookup(s, ev.regs.rdi % TWO_32));
    BackWith(s, ev, Enter(s, ev), Answer(ev.regs, ERR, 0));
  }

  /** On an empty queue, with nobody else ready to run, it answers so and does nothing. */
  lemma RecvFindsNothing(s: State, ev: Event, e: nat)
    requires Inv(s) && Receives(ev) && Names(s.procs[s.current].caps, ev.regs.rdi % TWO_32, e + 1)
    requires e < MAX_ENDPOINTS && s.eps[e].head == s.eps[e].tail
    requires forall p :: 0 <= p < MAX_PROCS && p != s.current ==> !Ready(s.procs[p])
    ensures Trap(s, ev) == Reply(s, ev, Answer(ev.regs, EMPTY, 0))
  {
    hide AllWaitersOk, ProcsOk, CapsOk, CurrentOk, Trap, WaiterPush, SwitchFrom, RecvDone;
    RecvDispatch(s, ev);
    TrapIs(s, ev);
    EndpointNamed(s, ev.regs.rdi % TWO_32, e + 1);
    RingOpsOk(s.eps[e], s.current, [], 0, 0);
    BackWith(s, ev, Enter(s, ev), Answer(ev.regs, EMPTY, 0));
  }

  /** The process after the current one, in cyclic order, that is ready to run. */
  ghost predicate NextReady(procs: seq<Proc>, cur: nat, n: nat)
    requires |procs| == MAX_PROCS && cur < MAX_PROCS
  {
    && n < MAX_PROCS && n != cur && Ready(procs[n])
    && forall q :: 0 <= q < MAX_PROCS && q != cur && Ready(procs[q]) ==> Distance(cur, n) <= Distance(cur, q)
  }

  /** Process n runs, in its address space, from its saved registers, and traps into its own stack. */
  function Running(s: State, n: nat): State
    requires Wf(s) && n < MAX_PROCS
  {
    var p := s.procs[n];
    s.(current := n, rsp0 := p.kstackTop, nextCr3 := p.cr3, cr3 := p.cr3, ret := p.tfRsp)
  }

  lemma PicksNext(procs: seq<Proc>, cur: nat, p: nat)
    requires |procs| == MAX_PROCS && cur < MAX_PROCS && p < MAX_PROCS && p != cur && Ready(procs[p])
    ensures NextReady(procs, cur, PickFrom(procs, cur, 1))
  {
    hide PickFrom, Ready;
    PickOther(procs, cur, p);
    forall q | 0 <= q < MAX_PROCS && q != cur && Ready(procs[q])
      ensures Distance(cur, PickFrom(procs, cur, 1)) <= Distance(cur, q)
    {
      PickOther(procs, cur, q);
    }
  }

  /** The last waiter on the list is new. */
  ghost predicate Pushed(r: Ring, r': Ring, p: nat) {
    && RingOk(r) && RingOk(r') && r' == r.(waitTail := r'.waitTail, waiters := r'.waiters)
    && WaitList(r') == WaitList(r) + [p]
  }

  /** On an empty queue, with somebody else ready, the caller goes to sleep at the end of the waiter list, with the registers
      of its call, and the next ready process runs. */
  lemma RecvSleeps(s: State, ev: Event, e: nat, p: nat) returns (n: nat)
    requires Inv(s) && Receives(ev) && Names(s.procs[s.current].caps, ev.regs.rdi % TWO_32, e + 1)
    requires e < MAX_ENDPOINTS && s.eps[e].head == s.eps[e].tail
    requires p < MAX_PROCS && p != s.current && Ready(s.procs[p])
    ensures NextReady(s.procs, s.current, n) && Pushed(s.eps[e], Trap(s, ev).eps[e], s.current)
    ensures Trap(s, ev) ==
              Running(WithRing(Reply(s, ev, ev.regs), e, Trap(s, ev).eps[e])
                        .(procs := s.procs[s.current :=
                            s.procs[s.current].(runnable := false, blockedEp := e + 1, tfRsp := Cf(s))]), n)
  {
    hide AllWaitersOk, ProcsOk, CapsOk, CurrentOk, Trap, WaiterPush, RecvMsg, WaitList, RingOk, Ready, Slept, NextReady;
    RecvDispatch(s, ev);
    TrapIs(s, ev);
    var s0 := Enter(s, ev);
    assert Ready(s0.procs[p]);
    PushNeverRefuses(s0, e);
    RecvMsgSleeps(s0, ev.regs.rax == SYS_RECV_CAP, e);
    n := SleptIs(s0, e, p);
    PushIs(s.eps[e], s.current);
  }

  lemma PushIs(r: Ring, pid: nat)
    requires RingOk(r) && RingOk(WaiterPush(r, pid).0) && WaitList(WaiterPush(r, pid).0) == WaitList(r) + [pid]
    ensures Pushed(r, WaiterPush(r, pid).0, pid)
  {
    hide WaitList;
  }

  lemma RecvMsgSleeps(s: State, withCap: bool, e: nat)
    requires Core(s) && e < MAX_ENDPOINTS && Names(s.procs[s.current].caps, FrameAt(s, Cf(s)).rdi % TWO_32, e + 1)
    requires s.eps[e].head == s.eps[e].tail && HasOtherRunnable(s)
    requires RingOk(WaiterPush(s.eps[e], s.current).0) && WaiterPush(s.eps[e], s.current).1
    ensures RecvMsg(s, Cf(s), withCap) == Slept(s, e)
  {
    hide AllWaitersOk, ProcsOk, CapsOk, CurrentOk, SwitchFrom, Block, WaiterPush;
    EndpointNamed(s, FrameAt(s, Cf(s)).rdi % TWO_32, e + 1);
  }

  lemma SleptIs(s: State, e: nat, p: nat) returns (n: nat)
    requires Core(s) && e < MAX_ENDPOINTS && RingOk(WaiterPush(s.eps[e], s.current).0)
    requires p < MAX_PROCS && p != s.current && Ready(s.procs[p])
    ensures NextReady(s.procs, s.current, n) && n < MAX_PROCS && n != s.current && s.procs[n].tfRsp != 0
    ensures Slept(s, e).1 == s.procs[n].tfRsp
    ensures Slept(s, e).0 ==
              WithRing(s, e, WaiterPush(s.eps[e], s.current).0)
              .(procs := s.procs[s.current := s.procs[s.current].(runnable := false, blockedEp := e + 1, tfRsp := Cf(s))],
                current := n, rsp0 := s.procs[n].kstackTop, nextCr3 := s.procs[n].cr3)
  {
    hide AllWaitersOk, CapsOk, CurrentOk, WaiterPush, PickFrom, RingOk;
    var b := Block(WithRing(s, e, WaiterPush(s.eps[e], s.current).0), e + 1);
    assert b.procs[s.current := b.procs[s.current].(tfRsp := Cf(s))] == s.procs[s.current := Dozing(s, e)];
    var procs := s.procs[s.current := Dozing(s, e)];
    PicksNext(procs, s.current, p);
    n := PickFrom(procs, s.current, 1);
    SameOthers(s.procs, procs, s.current, n);
    assert ProcOk(s, s.procs[n]);
  }

  lemma SameOthers(procs: seq<Proc>, procs': seq<Proc>, cur: nat, n: nat)
    requires |procs| == |procs'| == MAX_PROCS && cur < MAX_PROCS && NextReady(procs', cur, n)
    requires forall q :: 0 <= q < MAX_PROCS && q != cur ==> procs'[q] == procs[q]
    ensures NextReady(procs, cur, n) && procs'[n] == procs[n]
  {
  }

  /** The message at the head, cut to what the receive asks for. */
  function AtHead(r: Ring, f: Frame): Payload
    requires RingOk(r) && r.head < r.tail
  {
    var m := r.buf[r.head % Q_LEN];
    Payload(m.data[..Min(m.len, Min(f.rdx, MAX_MSG))], m.xfer)
  }

  /** A receive that finds a message takes it from the queue. Its buffer then holds the message, and the answer is the number
      of its bytes and, in the capability-aware call, of the capability given for what it transfers; or the buffer is not
      mapped, and the answer is the error. */
  lemma RecvGets(s: State, ev: Event, e: nat) returns (c: nat, caps: seq<nat>)
    requires Inv(s) && Receives(ev) && Names(s.procs[s.current].caps, ev.regs.rdi % TWO_32, e + 1)
    requires e < MAX_ENDPOINTS && s.eps[e].head < s.eps[e].tail
    ensures var (s', m, space) := (Trap(s, ev), AtHead(s.eps[e], ev.regs), SpaceOf(s, s.cr3));
            var taken := s.eps[e].(head := s.eps[e].head + 1);
            && CopiedInto(space, ev.regs.rsi, m.bytes, ev.mem, s'.mem)
            && if AllMapped(space, ev.regs.rsi, |m.bytes|) then
                 && Given(s.procs[s.current].caps, if ev.regs.rax == SYS_RECV_CAP then m.xfer else 0, c, caps)
                 && s' == WithCaps(WithRing(Reply(s, ev, Answer(ev.regs, |m.bytes|, c)), e, taken), s.current, caps)
                          .(mem := s'.mem)
               else s' == WithRing(Reply(s, ev, Answer(ev.regs, ERR, 0)), e, taken).(mem := s'.mem)
  {
    hide AllWaitersOk, ProcsOk, CapsOk, CurrentOk, Trap, Recv, RecvMsg, RecvDone, CopiedInto, AllMapped, Given, SpaceOf;
    RecvDispatch(s, ev);
    TrapIs(s, ev);
    var withCap := ev.regs.rax == SYS_RECV_CAP;
    var s0, m := Enter(s, ev), AtHead(s.eps[e], ev.regs);
    EndpointNamed(s, ev.regs.rdi % TWO_32, e + 1);
    RecvMsgTakes(s0, withCap, e, m);
    var s1 := WithRing(s0, e, s.eps[e].(head := s.eps[e].head + 1));
    SameSpace(s, s1, s.cr3);
    c, caps := RecvDoneGives(s1, withCap, m);
    var s2 := s1.(mem := RecvDone(s1, Cf(s), withCap, m).mem);
    BackWith(s, ev, s2, Answer(ev.regs, ERR, 0));
    if AllMapped(SpaceOf(s, s.cr3), ev.regs.rsi, |m.bytes|) {
      BackWith(s, ev, WithCaps(s2, s.current, caps), Answer(ev.regs, |m.bytes|, c));
    }
  }

  lemma RecvMsgTakes(s: State, withCap: bool, e: nat, m: Payload)
    requires Core(s) && e < MAX_ENDPOINTS && Names(s.procs[s.current].caps, FrameAt(s, Cf(s)).rdi % TWO_32, e + 1)
    requires s.eps[e].head < s.eps[e].tail && m == AtHead(s.eps[e], FrameAt(s, Cf(s)))
    ensures RingOk(s.eps[e].(head := s.eps[e].head + 1)) && |m.bytes| <= MAX_MSG
    ensures RecvMsg(s, Cf(s), withCap) ==
              (RecvDone(WithRing(s, e, s.eps[e].(head := s.eps[e].head + 1)), Cf(s), withCap, m), 0)
  {
    hide AllWaitersOk, ProcsOk, CapsOk, CurrentOk, RecvDone;
    EndpointNamed(s, FrameAt(s, Cf(s)).rdi % TWO_32, e + 1);
  }

  lemma RecvDoneGives(s: State, withCap: bool, m: Payload) returns (c: nat, caps: seq<nat>)
    requires Wf(s) && |m.bytes| <= MAX_MSG && withCap == (FrameAt(s, Cf(s)).rax == SYS_RECV_CAP)
    ensures var (f, space) := (FrameAt(s, Cf(s)), SpaceOf(s, s.cr3));
            var s' := RecvDone(s, Cf(s), withCap, m);
            && CopiedInto(space, f.rsi, m.bytes, s.mem, s'.mem)
            && if AllMapped(space, f.rsi, |m.bytes|) then
                 && Given(s.procs[s.current].caps, if withCap then m.xfer else 0, c, caps)
                 && |caps| == CAP_SLOTS && c <= CAP_SLOTS
                 && s' == SetFrame(WithCaps(s.(mem := s'.mem), s.current, caps), Cf(s), Answer(f, |m.bytes|, c))
               else s' == SetFrame(s.(mem := s'.mem), Cf(s), Answer(f, ERR, 0))
  {
    hide CopyOut, CopiedInto, AllMapped, Given, CapAlloc;
    var f, space := FrameAt(s, Cf(s)), SpaceOf(s, s.cr3);
    CopyOutIs(s.mem, space, f.rsi, m.bytes);
    var s1 := s.(mem := CopyOut(s.mem, space, f.rsi, m.bytes, 0).0);
    c, caps := CapAllocGives(s1, s.current, if withCap then m.xfer else 0);
    NothingGiven(s1, s.current);
  }

  // ---- giving up the processor ----

  lemma SwitchTrap(s: State, ev: Event)
    requires Inv(s) && (ev.kind == Timer || ev.regs.rax == SYS_YIELD)
    ensures var f := if ev.kind == Timer then ev.regs else ev.regs.(rax := 0);
            var s0 := s.(mem := ev.mem, frames := s.frames[Cf(s) := f]);
            && Wf(s0) && Cf(s0) == Cf(s)
            && var (s1, next) := SwitchFrom(s0, Cf(s)); Trap(s, ev) == Leave(s1, Cf(s), next)
  {
    hide AllWaitersOk, CapsOk, SwitchFrom;
    QuietKeeps(s, ev.regs, ev.mem);
    Rewritten(s.frames, Cf(s), ev.regs, ev.regs.(rax := 0));
  }

  /** The caller's registers are f, saved at the top of its stack. */
  function Saved(s: State, ev: Event, f: Frame): State
    requires Wf(s)
  {
    Reply(s, ev, f).(procs := s.procs[s.current := s.procs[s.current].(tfRsp := Cf(s))])
  }

  /** A timer tick leaves the registers alone, YIELD answers 0. With another process ready, the next one runs, from the
      registers it was saved with. */
  lemma Switches(s: State, ev: Event, p: nat) returns (n: nat)
    requires Inv(s) && (ev.kind == Timer || ev.regs.rax == SYS_YIELD)
    requires p < MAX_PROCS && p != s.current && Ready(s.procs[p])
    ensures NextReady(s.procs, s.current, n)
    ensures Trap(s, ev) == Running(Saved(s, ev, if ev.kind == Timer then ev.regs else ev.regs.(rax := 0)), n)
  {
    hide AllWaitersOk, CapsOk, PickFrom, Trap;
    SwitchTrap(s, ev);
    var procs := s.procs[s.current := s.procs[s.current].(tfRsp := Cf(s))];
    PicksNext(procs, s.current, p);
    n := PickFrom(procs, s.current, 1);
    SameOthers(s.procs, procs, s.current, n);
    assert ProcOk(s, s.procs[n]);
  }

  /** With nobody else ready the caller goes on. */
  lemma StaysAlone(s: State, ev: Event)
    requires Inv(s) && (ev.kind == Timer || ev.regs.rax == SYS_YIELD)
    requires forall p :: 0 <= p < MAX_PROCS && p != s.current ==> !Ready(s.procs[p])
    ensures Trap(s, ev) == Saved(s, ev, if ev.kind == Timer then ev.regs else ev.regs.(rax := 0))
  {
    hide AllWaitersOk, CapsOk, PickFrom, Trap;
    SwitchTrap(s, ev);
    PickReady(s.procs[s.current := s.procs[s.current].(tfRsp := Cf(s))], s.current);
  }

  // ---- creating processes ----

  /** What a spawn shares: the endpoint that its third argument names, or none. */
  ghost predicate Shares(s: State, f: Frame, x: nat)
    requires Wf(s)
  {
    if x != 0 then Names(s.procs[s.current].caps, f.rdx % TWO_32, x)
    else forall y: nat :: !Names(s.procs[s.current].caps, f.rdx % TWO_32, y)
  }

  const NO_CAPS: seq<nat> := seq(CAP_SLOTS, _ => 0)

  /** The new address space is there, with its image. */
  function Built(s: State, ev: Event): State
    requires Wf(s)
  {
    s.(mem := ev.mem + ev.build.image, spaces := s.spaces[ev.build.cr3 := ev.build.space], ret := Cf(s))
  }

  predicate IsSpawn(ev: Event) { ev.kind == Syscall && ev.regs.rax == SYS_SPAWN }

  lemma SpawnDispatch(s: State, ev: Event)
    requires Inv(s) && IsSpawn(ev)
    ensures Trap(s, ev) == Leave(Spawn(Enter(s, ev), Cf(s), ev.build), Cf(s), 0)
  {
    hide AllWaitersOk, ProcsOk, CapsOk, Spawn;
    TrapIs(s, ev);
  }

  /** Only program 1 exists. */
  lemma SpawnRefused(s: State, ev: Event)
    requires Inv(s) && IsSpawn(ev) && ev.regs.rdi != 1
    ensures Trap(s, ev) == Reply(s, ev, ev.regs.(rax := ERR))
  {
    hide AllWaitersOk, ProcsOk, CapsOk, Trap, SpawnWith;
    SpawnDispatch(s, ev);
    TrapIs(s, ev);
    BackWith(s, ev, Enter(s, ev), ev.regs.(rax := ERR));
  }

  /** With all slots taken the parent is told the error; the address space was built for nothing. */
  lemma SpawnFindsNoSlot(s: State, ev: Event)
    requires Inv(s) && IsSpawn(ev) && ev.regs.rdi == 1 && EventOk(s, ev)
    requires forall p :: 0 <= p < MAX_PROCS ==> s.procs[p].alive
    ensures var child := ev.build.kstackTop - FRAME_SIZE;
            Trap(s, ev) == Built(s, ev).(frames := s.frames[child := Frame(0, ev.regs.rsi, 0, 0, 0, ev.build.others)]
                                                           [Cf(s) := ev.regs.(rax := ERR)])
  {
    hide AllWaitersOk, ProcsOk, CapsOk, Trap, FreeProc;
    SpawnDispatch(s, ev);
    TrapIs(s, ev);
    ChildFrame(s, ev);
    TwoWritten(s.frames, Cf(s), ev.regs, ev.build.kstackTop - FRAME_SIZE, Frame(0, ev.regs.rsi, 0, 0, 0, ev.build.others),
               ev.regs.(rax := ERR));
    assert FreeProc(s.procs, 0) == MAX_PROCS;
  }

  lemma ChildFrame(s: State, ev: Event)
    requires Inv(s) && FreshBuild(s, ev.build)
    ensures ev.build.kstackTop - FRAME_SIZE != Cf(s)
  {
    assert StacksApart(NewProc(ev.build), s.procs[s.current]);
  }

  lemma SpawnWithGives(s: State, b: Build, role: u64, x: nat, p: nat) returns (c: nat, caps: seq<nat>)
    requires Wf(s) && p < MAX_PROCS && FreeProc(s.procs, 0) == p
    ensures Given(NO_CAPS, x, c, caps) && (x != 0 ==> c == 1)
    ensures SpawnWith(s, b, role, x) ==
              (s.(mem := s.mem + b.image, spaces := s.spaces[b.cr3 := b.space],
                  procs := s.procs[p := Proc(b.kstackTop - FRAME_SIZE, b.kstackTop, b.cr3, caps, true, true, 0)],
                  frames := s.frames[b.kstackTop - FRAME_SIZE := Frame(0, role, c, 0, 0, b.others)]), p)
  {
    hide FreeProc, CapAlloc;
    var s2 := Embryo(s, b, role).(procs := s.procs[p := NewProc(b)]);
    c, caps := CapAllocGives(s2, p, x);
    Rewritten(s.frames, b.kstackTop - FRAME_SIZE, Frame(0, role, 0, 0, 0, b.others), Frame(0, role, c, 0, 0, b.others));
    assert s2.procs[p].caps == NO_CAPS && NO_CAPS[0] == 0;
    assert WithCaps(s2, p, caps).procs ==
           s.procs[p := Proc(b.kstackTop - FRAME_SIZE, b.kstackTop, b.cr3, caps, true, true, 0)];
  }

  /** Otherwise the first free slot p holds a live process on the new stack and address space. It starts with its role as
      the first argument and the number of its capability for the shared endpoint as the second, 0 for none; the parent is
      told p. */
  lemma SpawnMakes(s: State, ev: Event, p: nat, x: nat) returns (c: nat, caps: seq<nat>)
    requires Inv(s) && IsSpawn(ev) && ev.regs.rdi == 1 && EventOk(s, ev) && Shares(s, ev.regs, x)
    requires p < MAX_PROCS && !s.procs[p].alive && forall q :: 0 <= q < p ==> s.procs[q].alive
    ensures Given(NO_CAPS, x, c, caps) && (x != 0 ==> c == 1)
    ensures var (b, child) := (ev.build, ev.build.kstackTop - FRAME_SIZE);
            Trap(s, ev) == Built(s, ev).(procs := s.procs[p := Proc(child, b.kstackTop, b.cr3, caps, true, true, 0)],
                                         frames := s.frames[child := Frame(0, ev.regs.rsi, c, 0, 0, b.others)]
                                                           [Cf(s) := ev.regs.(rax := p)])
  {
    hide AllWaitersOk, ProcsOk, CapsOk, Trap, FreeProc, CapAlloc;
    SpawnDispatch(s, ev);
    TrapIs(s, ev);
    ChildFrame(s, ev);
    LookupNames(s.procs[s.current].caps, ev.regs.rdx % TWO_32);
    assert x == 0 ==> !Names(s.procs[s.current].caps, ev.regs.rdx % TWO_32, CurrentLookup(s, ev.regs.rdx % TWO_32));
    assert FreeProc(s.procs, 0) == p;
    c, caps := SpawnWithGives(Enter(s, ev), ev.build, ev.regs.rsi, x, p);
    TwoWritten(s.frames, Cf(s), ev.regs, ev.build.kstackTop - FRAME_SIZE, Frame(0, ev.regs.rsi, c, 0, 0, ev.build.others),
               ev.regs.(rax := p));
  }
}
