/** The message rings inside the running kernel: whatever traps happen, each ring moves only by sends and receives, so
    it always holds the end of the log of everything sent to its endpoint. */
module Mailboxes {
  import opened Words
  import opened Rings
  import opened Machine
  import opened Invariant
  import opened Runs
  import opened Calls

  ghost predicate SameMessages(r: Ring, r': Ring) { r'.head == r.head && r'.tail == r.tail && r'.buf == r.buf }

  /** What one trap can do to the messages of a ring. */
  datatype RingEvent = Quiet | Sent(bytes: seq<int>, xfer: nat) | Received(max: nat)

  ghost predicate RingStep(r: Ring, r': Ring, ev: RingEvent) {
    RingOk(r) &&
    match ev
    case Quiet => SameMessages(r, r')
    case Sent(bytes, xfer) => r' == Send(r, bytes, xfer).0
    case Received(max) => r' == Recv(r, max).0
  }

  lemma CapAllocRings(s: State, pid: nat, ep: nat)
    requires Wf(s)
    ensures CapAlloc(s, pid, ep).0.eps == s.eps
  {
  }

  lemma DeliverRings(s: State, pid: nat, msg: seq<int>, xfer: nat)
    requires Wf(s)
    ensures Deliver(s, pid, msg, xfer).0.eps == s.eps
  {
    if pid < MAX_PROCS {
      var f := FrameAt(s, s.procs[pid].tfRsp);
      var n := Min(Min(f.rdx, MAX_MSG), |msg|);
      CapAllocRings(s.(mem := CopyOut(s.mem, SpaceOf(s, s.procs[pid].cr3), f.rsi, msg[..n], 0).0), pid, xfer);
    }
  }

  /** Nobody waits, and the ring takes another message. */
  ghost predicate Room(r: Ring) { RingOk(r) && WaitList(r) == [] && !RingFull(r) }

  /** In this trap a message goes into the queue of endpoint e + 1. */
  ghost predicate Accepts(s: State, ev: Event, e: nat, bytes: seq<int>, xfer: nat)
    requires Wf(s)
  {
    e < MAX_ENDPOINTS && SentBy(s, ev, e, bytes, xfer) && Room(s.eps[e])
  }

  /** In this trap a message leaves the queue of endpoint e + 1. */
  predicate Takes(s: State, ev: Event, e: nat)
    requires Wf(s)
  {
    && e < MAX_ENDPOINTS && Receives(ev) && Names(s.procs[s.current].caps, ev.regs.rdi % TWO_32, e + 1)
    && s.eps[e].head < s.eps[e].tail
  }

  lemma SendRings(s: State, tf: int, xfer: nat, e: nat) returns (ev: RingEvent)
    requires Wf(s) && e < MAX_ENDPOINTS
    ensures RingStep(s.eps[e], SendMsg(s, tf, xfer).eps[e], ev) && !ev.Received?
    ensures ev.Sent? ==> ev.xfer == xfer
    ensures forall bytes :: ev == Sent(bytes, xfer) <==> Sends(s, FrameAt(s, tf), s.mem, e, bytes) && Room(s.eps[e])
  {
    hide Deliver, Send, CopyIn, Sends, RingFull, WaitList;
    SendsIs(s, FrameAt(s, tf), s.mem, e);
    ev := Quiet;
    var f := FrameAt(s, tf);
    var msg := CopyIn(s.mem, SpaceOf(s, s.cr3), f.rsi, Min(f.rdx, MAX_MSG));
    var ep := CurrentLookup(s, f.rdi % TWO_32);
    if msg.Some? && ep == e + 1 {
      RingOpsOk(s.eps[e], 0, msg.value, xfer, 0);
      PopTakesFirst(s.eps[e]);
      SendEnqueues(s.eps[e], msg.value, xfer);
      var (popped, waiter) := WaiterPop(s.eps[e]);
      if waiter.Some? {
        DeliverRings(SetRing(s, ep, popped), waiter.value, msg.value, xfer);
      } else if Send(s.eps[e], msg.value, xfer).1 {
        ev := Sent(msg.value, xfer);
      }
    } else if msg.Some? && 0 < ep <= MAX_ENDPOINTS {
      RingOpsOk(s.eps[ep - 1], 0, msg.value, xfer, 0);
      var (popped, waiter) := WaiterPop(s.eps[ep - 1]);
      if waiter.Some? {
        DeliverRings(SetRing(s, ep, popped), waiter.value, msg.value, xfer);
      }
    }
  }

  lemma PushQuiet(r: Ring, pid: nat)
    requires RingOk(r)
    ensures SameMessages(r, WaiterPush(r, pid).0) && RingOk(WaiterPush(r, pid).0)
  {
  }

  lemma FailRings(s: State, tf: int, withCap: bool)
    ensures forall code: u64 :: RecvFail(s, tf, withCap, code).eps == s.eps
  {
  }

  lemma TakesOne(r: Ring, max: nat)
    requires RingOk(r)
    ensures Recv(r, max).1.Some? <==> r.head < r.tail
  {
  }

  lemma RecvRings(s: State, tf: int, withCap: bool, e: nat) returns (ev: RingEvent)
    requires Wf(s) && e < MAX_ENDPOINTS
    ensures RingStep(s.eps[e], RecvMsg(s, tf, withCap).0.eps[e], ev) && !ev.Sent?
    ensures ev.Received? <==>
              Names(s.procs[s.current].caps, FrameAt(s, tf).rdi % TWO_32, e + 1) && s.eps[e].head < s.eps[e].tail
  {
    hide Recv, WaiterPush, SwitchFrom, RecvDone, RecvFail, HasOtherRunnable, RingOk;
    ev := Quiet;
    var f := FrameAt(s, tf);
    var ep := CurrentLookup(s, f.rdi % TWO_32);
    LookupNames(s.procs[s.current].caps, f.rdi % TWO_32);
    if 0 < ep <= MAX_ENDPOINTS {
      var ring, max := s.eps[ep - 1], Min(f.rdx, MAX_MSG);
      RingOpsOk(ring, s.current, [], 0, max);
      TakesOne(ring, max);
      var (ring', got) := Recv(ring, max);
      if got.Some? {
        RecvDoneRings(SetRing(s, ep, ring'), tf, withCap, got.value);
        if ep == e + 1 {
          ev := Received(max);
        }
      } else {
        PushQuiet(ring, s.current);
        var waiting := WaiterPush(ring, s.current).0;
        SwitchRings(Block(SetRing(s, ep, waiting), ep), tf);
        FailRings(s, tf, withCap);
      }
    } else {
      FailRings(s, tf, withCap);
    }
  }

  lemma RecvDoneRings(s: State, tf: int, withCap: bool, p: Payload)
    requires Wf(s) && |p.bytes| <= MAX_MSG
    ensures RecvDone(s, tf, withCap, p).eps == s.eps
  {
    var f := FrameAt(s, tf);
    CapAllocRings(s.(mem := CopyOut(s.mem, SpaceOf(s, s.cr3), f.rsi, p.bytes, 0).0), s.current, p.xfer);
  }

  lemma SpawnRings(s: State, tf: int, b: Build)
    requires Wf(s)
    ensures Spawn(s, tf, b).eps == s.eps
  {
  }

  lemma SentWhole(s: State, ev: Event, e: nat, bytes: seq<int>, xfer: nat)
    requires Wf(s) && SentBy(s, ev, e, bytes, xfer)
    ensures Clip(bytes) == bytes
  {
  }

  lemma TrapRings(s: State, ev: Event, e: nat) returns (rev: RingEvent)
    requires Wf(s) && e < MAX_ENDPOINTS
    ensures RingStep(s.eps[e], Trap(s, ev).eps[e], rev)
    ensures forall bytes, xfer :: rev == Sent(bytes, xfer) <==> Accepts(s, ev, e, bytes, xfer)
    ensures rev.Received? <==> Takes(s, ev, e)
  {
    hide SendMsg, RecvMsg, Spawn, SwitchFrom, Room;
    LookupNames(s.procs[s.current].caps, ev.regs.rcx % TWO_32);
    var tf := EntryFrame(s.rsp0);
    var s0 := Enter(s, ev);
    var f := FrameAt(s0, tf);
    rev := Quiet;
    if ev.kind == Timer {
      SwitchRings(s0, tf);
    } else if f.rax == SYS_YIELD {
      SwitchRings(SetRax(s0, tf, 0), tf);
    } else if f.rax == SYS_SEND {
      rev := SendRings(s0, tf, 0, e);
    } else if f.rax == SYS_SEND_CAP {
      rev := SendRings(s0, tf, CurrentLookup(s0, f.rcx % TWO_32), e);
      if f.rcx % TWO_32 != 0 && CurrentLookup(s0, f.rcx % TWO_32) == 0 {
        rev := Quiet;
      }
    } else if f.rax == SYS_RECV {
      rev := RecvRings(s0, tf, false, e);
    } else if f.rax == SYS_RECV_CAP {
      rev := RecvRings(s0, tf, true, e);
    } else if f.rax == SYS_SPAWN {
      SpawnRings(s0, tf, ev.build);
    }
  }

  /** Whatever appears in a message slot was sent there in that trap: its bytes and its endpoint are those of the send. */
  lemma SlotChange(s: State, ev: Event, e: nat, j: nat) returns (bytes: seq<int>)
    requires Wf(s) && e < MAX_ENDPOINTS && j < Q_LEN && Trap(s, ev).eps[e].buf[j] != s.eps[e].buf[j]
    ensures var (r, r') := (s.eps[e], Trap(s, ev).eps[e]);
            && SentBy(s, ev, e, bytes, r'.buf[j].xfer) && PayloadOf(r'.buf[j]) == Payload(bytes, r'.buf[j].xfer)
            && j == r.tail % Q_LEN && r'.tail == r.tail + 1
  {
    var rev := TrapRings(s, ev, e);
    hide Trap;
    bytes := rev.bytes;
    SentWhole(s, ev, e, bytes, rev.xfer);
    assert bytes[..|bytes|] == bytes;
  }

  lemma SwitchRings(s: State, tf: int)
    requires Wf(s)
    ensures SwitchFrom(s, tf).0.eps == s.eps
  {
  }

  lemma StepKeepsLog(r: Ring, r': Ring, ev: RingEvent, log: seq<Payload>) returns (log': seq<Payload>)
    requires RingStep(r, r', ev) && RingOk(r') && Logged(r, log) && Bounded(r) && (ev.Sent? ==> !RingFull(r))
    requires ev.Received? ==> r.head < r.tail
    ensures Logged(r', log') && Bounded(r') && r'.head == r.head + if ev.Received? then 1 else 0
    ensures log' == if ev.Sent? then log + [Payload(Clip(ev.bytes), ev.xfer)] else log
  {
    match ev
    case Quiet => log' := log;
    case Sent(bytes, xfer) =>
      SendLogged(r, log, bytes, xfer);
      log' := log + [Payload(Clip(bytes), xfer)];
    case Received(max) =>
      RecvLogged(r, log, max);
      log' := log;
  }

  lemma EmptyLog(states: seq<State>, events: seq<Event>, e: nat)
    requires IsRun(states, events) && e < MAX_ENDPOINTS && Wf(states[0])
    ensures Logged(states[0].eps[e], []) && Bounded(states[0].eps[e])
  {
    var b: Build :| IsBoot(states[0], b);
    assert states[0].eps[e] == EmptyRing();
  }

  lemma RunIsWf(s: State)
    requires Inv(s)
    ensures Wf(s) && forall e :: 0 <= e < MAX_ENDPOINTS ==> RingOk(s.eps[e])
  {
  }

  /** The log grows by the message that goes into the queue in this trap, and only by that; the head moves when a message
      leaves it, and only then. */
  ghost predicate LogStep(s: State, ev: Event, s': State, e: nat, log: seq<Payload>, log': seq<Payload>)
    requires e < MAX_ENDPOINTS && Wf(s) && Wf(s')
  {
    && (forall bytes, xfer :: log' == log + [Payload(bytes, xfer)] <==> Accepts(s, ev, e, bytes, xfer))
    && (log' == log <==> forall bytes, xfer :: !Accepts(s, ev, e, bytes, xfer))
    && s'.eps[e].head == s.eps[e].head + if Takes(s, ev, e) then 1 else 0
  }

  lemma LogMoves(s: State, ev: Event, e: nat, log: seq<Payload>) returns (log': seq<Payload>)
    requires Wf(s) && e < MAX_ENDPOINTS && Logged(s.eps[e], log) && Bounded(s.eps[e])
    ensures Logged(Trap(s, ev).eps[e], log') && Bounded(Trap(s, ev).eps[e]) && LogStep(s, ev, Trap(s, ev), e, log, log')
  {
    hide Logged, Bounded, SentBy, Trap, Send, Recv, RingFull, WaitList;
    var rev := TrapRings(s, ev, e);
    if rev.Sent? {
      assert Accepts(s, ev, e, rev.bytes, rev.xfer);
      SentWhole(s, ev, e, rev.bytes, rev.xfer);
    }
    log' := StepKeepsLog(s.eps[e], Trap(s, ev).eps[e], rev, log);
    forall bytes, xfer ensures log' == log + [Payload(bytes, xfer)] <==> Accepts(s, ev, e, bytes, xfer) {
      assert rev == Sent(bytes, xfer) <==> Accepts(s, ev, e, bytes, xfer);
      assert log' == log + [Payload(bytes, xfer)] ==> log'[|log|] == Payload(bytes, xfer);
    }
  }

  /** In every reachable state the ring refuses a message iff fewer than 32 have left it and 31 wait. */
  lemma FullAtBacklog(r: Ring)
    requires RingOk(r) && Bounded(r)
    ensures RingFull(r) <==> r.head < Q_LEN && r.tail - r.head == Q_LEN - 1
  {
  }

  /** Over every run of the kernel: each endpoint has one log, which grows exactly by the messages that valid sends put into
      the queue, one each; at every moment the ring's counters count it, its slots hold its last 32 entries, and before the
      first lap at most 31 wait. The head moves on by one exactly at each receive that takes a message. What a receive
      returns is then as for the ring alone. */
  lemma {:induction false} EndpointHistory(states: seq<State>, events: seq<Event>, e: nat, n: nat)
    returns (logs: seq<seq<Payload>>)
    requires IsRun(states, events) && n <= |events| && e < MAX_ENDPOINTS
    ensures |logs| == n + 1 && logs[0] == []
    ensures forall i :: 0 <= i <= n ==> Wf(states[i]) && Logged(states[i].eps[e], logs[i]) && Bounded(states[i].eps[e])
    ensures forall i :: 0 <= i < n ==> LogStep(states[i], events[i], states[i + 1], e, logs[i], logs[i + 1])
  {
    hide Inv, Core, Logged, Bounded, LogStep, Trap, RingOk;
    RunInv(states, events, n);
    RunIsWf(states[n]);
    if n == 0 {
      EmptyLog(states, events, e);
      logs := [[]];
    } else {
      var before := EndpointHistory(states, events, e, n - 1);
      assert StepAt(states, events, n - 1);
      var log := LogMoves(states[n - 1], events[n - 1], e, before[n - 1]);
      logs := before + [log];
      forall i | 0 <= i < n ensures LogStep(states[i], events[i], states[i + 1], e, logs[i], logs[i + 1]) {
        if i < n - 1 {
          assert LogStep(states[i], events[i], states[i + 1], e, before[i], before[i + 1]);
        }
      }
    }
  }

  /** Over every run: a valid send where nobody waits puts its message into the queue and is told its length, unless fewer
      than 32 messages have left the queue and 31 are in it; then it is told so, and nothing happens. */
  lemma SendIsQueued(states: seq<State>, events: seq<Event>, i: nat, e: nat, bytes: seq<int>, xfer: nat)
    requires IsRun(states, events) && i < |events| && Wf(states[i]) && e < MAX_ENDPOINTS
    requires SentBy(states[i], events[i], e, bytes, xfer) && WaitList(states[i].eps[e]) == []
    ensures var (s, ev, r) := (states[i], events[i], states[i].eps[e]);
            if r.head < Q_LEN && r.tail - r.head == Q_LEN - 1 then states[i + 1] == Reply(s, ev, ev.regs.(rax := FULL))
            else
              && Wf(states[i + 1]) && Enqueued(r, states[i + 1].eps[e], Payload(bytes, xfer))
              && states[i + 1] == WithRing(Reply(s, ev, ev.regs.(rax := |bytes|)), e, states[i + 1].eps[e])
  {
    hide SentBy, Trap, Enqueued, LogStep, Logged;
    RunInv(states, events, i);
    assert StepAt(states, events, i);
    var logs := EndpointHistory(states, events, e, i);
    FullAtBacklog(states[i].eps[e]);
    SendQueues(states[i], events[i], e, bytes, xfer);
  }

  /** The message that a receive takes is the newest entry of the log whose number is congruent to the head modulo 32, cut to
      what the receive asks for: entry number head itself iff at most 32 messages wait. */
  lemma HeadIsLogged(r: Ring, log: seq<Payload>, f: Frame)
    requires Logged(r, log) && r.head < r.tail
    ensures var sent := log[Latest(r.head, r.tail)];
            AtHead(r, f) == Payload(sent.bytes[..Min(|sent.bytes|, Min(f.rdx, MAX_MSG))], sent.xfer)
  {
    var n, m := Latest(r.head, r.tail), r.buf[r.head % Q_LEN];
    assert PayloadOf(r.buf[n % Q_LEN]) == log[n];
    assert m.data[..m.len][..Min(m.len, Min(f.rdx, MAX_MSG))] == m.data[..Min(m.len, Min(f.rdx, MAX_MSG))];
  }
}
