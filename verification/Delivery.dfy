/** Direct delivery to a blocked receiver against the slow way: queue the message, wake the receiver, and let
    it run its own receive. */
module Delivery {
  import opened Words
  import opened Rings
  import opened Machine
  import opened Invariant
  import opened Runs
  import opened UserCopy

  /** The sleeper that is served next on endpoint e + 1. */
  function First(s: State, e: nat): nat
    requires Wf(s) && e < MAX_ENDPOINTS && WaitList(s.eps[e]) != []
  {
    WaitList(s.eps[e])[0]
  }

  function Popped(s: State, e: nat): (s': State)
    requires Wf(s) && e < MAX_ENDPOINTS
    ensures Wf(s')
  {
    RingOpsOk(s.eps[e], 0, [], 0, 0);
    SetRing(s, e + 1, WaiterPop(s.eps[e]).0)
  }

  /** The fast way. */
  function Direct(s: State, e: nat, msg: seq<int>, xfer: nat): (r: (State, u64))
    requires Wf(s) && e < MAX_ENDPOINTS && WaitList(s.eps[e]) != []
    ensures Wf(r.0)
  {
    Deliver(Popped(s, e), First(s, e), msg, xfer)
  }

  /** The receiver is awake, running in its own address space, and the message is in the ring. */
  function Requeued(s: State, e: nat, msg: seq<int>, xfer: nat): (r: State)
    requires Wf(s) && e < MAX_ENDPOINTS && WaitList(s.eps[e]) != [] && First(s, e) < MAX_PROCS
    ensures Wf(r)
  {
    var p := First(s, e);
    var s1 := Popped(s, e);
    RingOpsOk(s1.eps[e], 0, msg, xfer, 0);
    var s2 := Wake(SetRing(s1, e + 1, Send(s1.eps[e], msg, xfer).0), p);
    s2.(current := p, cr3 := s2.procs[p].cr3, rsp0 := s2.procs[p].kstackTop, nextCr3 := s2.procs[p].cr3)
  }

  /** The slow way: the receiver then executes the receive call that its saved registers ask for. */
  function Queued(s: State, e: nat, msg: seq<int>, xfer: nat, withCap: bool): (r: (State, int))
    requires Wf(s) && e < MAX_ENDPOINTS && WaitList(s.eps[e]) != [] && First(s, e) < MAX_PROCS
    ensures Wf(r.0)
  {
    RecvMsg(Requeued(s, e, msg, xfer), Tf(s, First(s, e)), withCap)
  }

  /** A waiter excludes a queued message, so the send of the slow way is accepted and the receive that
      follows gets this very message, cut to the receiver's length. */
  lemma RequeuedMessage(s: State, e: nat, msg: seq<int>, xfer: nat)
    requires Core(s) && e < MAX_ENDPOINTS && WaitList(s.eps[e]) != [] && |msg| <= MAX_MSG
    ensures RingOk(Popped(s, e).eps[e]) && Send(Popped(s, e).eps[e], msg, xfer).1
    ensures Sleeping(s, e, First(s, e))
    ensures var q := Requeued(s, e, msg, xfer);
            var f := FrameAt(s, Tf(s, First(s, e)));
            var (ring', got) := Recv(q.eps[e], Min(f.rdx, MAX_MSG));
            && FrameAt(q, Tf(s, First(s, e))) == f && CurrentLookup(q, f.rdi % TWO_32) == e + 1
            && got == Some(Payload(msg[..Min(Min(f.rdx, MAX_MSG), |msg|)], xfer))
            && RingOk(ring') && ring'.head == ring'.tail
  {
    assert WaitersOk(s, e);
    PopTakesFirst(s.eps[e]);
    var p := First(s, e);
    assert Sleeping(s, e, WaitList(s.eps[e])[0]);
    assert ProcOk(s, s.procs[p]);
    var r := WaiterPop(s.eps[e]).0;
    assert (r.tail + 1) % Q_LEN != r.head;
    var f := FrameAt(s, Tf(s, p));
    var m := Send(r, msg, xfer).0.buf[r.tail % Q_LEN];
    var n := Min(Min(f.rdx, MAX_MSG), |msg|);
    assert m.data[..n] == msg[..n];
  }

  // ---- the outcome in terms of one copy and one capability allocation ----

  function CutFor(s: State, p: nat, msg: seq<int>): seq<int>
    requires Wf(s) && p < MAX_PROCS
  {
    msg[..CutLength(s, p, |msg|)]
  }

  function Copied(s: State, p: nat, msg: seq<int>): (map<int, int>, bool)
    requires Wf(s) && p < MAX_PROCS
  {
    CopyOut(s.mem, SpaceOf(s, s.procs[p].cr3), FrameAt(s, Tf(s, p)).rsi, CutFor(s, p, msg), 0)
  }

  /** The capability number that a transfer of xfer gives p; 0 for none. */
  function CapFor(s: State, p: nat, xfer: nat): (cap: nat)
    requires Wf(s) && p < MAX_PROCS
    ensures cap <= CAP_SLOTS
  {
    var i := FirstFree(s.procs[p].caps, 0);
    if xfer == 0 || i == CAP_SLOTS then 0 else i + 1
  }

  function Awake(p: Proc): Proc { p.(runnable := true, blockedEp := 0) }

  function Enriched(s: State, p: nat, xfer: nat): Proc
    requires Wf(s) && p < MAX_PROCS
  {
    var cap := CapFor(s, p, xfer);
    if cap == 0 then Awake(s.procs[p])
    else Awake(s.procs[p]).(caps := s.procs[p].caps[cap - 1 := xfer])
  }

  lemma DirectFields(s: State, e: nat, msg: seq<int>, xfer: nat)
    requires Core(s) && e < MAX_ENDPOINTS && WaitList(s.eps[e]) != [] && Sleeping(s, e, First(s, e))
    ensures var (d, rax) := Direct(s, e, msg, xfer);
            var p := First(s, e);
            var f := FrameAt(s, Tf(s, p));
            var n := |CutFor(s, p, msg)|;
            && d.mem == Copied(s, p, msg).0 && d.spaces == s.spaces && d.eps == Popped(s, e).eps
            && (!Copied(s, p, msg).1 ==> rax == ERR && d.procs == s.procs && d.frames == s.frames)
            && (Copied(s, p, msg).1 ==>
                  && rax == n && d.procs == s.procs[p := Enriched(s, p, xfer)]
                  && d.frames == s.frames[Tf(s, p) := f.(rax := n, rdx := CapFor(s, p, xfer))])
  {
    assert ProcOk(s, s.procs[First(s, e)]);
  }

  lemma QueuedFields(s: State, e: nat, msg: seq<int>, xfer: nat, withCap: bool)
    requires Core(s) && e < MAX_ENDPOINTS && WaitList(s.eps[e]) != [] && |msg| <= MAX_MSG
    ensures Sleeping(s, e, First(s, e))
    ensures var (q, next) := Queued(s, e, msg, xfer, withCap);
            var p := First(s, e);
            var f := FrameAt(s, Tf(s, p));
            var n := |CutFor(s, p, msg)|;
            && next == 0 && q.mem == Copied(s, p, msg).0 && q.spaces == s.spaces
            && q.eps[e].head == q.eps[e].tail
            && (!Copied(s, p, msg).1 ==> q.procs == s.procs[p := Awake(s.procs[p])])
            && (Copied(s, p, msg).1 && withCap ==>
                  && q.procs == s.procs[p := Enriched(s, p, xfer)]
                  && q.frames == s.frames[Tf(s, p) := f.(rax := n, rdx := CapFor(s, p, xfer))])
            && (Copied(s, p, msg).1 && !withCap ==>
                  && q.procs == s.procs[p := Awake(s.procs[p])]
                  && q.frames == s.frames[Tf(s, p) := f.(rax := n)])
  {
    RequeuedMessage(s, e, msg, xfer);
    var p := First(s, e);
    assert ProcOk(s, s.procs[p]);
    hide Core, CopyOut, Send, WaiterPop, Recv;
    var q := Requeued(s, e, msg, xfer);
    var f := FrameAt(s, Tf(s, p));
    var (ring', got) := Recv(q.eps[e], Min(f.rdx, MAX_MSG));
    assert Queued(s, e, msg, xfer, withCap) == (RecvDone(SetRing(q, e + 1, ring'), Tf(s, p), withCap, got.value), 0);
  }

  /** The first waiter sleeps in this system call. */
  ghost predicate WaitsIn(s: State, e: nat, call: int)
    requires Wf(s) && e < MAX_ENDPOINTS
  {
    && WaitList(s.eps[e]) != [] && First(s, e) < MAX_PROCS && FrameAt(s, Tf(s, First(s, e))).rax == call
  }

  /** For a receiver in IPC_RECV_CAP the fast way and the slow way agree on its buffer, its registers, its
      capability table and all other processes, exactly when its buffer can take the message. Either way
      no message stays behind. */
  lemma DirectRefinesQueued(s: State, e: nat, msg: seq<int>, xfer: nat)
    requires Core(s) && e < MAX_ENDPOINTS && WaitsIn(s, e, SYS_RECV_CAP) && |msg| <= MAX_MSG
    ensures var (d, q) := (Direct(s, e, msg, xfer).0, Queued(s, e, msg, xfer, true).0);
            && d.mem == q.mem && d.spaces == q.spaces
            && (d.procs == q.procs && d.frames == q.frames <==> BufferTakes(s, First(s, e), msg))
            && d.eps[e].head == d.eps[e].tail && q.eps[e].head == q.eps[e].tail
  {
    BufferTakesIff(s, First(s, e), msg);
    QueuedFields(s, e, msg, xfer, true);
    DirectFields(s, e, msg, xfer);
    NothingQueued(s, e);
    var p := First(s, e);
    assert Awake(s.procs[p]) != s.procs[p];
  }

  lemma NothingQueued(s: State, e: nat)
    requires Core(s) && e < MAX_ENDPOINTS && WaitList(s.eps[e]) != []
    ensures Popped(s, e).eps[e].head == Popped(s, e).eps[e].tail
  {
    assert WaitersOk(s, e);
    PopTakesFirst(s.eps[e]);
  }

  /** For a receiver in plain IPC_RECV they differ even then: the fast way installs the transferred
      endpoint and overwrites rdx, the slow way does neither. */
  lemma PlainReceiveDiffers(s: State, e: nat, msg: seq<int>, xfer: nat)
    requires Core(s) && e < MAX_ENDPOINTS && WaitsIn(s, e, SYS_RECV) && |msg| <= MAX_MSG
    requires BufferTakes(s, First(s, e), msg)
    ensures var (d, q) := (Direct(s, e, msg, xfer).0, Queued(s, e, msg, xfer, false).0);
            var p := First(s, e);
            && d.mem == q.mem
            && (d.procs == q.procs <==> CapFor(s, p, xfer) == 0)
            && (d.frames == q.frames <==> FrameAt(s, Tf(s, p)).rdx == CapFor(s, p, xfer))
  {
    BufferTakesIff(s, First(s, e), msg);
    QueuedFields(s, e, msg, xfer, false);
    DirectFields(s, e, msg, xfer);
    var p := First(s, e);
    var (d, q) := (Direct(s, e, msg, xfer).0, Queued(s, e, msg, xfer, false).0);
    assert d.procs[p].caps == q.procs[p].caps <==> CapFor(s, p, xfer) == 0 by {
      if CapFor(s, p, xfer) != 0 {
        assert d.procs[p].caps[CapFor(s, p, xfer) - 1] == xfer;
      }
    }
    assert d.frames[Tf(s, p)].rdx == CapFor(s, p, xfer) && q.frames[Tf(s, p)].rdx == FrameAt(s, Tf(s, p)).rdx;
  }

  /** The sender can tell the two ways apart exactly when the receiver asked for less than was sent. */
  lemma SenderSees(s: State, e: nat, msg: seq<int>, xfer: nat)
    requires Core(s) && e < MAX_ENDPOINTS && WaitList(s.eps[e]) != [] && |msg| <= MAX_MSG
    requires First(s, e) < MAX_PROCS && BufferTakes(s, First(s, e), msg)
    ensures Direct(s, e, msg, xfer).1 == |msg| <==> FrameAt(s, Tf(s, First(s, e))).rdx >= |msg|
  {
    BufferTakesIff(s, First(s, e), msg);
    QueuedFields(s, e, msg, xfer, true);
    DirectFields(s, e, msg, xfer);
  }

  /** After a direct delivery the receiver's buffer holds the message, cut to the length it asked for. */
  lemma MessageArrives(s: State, e: nat, msg: seq<int>, xfer: nat)
    requires Core(s) && e < MAX_ENDPOINTS && WaitList(s.eps[e]) != [] && |msg| <= MAX_MSG
    requires First(s, e) < MAX_PROCS && BufferTakes(s, First(s, e), msg)
    requires var p := First(s, e);
             OneToOne(SpaceOf(s, s.procs[p].cr3), FrameAt(s, Tf(s, p)).rsi, |CutFor(s, p, msg)|)
    ensures var (d, p) := (Direct(s, e, msg, xfer).0, First(s, e));
            var n := Min(Min(FrameAt(s, Tf(s, p)).rdx, MAX_MSG), |msg|);
            CopyIn(d.mem, SpaceOf(d, d.procs[p].cr3), FrameAt(s, Tf(s, p)).rsi, n) == Some(msg[..n])
  {
    BufferTakesIff(s, First(s, e), msg);
    QueuedFields(s, e, msg, xfer, true);
    DirectFields(s, e, msg, xfer);
    var p := First(s, e);
    CopyRoundTrip(s.mem, SpaceOf(s, s.procs[p].cr3), FrameAt(s, Tf(s, p)).rsi, CutFor(s, p, msg));
  }
}
