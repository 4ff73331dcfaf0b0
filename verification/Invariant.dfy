/** What every reachable kernel state satisfies, and that every trap keeps it. */
module Invariant {
  import opened Words
  import opened Rings
  import opened Machine

  /** Endpoint ids handed out so far. */
  function Issued(s: State): nat { Min(s.nextEp, MAX_ENDPOINTS) }

  ghost predicate Holds(s: State, p: int, ep: int)
    requires Wf(s)
  {
    0 <= p < MAX_PROCS && s.procs[p].alive && ep != 0 &&
    exists i :: 0 <= i < CAP_SLOTS && s.procs[p].caps[i] == ep
  }

  /** Where a frame can lie on the kernel stack with this top: where the builder of a process puts its first frame, or
      where the processor pushes. */
  predicate AtTop(top: int, tf: int) { tf == top - FRAME_SIZE || tf == EntryFrame(top) }

  /** A live process owns its kernel stack; its saved frame lies at the top of that stack. */
  ghost predicate ProcOk(s: State, p: Proc) {
    p.alive ==>
      && p.kstackTop > KSTACK_SIZE && AtTop(p.kstackTop, p.tfRsp)
      && p.tfRsp in s.frames && p.cr3 in s.spaces
      && (p.runnable ==> p.blockedEp == 0)
  }

  predicate StacksApart(p: Proc, q: Proc) {
    p.kstackTop - q.kstackTop >= KSTACK_SIZE || q.kstackTop - p.kstackTop >= KSTACK_SIZE
  }

  ghost predicate ProcsOk(s: State)
    requires Wf(s)
  {
    && (forall p :: 0 <= p < MAX_PROCS ==> ProcOk(s, s.procs[p]))
    && (forall p, q :: 0 <= p < q < MAX_PROCS && s.procs[p].alive && s.procs[q].alive ==>
          StacksApart(s.procs[p], s.procs[q]) && s.procs[p].cr3 != s.procs[q].cr3)
  }

  /** The current process is live and runnable, and the next trap and the next address-space load are its own. */
  ghost predicate CurrentOk(s: State)
    requires Wf(s)
  {
    var p := s.procs[s.current];
    Ready(p) && s.rsp0 == p.kstackTop && s.nextCr3 == p.cr3
  }

  /** p sleeps in a receive on endpoint e + 1: its saved registers name a capability to that endpoint. */
  ghost predicate Sleeping(s: State, e: nat, p: int)
    requires Wf(s)
  {
    && 0 <= p < MAX_PROCS && s.procs[p].alive && !s.procs[p].runnable && s.procs[p].blockedEp == e + 1
    && s.procs[p].tfRsp == EntryFrame(s.procs[p].kstackTop)
    && var f := FrameAt(s, s.procs[p].tfRsp);
       CapLookup(s.procs[p].caps, f.rdi % TWO_32) == e + 1 && (f.rax == SYS_RECV || f.rax == SYS_RECV_CAP)
  }

  ghost predicate Distinct(w: seq<nat>) {
    forall i, j :: 0 <= i < j < |w| ==> w[i] != w[j]
  }

  /** The waiter ring lists sleeping processes once each, and never together with a queued message. */
  ghost predicate WaitersOk(s: State, e: nat)
    requires Wf(s) && e < MAX_ENDPOINTS
  {
    var w := WaitList(s.eps[e]);
    && Distinct(w) && (w != [] ==> s.eps[e].head == s.eps[e].tail)
    && forall k :: 0 <= k < |w| ==> Sleeping(s, e, w[k])
  }

  ghost predicate AllWaitersOk(s: State)
    requires Wf(s)
  {
    forall e :: 0 <= e < MAX_ENDPOINTS ==> WaitersOk(s, e)
  }

  /** Only issued endpoint ids occur in capability tables and in messages. */
  ghost predicate CapsOk(s: State)
    requires Wf(s)
  {
    && (forall p, i :: 0 <= p < MAX_PROCS && 0 <= i < CAP_SLOTS ==> s.procs[p].caps[i] <= Issued(s))
    && (forall e, j :: 0 <= e < MAX_ENDPOINTS && 0 <= j < Q_LEN ==> s.eps[e].buf[j].xfer <= Issued(s))
  }

  /** The invariant inside a trap. */
  ghost predicate Core(s: State) {
    Wf(s) && ProcsOk(s) && CurrentOk(s) && AllWaitersOk(s) && CapsOk(s)
  }

  /** The invariant at every trap return: the address space in force and the frame popped are the
      current process's own. */
  ghost predicate Inv(s: State) {
    && Core(s)
    && s.cr3 == s.procs[s.current].cr3
    && AtTop(s.procs[s.current].kstackTop, s.ret) && s.ret in s.frames
  }

  /** What the builder of a new process guarantees: a stack apart from all others and a new root. */
  ghost predicate FreshBuild(s: State, b: Build)
    requires Wf(s)
  {
    && b.kstackTop > KSTACK_SIZE && b.cr3 !in s.spaces
    && (forall p :: 0 <= p < MAX_PROCS && s.procs[p].alive ==> StacksApart(NewProc(b), s.procs[p]))
  }

  /** The saved frame of a process that is not running. */
  function Tf(s: State, p: nat): int
    requires Wf(s) && p < MAX_PROCS
  {
    s.procs[p].tfRsp
  }

  /** The frame of the current process inside a trap. */
  function Cf(s: State): int
    requires Wf(s)
  {
    EntryFrame(s.procs[s.current].kstackTop)
  }

  ghost predicate Entered(s: State)
    requires Wf(s)
  {
    Cf(s) in s.frames
  }

  // ---- quiet steps: nothing but memory and the current process's frame ----

  lemma QuietKeeps(s: State, f: Frame, mem: map<int, int>)
    requires Core(s)
    ensures Core(s.(frames := s.frames[Cf(s) := f], mem := mem))
  {
    var tf := Cf(s);
    var s' := s.(frames := s.frames[tf := f], mem := mem);
    assert ProcsOk(s');
    forall e | 0 <= e < MAX_ENDPOINTS ensures WaitersOk(s', e) {
      assert WaitersOk(s, e);
      var w := WaitList(s.eps[e]);
      forall k | 0 <= k < |w| ensures Sleeping(s', e, w[k]) {
        assert Sleeping(s, e, w[k]);
        OthersFrame(s, w[k], s.current);
      }
    }
  }

  lemma OthersFrame(s: State, p: nat, q: nat)
    requires Wf(s) && ProcsOk(s) && p < MAX_PROCS && q < MAX_PROCS && p != q
    requires s.procs[p].alive && s.procs[q].alive
    ensures Tf(s, p) != Tf(s, q) && Tf(s, p) != EntryFrame(s.procs[q].kstackTop)
  {
    assert ProcOk(s, s.procs[p]) && ProcOk(s, s.procs[q]);
    assert StacksApart(s.procs[p], s.procs[q]) || StacksApart(s.procs[q], s.procs[p]);
  }

  // ---- capability tables ----

  /** A table entry appears only in an empty slot. */
  lemma CapAllocEffect(s: State, pid: nat, ep: nat)
    requires Wf(s)
    ensures var (s', cap) := CapAlloc(s, pid, ep);
            && (cap == 0 ==> s' == s)
            && (cap != 0 ==>
                  && pid < MAX_PROCS && ep != 0 && cap <= CAP_SLOTS && s.procs[pid].caps[cap - 1] == 0
                  && s' == s.(procs := s.procs[pid := s.procs[pid].(caps := s.procs[pid].caps[cap - 1 := ep])]))
  {
  }

  lemma CapAllocKeeps(s: State, pid: nat, ep: nat)
    requires Core(s) && ep <= Issued(s)
    ensures Core(CapAlloc(s, pid, ep).0)
  {
    CapAllocEffect(s, pid, ep);
    var s' := CapAlloc(s, pid, ep).0;
    if s' != s {
      assert ProcsOk(s');
      forall e | 0 <= e < MAX_ENDPOINTS ensures WaitersOk(s', e) {
        assert WaitersOk(s, e);
        var w := WaitList(s.eps[e]);
        forall k | 0 <= k < |w| ensures Sleeping(s', e, w[k]) {
          assert Sleeping(s, e, w[k]);
        }
      }
    }
  }

  // ---- endpoints ----

  lemma RecvKeeps(s: State, e: nat, max: nat)
    requires Core(s) && e < MAX_ENDPOINTS
    ensures RingOk(Recv(s.eps[e], max).0)
    ensures Core(SetRing(s, e + 1, Recv(s.eps[e], max).0))
  {
    RingOpsOk(s.eps[e], 0, [], 0, max);
    var r := Recv(s.eps[e], max).0;
    var s' := SetRing(s, e + 1, r);
    assert WaitersOk(s, e);
    assert WaitList(r) == WaitList(s.eps[e])[0..];
    OtherRingsKeep(s, e, r, 0);
  }

  lemma SendKeeps(s: State, e: nat, bytes: seq<int>, xfer: nat)
    requires Core(s) && e < MAX_ENDPOINTS && WaitList(s.eps[e]) == [] && xfer <= Issued(s)
    ensures RingOk(Send(s.eps[e], bytes, xfer).0)
    ensures Core(SetRing(s, e + 1, Send(s.eps[e], bytes, xfer).0))
  {
    RingOpsOk(s.eps[e], 0, bytes, xfer, 0);
    var r := Send(s.eps[e], bytes, xfer).0;
    assert WaitList(r) == [] == WaitList(s.eps[e])[0..];
    OtherRingsKeep(s, e, r, 0);
  }

  lemma PopKeeps(s: State, e: nat)
    requires Core(s) && e < MAX_ENDPOINTS
    ensures RingOk(WaiterPop(s.eps[e]).0)
    ensures Core(SetRing(s, e + 1, WaiterPop(s.eps[e]).0))
  {
    RingOpsOk(s.eps[e], 0, [], 0, 0);
    PopTakesFirst(s.eps[e]);
    assert WaitersOk(s, e);
    OtherRingsKeep(s, e, WaiterPop(s.eps[e]).0, if WaitList(s.eps[e]) == [] then 0 else 1);
  }

  /** Replacing one ring: its own list must be a part of the old one, the others do not notice. */
  lemma OtherRingsKeep(s: State, e: nat, r: Ring, n: nat)
    requires Core(s) && e < MAX_ENDPOINTS && RingOk(r)
    requires forall j :: 0 <= j < Q_LEN ==> r.buf[j].xfer <= Issued(s)
    requires WaitList(r) != [] ==> r.head == r.tail
    requires n <= |WaitList(s.eps[e])| && WaitList(r) == WaitList(s.eps[e])[n..]
    ensures Core(SetRing(s, e + 1, r))
  {
    var s' := SetRing(s, e + 1, r);
    forall e' | 0 <= e' < MAX_ENDPOINTS ensures WaitersOk(s', e') {
      assert WaitersOk(s, e');
      var w := WaitList(s.eps[e']);
      forall k | 0 <= k < |w| ensures Sleeping(s', e', w[k]) {
        assert Sleeping(s, e', w[k]);
      }
    }
  }

  // ---- delivery ----

  ghost predicate Unlisted(s: State, p: nat)
    requires Wf(s)
  {
    forall e :: 0 <= e < MAX_ENDPOINTS ==> p !in WaitList(s.eps[e])
  }

  /** Whoever is popped is in no waiter ring any more. */
  lemma PoppedIsUnlisted(s: State, e: nat)
    requires Core(s) && e < MAX_ENDPOINTS && WaitList(s.eps[e]) != []
    ensures RingOk(WaiterPop(s.eps[e]).0)
    ensures WaiterPop(s.eps[e]).1 == Some(WaitList(s.eps[e])[0])
    ensures Sleeping(s, e, WaitList(s.eps[e])[0])
    ensures Unlisted(SetRing(s, e + 1, WaiterPop(s.eps[e]).0), WaitList(s.eps[e])[0])
  {
    PopTakesFirst(s.eps[e]);
    assert WaitersOk(s, e);
    var w := WaitList(s.eps[e]);
    assert Sleeping(s, e, w[0]);
    var s' := SetRing(s, e + 1, WaiterPop(s.eps[e]).0);
    forall e' | 0 <= e' < MAX_ENDPOINTS ensures w[0] !in WaitList(s'.eps[e']) {
      assert WaitersOk(s, e');
      forall k | 0 <= k < |WaitList(s.eps[e'])| && e' != e ensures WaitList(s.eps[e'])[k] != w[0] {
        assert Sleeping(s, e', WaitList(s.eps[e'])[k]);
      }
    }
  }

  lemma MemKeeps(s: State, mem: map<int, int>)
    requires Core(s)
    ensures Core(s.(mem := mem))
  {
    var s' := s.(mem := mem);
    assert ProcsOk(s');
    forall e | 0 <= e < MAX_ENDPOINTS ensures WaitersOk(s', e) {
      assert WaitersOk(s, e);
      var w := WaitList(s.eps[e]);
      forall k | 0 <= k < |w| ensures Sleeping(s', e, w[k]) {
        assert Sleeping(s, e, w[k]);
      }
    }
  }

  lemma WakeKeeps(s: State, pid: nat, f: Frame)
    requires Core(s) && pid < MAX_PROCS && s.procs[pid].alive && Unlisted(s, pid)
    ensures Core(Wake(SetFrame(s, s.procs[pid].tfRsp, f), pid))
  {
    var s' := Wake(SetFrame(s, s.procs[pid].tfRsp, f), pid);
    assert ProcOk(s, s.procs[pid]);
    assert ProcsOk(s');
    forall e | 0 <= e < MAX_ENDPOINTS ensures WaitersOk(s', e) {
      assert WaitersOk(s, e);
      var w := WaitList(s.eps[e]);
      forall k | 0 <= k < |w| ensures Sleeping(s', e, w[k]) {
        assert Sleeping(s, e, w[k]);
        assert w[k] in w;
        OthersFrame(s, w[k], pid);
      }
    }
  }

  lemma DeliverKeeps(s: State, pid: nat, msg: seq<int>, xfer: nat)
    requires Core(s) && pid < MAX_PROCS && s.procs[pid].alive && Unlisted(s, pid) && xfer <= Issued(s)
    ensures Core(Deliver(s, pid, msg, xfer).0) && Deliver(s, pid, msg, xfer).0.current == s.current
    ensures Cf(Deliver(s, pid, msg, xfer).0) == Cf(s)
  {
    var tf := s.procs[pid].tfRsp;
    var f := FrameAt(s, tf);
    var n := Min(Min(f.rdx, MAX_MSG), |msg|);
    var (mem, ok) := CopyOut(s.mem, SpaceOf(s, s.procs[pid].cr3), f.rsi, msg[..n], 0);
    var s1 := s.(mem := mem);
    MemKeeps(s, mem);
    if ok {
      CapAllocKeeps(s1, pid, xfer);
      CapAllocEffect(s1, pid, xfer);
      var (s2, cap) := CapAlloc(s1, pid, xfer);
      WakeKeeps(s2, pid, f.(rax := n, rdx := cap));
    }
  }

  // ---- scheduling ----

  /** The scan finds the ready process at the smallest cyclic distance, if there is one. */
  lemma {:induction false} PickNearest(procs: seq<Proc>, cur: nat, k: nat) returns (d: nat)
    requires |procs| == MAX_PROCS && cur < MAX_PROCS && 1 <= k <= MAX_PROCS + 1
    ensures k <= d <= MAX_PROCS + 1
    ensures forall i :: k <= i < d ==> !Ready(After(procs, cur, i))
    ensures d <= MAX_PROCS ==> PickFrom(procs, cur, k) == (cur + d) % MAX_PROCS && Ready(After(procs, cur, d))
    ensures d == MAX_PROCS + 1 ==> PickFrom(procs, cur, k) == cur
    decreases MAX_PROCS + 1 - k
  {
    if k > MAX_PROCS || Ready(After(procs, cur, k)) {
      d := k;
    } else {
      d := PickNearest(procs, cur, k + 1);
    }
  }

  function Distance(cur: nat, p: nat): nat
    requires cur < MAX_PROCS && p < MAX_PROCS
  {
    if p >= cur then p - cur else p + MAX_PROCS - cur
  }

  lemma StepAround(cur: nat, d: nat)
    requires cur < MAX_PROCS && d < MAX_PROCS
    ensures Distance(cur, (cur + d) % MAX_PROCS) == d
    ensures (cur + d) % MAX_PROCS == if cur + d < MAX_PROCS then cur + d else cur + d - MAX_PROCS
  {
  }

  /** A ready process other than the current one is never overtaken: whoever is picked is ready, is not
      the current process, and is at most as far away. */
  lemma PickOther(procs: seq<Proc>, cur: nat, p: nat)
    requires |procs| == MAX_PROCS && cur < MAX_PROCS && p < MAX_PROCS && p != cur && Ready(procs[p])
    ensures var next := PickFrom(procs, cur, 1);
            && next != cur && Ready(procs[next])
            && 1 <= Distance(cur, next) <= Distance(cur, p)
            && Distance(next, p) == Distance(cur, p) - Distance(cur, next)
  {
    var d := PickNearest(procs, cur, 1);
    var g := Distance(cur, p);
    StepAround(cur, g);
    assert After(procs, cur, g) == procs[p];
    assert d <= g;
    StepAround(cur, d);
  }

  lemma PickReady(procs: seq<Proc>, cur: nat)
    requires |procs| == MAX_PROCS && cur < MAX_PROCS
    ensures var next := PickFrom(procs, cur, 1); next != cur ==> Ready(procs[next])
  {
    var d := PickNearest(procs, cur, 1);
  }

  lemma SwitchKeeps(s: State)
    requires Core(s) && Entered(s)
    ensures var (s', next) := SwitchFrom(s, Cf(s));
            && Core(s') && (next == 0 ==> s'.current == s.current)
            && (next != 0 ==> next == Tf(s', s'.current) && s'.current != s.current)
            && s'.procs == s.procs[s.current := s.procs[s.current].(tfRsp := Cf(s))]
  {
    var (s', next) := SwitchFrom(s, Cf(s));
    var procs := s.procs[s.current := s.procs[s.current].(tfRsp := Cf(s))];
    assert ProcOk(s, s.procs[s.current]);
    PickReady(procs, s.current);
    assert ProcOk(s, s.procs[s'.current]);
    assert ProcsOk(s');
    forall e | 0 <= e < MAX_ENDPOINTS ensures WaitersOk(s', e) {
      assert WaitersOk(s, e);
      var w := WaitList(s.eps[e]);
      forall k | 0 <= k < |w| ensures Sleeping(s', e, w[k]) {
        assert Sleeping(s, e, w[k]);
      }
    }
  }

  // ---- blocking ----

  lemma {:induction false} DistinctCard(w: seq<nat>, all: set<nat>)
    requires Distinct(w) && forall k :: 0 <= k < |w| ==> w[k] in all
    ensures |w| <= |all|
    decreases |w|
  {
    if w != [] {
      var n := |w| - 1;
      assert forall k :: 0 <= k < n ==> w[k] != w[n];
      DistinctCard(w[..n], all - {w[n]});
    }
  }

  /** Sleeping processes are distinct and neither running nor ready: at most six, if a second process is
      ready, and at most seven in any case. */
  lemma WaitListBound(s: State, e: nat)
    requires Core(s) && e < MAX_ENDPOINTS
    ensures |WaitList(s.eps[e])| <= 7
    ensures HasOtherRunnable(s) ==> |WaitList(s.eps[e])| <= 6
  {
    hide ProcsOk, CapsOk;
    assert WaitersOk(s, e);
    var w := WaitList(s.eps[e]);
    var all: set<nat> := {0, 1, 2, 3, 4, 5, 6, 7};
    forall k | 0 <= k < |w| ensures w[k] in all && !Ready(s.procs[w[k]]) {
      assert Sleeping(s, e, w[k]);
    }
    assert s.current in all;
    DistinctCard(w, all - {s.current});
    if HasOtherRunnable(s) {
      var p: nat :| p < MAX_PROCS && p != s.current && Ready(s.procs[p]);
      assert p in all - {s.current};
      DistinctCard(w, all - {s.current} - {p});
    }
  }

  /** The waiter ring never refuses a receiver that is about to sleep, and appends it. */
  lemma PushNeverRefuses(s: State, e: nat)
    requires Core(s) && e < MAX_ENDPOINTS && HasOtherRunnable(s)
    ensures var (r, ok) := WaiterPush(s.eps[e], s.current);
            && ok && RingOk(r) && WaitList(r) == WaitList(s.eps[e]) + [s.current]
            && r.head == s.eps[e].head && r.tail == s.eps[e].tail && r.buf == s.eps[e].buf
  {
    WaitListBound(s, e);
    PushAppends(s.eps[e], s.current);
  }

  /** The state after the current process went to sleep on endpoint e + 1 and the scheduler moved on. */
  function Slept(s: State, e: nat): (State, int)
    requires Wf(s) && e < MAX_ENDPOINTS && RingOk(WaiterPush(s.eps[e], s.current).0)
  {
    SwitchFrom(Block(SetRing(s, e + 1, WaiterPush(s.eps[e], s.current).0), e + 1), Cf(s))
  }

  /** The registers of a process about to sleep on endpoint e + 1. */
  ghost predicate Receiving(s: State, e: nat)
    requires Wf(s)
  {
    var f := FrameAt(s, Cf(s));
    && CapLookup(s.procs[s.current].caps, f.rdi % TWO_32) == e + 1
    && (f.rax == SYS_RECV || f.rax == SYS_RECV_CAP)
  }

  /** The table entry of the current process once it sleeps on endpoint e + 1. */
  function Dozing(s: State, e: nat): Proc
    requires Wf(s)
  {
    s.procs[s.current].(runnable := false, blockedEp := e + 1, tfRsp := Cf(s))
  }

  lemma SleptEffect(s: State, e: nat)
    requires Core(s) && Entered(s) && e < MAX_ENDPOINTS && HasOtherRunnable(s)
    ensures RingOk(WaiterPush(s.eps[e], s.current).0)
    ensures var (s', next) := Slept(s, e);
            && s'.procs == s.procs[s.current := Dozing(s, e)]
            && s'.eps == s.eps[e := WaiterPush(s.eps[e], s.current).0]
            && s'.frames == s.frames && s'.spaces == s.spaces && s'.nextEp == s.nextEp
            && s'.current < MAX_PROCS && s'.current != s.current && Ready(s.procs[s'.current])
            && s'.rsp0 == s.procs[s'.current].kstackTop && s'.nextCr3 == s.procs[s'.current].cr3
            && next == s.procs[s'.current].tfRsp
  {
    PushNeverRefuses(s, e);
    assert ProcOk(s, s.procs[s.current]);
    var b := Block(SetRing(s, e + 1, WaiterPush(s.eps[e], s.current).0), e + 1);
    var procs := b.procs[s.current := b.procs[s.current].(tfRsp := Cf(s))];
    assert procs == s.procs[s.current := Dozing(s, e)];
    var p: nat :| p < MAX_PROCS && p != s.current && Ready(s.procs[p]);
    assert Ready(procs[p]);
    PickOther(procs, s.current, p);
  }

  lemma BlockKeeps(s: State, e: nat)
    requires Core(s) && Entered(s) && e < MAX_ENDPOINTS && HasOtherRunnable(s) && s.eps[e].head == s.eps[e].tail
    requires Receiving(s, e) && RingOk(WaiterPush(s.eps[e], s.current).0)
    ensures var (s', next) := Slept(s, e);
            Core(s') && s'.current != s.current && next == Tf(s', s'.current) != 0
  {
    SleptEffect(s, e);
    PushNeverRefuses(s, e);
    var s' := Slept(s, e).0;
    assert ProcOk(s, s.procs[s'.current]);
    assert ProcsOk(s');
    BlockKeepsWaiters(s, e, s');
  }

  lemma BlockKeepsWaiters(s: State, e: nat, s': State)
    requires Core(s) && Wf(s') && e < MAX_ENDPOINTS && s.eps[e].head == s.eps[e].tail && Receiving(s, e)
    requires RingOk(s'.eps[e]) && WaitList(s'.eps[e]) == WaitList(s.eps[e]) + [s.current]
    requires s'.eps[e].head == s.eps[e].head && s'.eps[e].tail == s.eps[e].tail
    requires forall e' :: 0 <= e' < MAX_ENDPOINTS && e' != e ==> s'.eps[e'] == s.eps[e']
    requires s'.frames == s.frames
    requires s'.procs == s.procs[s.current := Dozing(s, e)]
    ensures AllWaitersOk(s')
  {
    assert ProcOk(s, s.procs[s.current]);
    assert Sleeping(s', e, s.current);
    forall e' | 0 <= e' < MAX_ENDPOINTS ensures WaitersOk(s', e') {
      assert WaitersOk(s, e');
      var w := WaitList(s.eps[e']);
      forall k | 0 <= k < |w| ensures Sleeping(s', e', w[k]) && w[k] != s.current {
        assert Sleeping(s, e', w[k]);
      }
    }
  }

  // ---- creating endpoints and processes ----

  lemma EpCreateKeeps(s: State)
    requires Core(s)
    ensures var s' := EpCreate(s).0; Core(s') && s'.current == s.current && Cf(s') == Cf(s)
  {
    var s1 := s.(nextEp := s.nextEp + 1);
    assert ProcsOk(s1);
    forall e | 0 <= e < MAX_ENDPOINTS ensures WaitersOk(s1, e) {
      assert WaitersOk(s, e);
      var w := WaitList(s.eps[e]);
      forall k | 0 <= k < |w| ensures Sleeping(s1, e, w[k]) {
        assert Sleeping(s, e, w[k]);
      }
    }
    if s.nextEp < MAX_ENDPOINTS {
      CapAllocKeeps(s1, s1.current, s.nextEp + 1);
      CapAllocEffect(s1, s1.current, s.nextEp + 1);
    }
  }

  /** The new process before it has any capability. */
  function Embryo(s: State, b: Build, role: u64): State {
    var tf := b.kstackTop - FRAME_SIZE;
    s.(spaces := s.spaces[b.cr3 := b.space], mem := s.mem + b.image,
       frames := s.frames[tf := Frame(0, role, 0, 0, 0, b.others)])
  }

  lemma EmbryoKeeps(s: State, b: Build, role: u64)
    requires Core(s) && FreshBuild(s, b)
    ensures Core(Embryo(s, b, role))
  {
    var s' := Embryo(s, b, role);
    forall p | 0 <= p < MAX_PROCS && s.procs[p].alive ensures s.procs[p].tfRsp != b.kstackTop - FRAME_SIZE {
      assert ProcOk(s, s.procs[p]) && StacksApart(NewProc(b), s.procs[p]);
    }
    assert ProcsOk(s');
    forall e | 0 <= e < MAX_ENDPOINTS ensures WaitersOk(s', e) {
      assert WaitersOk(s, e);
      var w := WaitList(s.eps[e]);
      forall k | 0 <= k < |w| ensures Sleeping(s', e, w[k]) {
        assert Sleeping(s, e, w[k]);
      }
    }
  }

  lemma BirthKeeps(s: State, b: Build, pid: nat)
    requires Core(s) && pid < MAX_PROCS && !s.procs[pid].alive && b.kstackTop > KSTACK_SIZE
    requires b.kstackTop - FRAME_SIZE in s.frames && b.cr3 in s.spaces
    requires forall p :: 0 <= p < MAX_PROCS && s.procs[p].alive ==>
               StacksApart(NewProc(b), s.procs[p]) && s.procs[p].cr3 != b.cr3
    ensures Core(s.(procs := s.procs[pid := NewProc(b)]))
  {
    var s' := s.(procs := s.procs[pid := NewProc(b)]);
    assert ProcsOk(s');
    forall e | 0 <= e < MAX_ENDPOINTS ensures WaitersOk(s', e) {
      assert WaitersOk(s, e);
      var w := WaitList(s.eps[e]);
      forall k | 0 <= k < |w| ensures Sleeping(s', e, w[k]) {
        assert Sleeping(s, e, w[k]);
      }
    }
  }

  lemma NewFrameKeeps(s: State, pid: nat, f: Frame)
    requires Core(s) && pid < MAX_PROCS && Ready(s.procs[pid])
    ensures Core(SetFrame(s, Tf(s, pid), f))
  {
    var s' := SetFrame(s, Tf(s, pid), f);
    assert ProcsOk(s');
    forall e | 0 <= e < MAX_ENDPOINTS ensures WaitersOk(s', e) {
      assert WaitersOk(s, e);
      var w := WaitList(s.eps[e]);
      forall k | 0 <= k < |w| ensures Sleeping(s', e, w[k]) {
        assert Sleeping(s, e, w[k]);
        OthersFrame(s, w[k], pid);
      }
    }
  }

  lemma SpawnKeeps(s: State, b: Build, role: u64, ep: nat)
    requires Core(s) && FreshBuild(s, b) && ep <= Issued(s)
    ensures var s' := SpawnWith(s, b, role, ep).0;
            Core(s') && s'.current == s.current && Cf(s') == Cf(s)
  {
    var s1 := Embryo(s, b, role);
    EmbryoKeeps(s, b, role);
    var pid := FreeProc(s1.procs, 0);
    forall p | 0 <= p < MAX_PROCS && s.procs[p].alive ensures s.procs[p].cr3 != b.cr3 {
      assert ProcOk(s, s.procs[p]);
    }
    if pid < MAX_PROCS {
      BirthKeeps(s1, b, pid);
      var s2 := s1.(procs := s1.procs[pid := NewProc(b)]);
      CapAllocKeeps(s2, pid, ep);
      CapAllocEffect(s2, pid, ep);
      var (s3, cap) := CapAlloc(s2, pid, ep);
      NewFrameKeeps(s3, pid, FrameAt(s3, b.kstackTop - FRAME_SIZE).(rsi := cap));
    }
  }
}
