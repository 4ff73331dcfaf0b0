/** Runs of the kernel from its first entry into user mode, and what holds over all of them. */
module Runs {
  import opened Words
  import opened Rings
  import opened Machine
  import opened Invariant
  import opened Traps
  import opened UserCopy

  const DEAD: Proc := Proc(0, 0, 0, [0, 0, 0, 0, 0, 0, 0, 0, 0, 0, 0, 0, 0, 0, 0, 0,
                                     0, 0, 0, 0, 0, 0, 0, 0, 0, 0, 0, 0, 0, 0, 0, 0], false, false, 0)

  /** The state in which the first process is entered: process 0 alone, no endpoints, no capabilities. */
  function Boot(b: Build): State {
    State([NewProc(b), DEAD, DEAD, DEAD, DEAD, DEAD, DEAD, DEAD], seq(MAX_ENDPOINTS, _ => EmptyRing()), 0, 0,
          b.kstackTop, b.cr3, b.cr3, b.kstackTop - FRAME_SIZE,
          map[b.kstackTop - FRAME_SIZE := Frame(0, 0, 0, 0, 0, b.others)], b.image, map[b.cr3 := b.space])
  }

  ghost predicate IsBoot(s: State, b: Build) { b.kstackTop > KSTACK_SIZE && s == Boot(b) }

  lemma BootInv(b: Build)
    requires b.kstackTop > KSTACK_SIZE
    ensures Inv(Boot(b))
  {
    var s := Boot(b);
    assert forall p :: 1 <= p < MAX_PROCS ==> s.procs[p] == DEAD;
    assert forall e :: 0 <= e < MAX_ENDPOINTS ==> s.eps[e] == EmptyRing();
  }

  ghost predicate StepAt(states: seq<State>, events: seq<Event>, i: int)
    requires 0 <= i < |events| < |states|
  {
    Wf(states[i]) && EventOk(states[i], events[i]) && states[i + 1] == Trap(states[i], events[i])
  }

  ghost predicate IsRun(states: seq<State>, events: seq<Event>) {
    && |states| == |events| + 1
    && (exists b: Build :: IsBoot(states[0], b))
    && forall i :: 0 <= i < |events| ==> StepAt(states, events, i)
  }

  /** Over every run, at every trap return: the current process is live and runnable, the address space in
      force, the one prepared for the next switch, the trap stack and the frame just popped are its own,
      every sleeper is where its registers say, and no endpoint has both a message and a waiter. */
  lemma {:induction false} RunInv(states: seq<State>, events: seq<Event>, i: nat)
    requires IsRun(states, events) && i <= |events|
    ensures Inv(states[i])
  {
    if i == 0 {
      var b: Build :| IsBoot(states[0], b);
      BootInv(b);
    } else {
      RunInv(states, events, i - 1);
      assert StepAt(states, events, i - 1);
      TrapKeeps(states[i - 1], events[i - 1]);
    }
  }

  lemma RunStep(states: seq<State>, events: seq<Event>, i: nat)
    requires IsRun(states, events) && i < |events|
    ensures Inv(states[i]) && Inv(states[i + 1]) && Change(states[i], states[i + 1])
  {
    RunInv(states, events, i);
    assert StepAt(states, events, i);
    TrapKeeps(states[i], events[i]);
  }

  // ---- the waiter rings are queues ----

  /** Who waits on endpoint e + 1. */
  ghost function Waiters(s: State, e: nat): seq<nat> {
    if Wf(s) && e < MAX_ENDPOINTS then WaitList(s.eps[e]) else []
  }

  /** Everyone who ever went to sleep on endpoint e + 1 in the first n steps, in order. */
  ghost function Arrivals(states: seq<State>, e: nat, n: nat): seq<nat>
    requires n < |states|
  {
    if n == 0 then []
    else
      Arrivals(states, e, n - 1) +
      if |Waiters(states[n], e)| > |Waiters(states[n - 1], e)| then [states[n - 1].current] else []
  }

  /** How many were taken out of the ring in the first n steps. */
  ghost function Departures(states: seq<State>, e: nat, n: nat): nat
    requires n < |states|
  {
    if n == 0 then 0
    else
      Departures(states, e, n - 1) +
      if |Waiters(states[n], e)| < |Waiters(states[n - 1], e)| then 1 else 0
  }

  lemma AtMostSeven(s: State, e: nat)
    requires Inv(s) && e < MAX_ENDPOINTS
    ensures |Waiters(s, e)| <= 7
  {
    WaitListBound(s, e);
  }

  lemma NobodyWaitsAtBoot(states: seq<State>, events: seq<Event>, e: nat)
    requires IsRun(states, events)
    ensures Waiters(states[0], e) == [] && QueueAt(states, e, 0)
  {
    var b: Build :| IsBoot(states[0], b);
    if e < MAX_ENDPOINTS {
      assert states[0].eps[e] == EmptyRing();
    }
  }

  /** Over every run, however often the counters lap the eight slots: a waiter ring holds exactly those who
      arrived and have not left, in order of arrival, never more than seven, and whoever leaves is the
      one who arrived first. */
  lemma {:induction false} WaitersAreFifo(states: seq<State>, events: seq<Event>, e: nat, n: nat)
    requires IsRun(states, events) && n <= |events| && e < MAX_ENDPOINTS
    ensures QueueAt(states, e, n) && |Waiters(states[n], e)| <= 7
  {
    hide Inv, Waiters, Arrivals, Departures;
    RunInv(states, events, n);
    AtMostSeven(states[n], e);
    if n == 0 {
      NobodyWaitsAtBoot(states, events, e);
    } else {
      WaitersAreFifo(states, events, e, n - 1);
      QueueStep(states, events, e, n - 1);
    }
  }

  /** The ring holds those who arrived, without the first of them that left. */
  ghost predicate QueueAt(states: seq<State>, e: nat, n: nat)
    requires n < |states|
  {
    && Departures(states, e, n) <= |Arrivals(states, e, n)|
    && Waiters(states[n], e) == Arrivals(states, e, n)[Departures(states, e, n)..]
  }

  lemma QueueStep(states: seq<State>, events: seq<Event>, e: nat, n: nat)
    requires IsRun(states, events) && n < |events| && e < MAX_ENDPOINTS && QueueAt(states, e, n)
    ensures QueueAt(states, e, n + 1)
  {
    RunStep(states, events, n);
    hide IsRun, Waiters, OthersStep, CapsStep, MsgsStep, ListStep, Grew, Core;
    FifoStep(states[n], states[n + 1], e, Arrivals(states, e, n), Departures(states, e, n));
  }

  lemma FifoStep(s: State, s': State, e: nat, arrived: seq<nat>, left: nat)
    requires Wf(s) && Wf(s') && e < MAX_ENDPOINTS && ListStep(s, s', e)
    requires left <= |arrived| && Waiters(s, e) == arrived[left..]
    ensures var (w, w') := (Waiters(s, e), Waiters(s', e));
            var arrived' := arrived + if |w'| > |w| then [s.current] else [];
            var left' := left + if |w'| < |w| then 1 else 0;
            left' <= |arrived'| && w' == arrived'[left'..]
  {
  }

  // ---- sleepers are left alone ----

  ghost predicate Listed(s: State, e: nat, p: nat) {
    Wf(s) && e < MAX_ENDPOINTS && p in WaitList(s.eps[e])
  }

  lemma ListedSleeps(s: State, e: nat, p: nat)
    requires Inv(s) && Listed(s, e, p)
    ensures Sleeping(s, e, p)
  {
    assert WaitersOk(s, e);
    var k :| 0 <= k < |WaitList(s.eps[e])| && WaitList(s.eps[e])[k] == p;
    assert Sleeping(s, e, WaitList(s.eps[e])[k]);
  }

  /** Between two moments at which p is listed, p's table entry and its saved frame stay as they are. */
  lemma SleeperUntouched(s: State, s': State, e: nat, p: nat)
    requires Inv(s) && Inv(s') && Change(s, s') && Listed(s, e, p) && Listed(s', e, p)
    ensures Sleeping(s, e, p)
    ensures s'.procs[p] == s.procs[p] && FrameAt(s', Tf(s, p)) == FrameAt(s, Tf(s, p))
  {
    ListedSleeps(s, e, p);
    assert WaitersOk(s, e);
    forall f | FirstAt(s, p, f) ensures WaitList(s'.eps[f - 1]) != WaitList(s.eps[f - 1])[1..] {
      ListedSleeps(s, f - 1, p);
      var w := WaitList(s.eps[e]);
      assert forall k :: 1 <= k < |w| ==> w[0] != w[k];
      assert p !in w[1..];
    }
  }

  lemma {:induction false} SleeperUntouchedRun(states: seq<State>, events: seq<Event>, i: nat, j: nat, e: nat, p: nat)
    requires IsRun(states, events) && i <= j <= |events|
    requires Listed(states[i], e, p) && Listed(states[j], e, p)
    requires forall m :: i <= m <= j ==> Listed(states[m], e, p)
    ensures Sleeping(states[i], e, p) && Wf(states[j]) && states[j].procs[p] == states[i].procs[p]
    ensures FrameAt(states[j], Tf(states[i], p)) == FrameAt(states[i], Tf(states[i], p))
    decreases j
  {
    hide Inv, Change;
    RunInv(states, events, i);
    ListedSleeps(states[i], e, p);
    if i < j {
      assert Listed(states[j - 1], e, p);
      SleeperUntouchedRun(states, events, i, j - 1, e, p);
      RunStep(states, events, j - 1);
      SleeperUntouched(states[j - 1], states[j], e, p);
    }
  }

  // ---- processes that nothing can wake ----

  /** Alive, not runnable, and in no waiter ring. */
  ghost predicate Stranded(s: State, p: nat)
    requires Wf(s)
  {
    p < MAX_PROCS && s.procs[p].alive && !s.procs[p].runnable && Unlisted(s, p)
  }

  lemma StrandedStep(s: State, s': State, p: nat)
    requires Inv(s) && Inv(s') && Change(s, s') && Stranded(s, p)
    ensures Stranded(s', p) && s'.procs[p] == s.procs[p]
  {
    forall e | 0 <= e < MAX_ENDPOINTS && WaitList(s.eps[e]) != [] ensures WaitList(s.eps[e])[0] != p {
      assert WaitList(s.eps[e])[0] in WaitList(s.eps[e]);
    }
    forall e | 0 <= e < MAX_ENDPOINTS ensures p !in WaitList(s'.eps[e]) {
      assert ListStep(s, s', e);
    }
  }

  /** Over every run: a process that is blocked and listed nowhere stays exactly so for ever. */
  lemma {:induction false} StrandedForever(states: seq<State>, events: seq<Event>, i: nat, j: nat, p: nat)
    requires IsRun(states, events) && i <= j <= |events| && Wf(states[i]) && Stranded(states[i], p)
    ensures Wf(states[j]) && Stranded(states[j], p) && states[j].procs[p] == states[i].procs[p]
    ensures states[j].current != p
    decreases j
  {
    RunInv(states, events, j);
    if i < j {
      StrandedForever(states, events, i, j - 1, p);
      RunStep(states, events, j - 1);
      StrandedStep(states[j - 1], states[j], p);
    }
  }

  /** How much of a message of this length the sleeping process p asked for. */
  function CutLength(s: State, p: nat, len: nat): nat
    requires Wf(s) && p < MAX_PROCS
  {
    Min(Min(FrameAt(s, Tf(s, p)).rdx, MAX_MSG), len)
  }

  /** Every address of the receiver's buffer that the message, cut to the receiver's length, would fill is mapped for
      the receiver. */
  ghost predicate BufferTakes(s: State, p: nat, msg: seq<int>)
    requires Wf(s) && p < MAX_PROCS
  {
    AllMapped(SpaceOf(s, s.procs[p].cr3), FrameAt(s, Tf(s, p)).rsi, CutLength(s, p, |msg|))
  }

  lemma BufferTakesIff(s: State, p: nat, msg: seq<int>)
    requires Wf(s) && p < MAX_PROCS
    ensures BufferTakes(s, p, msg) <==>
              CopyOut(s.mem, SpaceOf(s, s.procs[p].cr3), FrameAt(s, Tf(s, p)).rsi, msg[..CutLength(s, p, |msg|)], 0).1
  {
    CopyOutSucceedsIff(s.mem, SpaceOf(s, s.procs[p].cr3), FrameAt(s, Tf(s, p)).rsi, msg[..CutLength(s, p, |msg|)], 0);
  }

  /** A delivery strands its receiver exactly when the receiver's buffer cannot take the message; otherwise
      the receiver is ready again. */
  lemma DeliveryStrandsIff(s: State, e: nat, msg: seq<int>, xfer: nat)
    requires Core(s) && e < MAX_ENDPOINTS && WaitList(s.eps[e]) != [] && xfer <= Issued(s)
    requires RingOk(WaiterPop(s.eps[e]).0)
    ensures var p := WaitList(s.eps[e])[0];
            var s' := Deliver(SetRing(s, e + 1, WaiterPop(s.eps[e]).0), p, msg, xfer).0;
            && p < MAX_PROCS && Unlisted(s', p)
            && (Stranded(s', p) <==> !Ready(s'.procs[p]))
            && (Stranded(s', p) <==> !BufferTakes(s, p, msg))
  {
    var p := WaitList(s.eps[e])[0];
    PoppedIsUnlisted(s, e);
    assert ProcOk(s, s.procs[p]);
    BufferTakesIff(s, p, msg);
    var s1 := SetRing(s, e + 1, WaiterPop(s.eps[e]).0);
    DeliverEffect(s1, p, msg, xfer);
    var f := FrameAt(s1, s1.procs[p].tfRsp);
    var n := Min(Min(f.rdx, MAX_MSG), |msg|);
    CapAllocEffect(s1.(mem := CopyOut(s1.mem, SpaceOf(s1, s1.procs[p].cr3), f.rsi, msg[..n], 0).0), p, xfer);
  }
}
