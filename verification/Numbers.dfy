/** Capability numbers over whole runs: a number that a process is told names its endpoint for ever. */
module Numbers {
  import opened Words
  import opened Rings
  import opened Machine
  import opened Invariant
  import opened Traps
  import opened Runs
  import opened Calls
  import Provenance

  /** What the current process reads in its registers when it goes on. */
  function Told(s': State): Frame { FrameAt(s', s'.ret) }

  /** EP_CREATE tells c for the new endpoint x. */
  ghost predicate ToldCreated(s: State, ev: Event, s': State, p: nat, c: nat, x: nat)
    requires Wf(s)
  {
    && p == s.current && ev.kind == Syscall && ev.regs.rax == SYS_EP_CREATE
    && x == s.nextEp + 1 && Told(s').rax == c != ERR
  }

  /** A capability-aware receive tells c for the endpoint x that the message transfers. */
  ghost predicate ToldReceived(s: State, ev: Event, s': State, p: nat, c: nat, x: nat)
    requires Wf(s)
  {
    && p == s.current && ev.kind == Syscall && ev.regs.rax == SYS_RECV_CAP && Told(s').rdx == c != 0
    && exists e: nat :: InQueue(s, ev, e, x)
  }

  ghost predicate InQueue(s: State, ev: Event, e: nat, x: nat)
    requires Wf(s)
  {
    && e < MAX_ENDPOINTS && Names(s.procs[s.current].caps, ev.regs.rdi % TWO_32, e + 1)
    && s.eps[e].head < s.eps[e].tail && s.eps[e].buf[s.eps[e].head % Q_LEN].xfer == x
  }

  /** A delivery to the waiting process p tells c for the endpoint x that the sender transfers. */
  ghost predicate ToldDelivered(s: State, ev: Event, s': State, p: nat, c: nat, x: nat)
    requires Wf(s) && Wf(s')
  {
    && p < MAX_PROCS && s'.procs[p].runnable && FrameAt(s', Tf(s, p)).rdx == c != 0
    && exists e: nat, bytes :: e < MAX_ENDPOINTS && SentBy(s, ev, e, bytes, x) && WaitList(s.eps[e]) != [] && WaitList(s.eps[e])[0] == p
  }

  /** A new process p is told c for the endpoint x that its parent shares. */
  ghost predicate ToldShared(s: State, ev: Event, s': State, p: nat, c: nat, x: nat)
    requires Wf(s) && Wf(s')
  {
    && IsSpawn(ev) && ev.regs.rdi == 1 && Shares(s, ev.regs, x)
    && p < MAX_PROCS && !s.procs[p].alive && (forall q :: 0 <= q < p ==> s.procs[q].alive)
    && FrameAt(s', Tf(s', p)).rsi == c != 0
  }

  ghost predicate IsTold(s: State, ev: Event, s': State, p: nat, c: nat, x: nat)
    requires Wf(s) && Wf(s')
  {
    || ToldCreated(s, ev, s', p, c, x) || ToldReceived(s, ev, s', p, c, x)
    || ToldDelivered(s, ev, s', p, c, x) || ToldShared(s, ev, s', p, c, x)
  }

  lemma CreatedNames(s: State, ev: Event, p: nat, c: nat, x: nat)
    requires Inv(s) && ToldCreated(s, ev, Trap(s, ev), p, c, x)
    ensures p < MAX_PROCS && Trap(s, ev).procs[p].alive && Names(Trap(s, ev).procs[p].caps, c, x)
  {
    hide Trap, ProcsOk, AllWaitersOk, CapsOk;
    var n, caps := EpCreateAnswers(s, ev);
    NumberNames(s.procs[s.current].caps, if s.nextEp < MAX_ENDPOINTS then s.nextEp + 1 else 0, n, caps);
  }

  lemma ReceivedNames(s: State, ev: Event, p: nat, c: nat, x: nat)
    requires Inv(s) && ToldReceived(s, ev, Trap(s, ev), p, c, x)
    ensures p < MAX_PROCS && Trap(s, ev).procs[p].alive && Names(Trap(s, ev).procs[p].caps, c, x)
  {
    hide Trap, ProcsOk, AllWaitersOk, CapsOk, CopiedInto;
    var e: nat :| InQueue(s, ev, e, x);
    var n, caps := RecvGets(s, ev, e);
  }

  lemma DeliveredNames(s: State, ev: Event, p: nat, c: nat, x: nat)
    requires Inv(s) && ToldDelivered(s, ev, Trap(s, ev), p, c, x)
    ensures p < MAX_PROCS && Trap(s, ev).procs[p].alive && Names(Trap(s, ev).procs[p].caps, c, x)
  {
    hide Trap, ProcsOk, AllWaitersOk, CapsOk, CopiedInto, Sends, Popped;
    var e: nat, bytes :| e < MAX_ENDPOINTS && SentBy(s, ev, e, bytes, x) && WaitList(s.eps[e]) != [] && WaitList(s.eps[e])[0] == p;
    FirstWaiter(s, e);
    FirstSleeps(s, e);
    var n, caps := SendDelivers(s, ev, e, bytes, x);
  }

  lemma FirstSleeps(s: State, e: nat)
    requires Core(s) && e < MAX_ENDPOINTS && WaitList(s.eps[e]) != []
    ensures Sleeping(s, e, WaitList(s.eps[e])[0])
  {
    assert WaitersOk(s, e);
  }

  lemma SharedNames(s: State, ev: Event, p: nat, c: nat, x: nat)
    requires Inv(s) && EventOk(s, ev) && ToldShared(s, ev, Trap(s, ev), p, c, x)
    ensures p < MAX_PROCS && Trap(s, ev).procs[p].alive && Names(Trap(s, ev).procs[p].caps, c, x)
  {
    hide Trap, ProcsOk, AllWaitersOk, CapsOk, FreshBuild;
    var n, caps := SpawnMakes(s, ev, p, x);
    ChildFrame(s, ev);
  }

  /** Over every run: whatever number a process is told, by the creation of an endpoint, with a message, or at its own
      creation, names that endpoint in every call that it makes from then on. */
  lemma NumbersLast(states: seq<State>, events: seq<Event>, i: nat, j: nat, p: nat, c: nat, x: nat)
    requires IsRun(states, events) && i < j <= |events| && Wf(states[i]) && Wf(states[i + 1])
    requires IsTold(states[i], events[i], states[i + 1], p, c, x)
    ensures Wf(states[j]) && p < MAX_PROCS && states[j].procs[p].alive
    ensures Names(states[j].procs[p].caps, c, x) && CapLookup(states[j].procs[p].caps, c) == x
  {
    hide Inv, Change, ToldCreated, ToldReceived, ToldDelivered, ToldShared, Trap;
    RunStep(states, events, i);
    assert StepAt(states, events, i);
    var s, ev := states[i], events[i];
    if ToldCreated(s, ev, Trap(s, ev), p, c, x) {
      CreatedNames(s, ev, p, c, x);
    } else if ToldReceived(s, ev, Trap(s, ev), p, c, x) {
      ReceivedNames(s, ev, p, c, x);
    } else if ToldDelivered(s, ev, Trap(s, ev), p, c, x) {
      DeliveredNames(s, ev, p, c, x);
    } else {
      SharedNames(s, ev, p, c, x);
    }
    Provenance.CapsPermanent(states, events, i + 1, j, p, c - 1);
    LookupNames(states[j].procs[p].caps, c);
  }

  // ---- registers ----

  /** p is ready to run and another process runs. */
  ghost predicate Waits(s: State, p: nat) { Wf(s) && p < MAX_PROCS && p != s.current && Ready(s.procs[p]) }

  /** p runs, from these registers. */
  ghost predicate RunsFrom(s: State, p: nat, f: Frame) {
    Wf(s) && s.current == p < MAX_PROCS && FrameAt(s, s.ret) == f && s.cr3 == s.procs[p].cr3
  }

  lemma WaitsOn(s: State, ev: Event, p: nat)
    requires Inv(s) && EventOk(s, ev) && Waits(s, p)
    ensures var s' := Trap(s, ev);
            && s'.procs[p] == s.procs[p] && FrameAt(s', Tf(s, p)) == FrameAt(s, Tf(s, p))
            && (if s'.current == p then RunsFrom(s', p, FrameAt(s, Tf(s, p))) else Waits(s', p))
  {
    hide Trap, AllWaitersOk, ProcsOk, CapsOk, CapsStep, MsgsStep, Grew;
    TrapKeeps(s, ev);
    forall f | FirstAt(s, p, f) ensures false {
      FirstSleeps(s, f - 1);
    }
    ResumesSaved(s, ev);
  }

  /** Whoever a trap hands the processor to goes on from its saved registers. */
  lemma ResumesSaved(s: State, ev: Event)
    requires Inv(s) && EventOk(s, ev)
    ensures var s' := Trap(s, ev); s'.current != s.current ==> s'.ret == Tf(s', s'.current)
  {
    QuietKeeps(s, ev.regs, ev.mem);
    HandleChange(Enter(s, ev), ev);
    hide Handle, Core;
  }

  /** Over every run: a process that is ready and does not run keeps its table entry and its saved registers, and when it runs
      again, for the first time, it goes on from exactly these registers, in its own address space: after a timer tick, a
      YIELD or a delivery, and at its very start. */
  lemma {:induction false} RegistersComeBack(states: seq<State>, events: seq<Event>, i: nat, j: nat, p: nat)
    requires IsRun(states, events) && i < j <= |events| && Waits(states[i], p)
    requires forall m :: i < m < j ==> Wf(states[m]) && states[m].current != p
    ensures Wf(states[j]) && states[j].procs[p] == states[i].procs[p]
    ensures if states[j].current == p then RunsFrom(states[j], p, FrameAt(states[i], Tf(states[i], p)))
            else Waits(states[j], p) && FrameAt(states[j], Tf(states[j], p)) == FrameAt(states[i], Tf(states[i], p))
    decreases j
  {
    hide Inv, RunsFrom, Trap, EventOk;
    if i < j - 1 {
      RegistersComeBack(states, events, i, j - 1, p);
    }
    RunInv(states, events, j - 1);
    assert StepAt(states, events, j - 1);
    WaitsOn(states[j - 1], events[j - 1], p);
  }

  /** A new process starts with its role in rdi and the number of its capability in rsi, which names the endpoint that its
      parent shared and still named then; without one, rsi is 0. All its other argument registers are 0. */
  lemma FirstRegisters(states: seq<State>, events: seq<Event>, i: nat, j: nat, p: nat, x: nat)
    requires IsRun(states, events) && i + 1 < j <= |events| && Wf(states[i]) && Wf(states[j])
    requires IsSpawn(events[i]) && events[i].regs.rdi == 1 && Shares(states[i], events[i].regs, x)
    requires p < MAX_PROCS && !states[i].procs[p].alive && forall q :: 0 <= q < p ==> states[i].procs[q].alive
    requires states[j].current == p && forall m :: i < m < j ==> Wf(states[m]) && states[m].current != p
    ensures var f := FrameAt(states[j], states[j].ret);
            && f == Frame(0, events[i].regs.rsi, f.rsi, 0, 0, events[i].build.others)
            && if x == 0 then f.rsi == 0 else Names(states[j].procs[p].caps, f.rsi, x)
  {
    hide Inv, Trap, Given;
    RunStep(states, events, i);
    assert StepAt(states, events, i);
    var c, caps := SpawnMakes(states[i], events[i], p, x);
    ChildFrame(states[i], events[i]);
    RegistersComeBack(states, events, i + 1, j, p);
    NumberNames(NO_CAPS, x, c, caps);
  }
}
