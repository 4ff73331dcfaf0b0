/** Two runs of the kernel from its start that show what its direct delivery can do: one strands a process for ever, the
    other gives a plain receiver a capability. They differ only in the receiver's buffer. */
module Witnesses {
  import opened Words
  import opened Rings
  import opened Machine
  import opened Invariant
  import opened Traps
  import opened UserCopy
  import opened Runs
  import opened Delivery
  import Scheduling

  const PARENT: Build := Build(0x1_0000, 0x1000, map[0x10 := 0x5000], map[], [])

  /** The child's address space is left open. */
  function Child(space: map<int, int>): Build { Build(0x2_0000, 0x2000, space, map[], []) }

  function Call(rax: u64, rdi: u64, rsi: u64, rdx: u64, rcx: u64, space: map<int, int>): Event {
    Event(Syscall, Frame(rax, rdi, rsi, rdx, rcx, []), map[], Child(space))
  }

  /** Process 0 creates two endpoints, spawns process 1 with the first and yields; process 1 receives on it, into the page
      at 0; process 0 sends one byte and the second endpoint. */
  function Script(space: map<int, int>): seq<Event> {
    [Call(SYS_EP_CREATE, 0, 0, 0, 0, space),
     Call(SYS_EP_CREATE, 0, 0, 0, 0, space),
     Call(SYS_SPAWN, 1, 0, 1, 0, space),
     Call(SYS_YIELD, 0, 0, 0, 0, space),
     Call(SYS_RECV, 1, 0, 8, 0, space),
     Call(SYS_SEND_CAP, 1, 0x1_0000, 1, 2, space)]
  }

  function At(space: map<int, int>, n: nat): (s: State)
    requires n <= 6
    ensures Wf(s)
  {
    if n == 0 then Boot(PARENT) else Trap(At(space, n - 1), Script(space)[n - 1])
  }

  /** Process 0 runs alone and holds the endpoints 1 to n. */
  ghost predicate Alone(s: State, n: nat) {
    && Inv(s) && s.current == 0 && s.nextEp == n && n <= 2
    && s.procs[0].cr3 == 0x1000 && s.procs[0].kstackTop == 0x1_0000
    && (forall i :: 0 <= i < CAP_SLOTS ==> s.procs[0].caps[i] == if i < n then i + 1 else 0)
    && (forall p :: 1 <= p < MAX_PROCS ==> s.procs[p] == DEAD)
    && s.eps[0] == EmptyRing() && s.spaces == map[0x1000 := map[0x10 := 0x5000]]
  }

  lemma StartsAlone()
    ensures Alone(Boot(PARENT), 0)
  {
    BootInv(PARENT);
    var s := Boot(PARENT);
    assert forall p :: 1 <= p < MAX_PROCS ==> s.procs[p] == DEAD;
    assert s.eps[0] == EmptyRing();
  }

  lemma CreateStep(s: State, space: map<int, int>, n: nat)
    requires Alone(s, n) && n < 2
    ensures Alone(Trap(s, Call(SYS_EP_CREATE, 0, 0, 0, 0, space)), n + 1)
  {
    TrapKeeps(s, Call(SYS_EP_CREATE, 0, 0, 0, 0, space));
    assert FirstFree(s.procs[0].caps, 0) == n;
  }

  /** Processes 0 and 1 are alive; process 0 holds both endpoints, process 1 the first. */
  ghost predicate Pair(s: State, space: map<int, int>) {
    && Inv(s) && s.nextEp == 2
    && s.procs[0].alive && s.procs[0].cr3 == 0x1000 && s.procs[0].kstackTop == 0x1_0000
    && s.procs[1].alive && s.procs[1].cr3 == 0x2000 && s.procs[1].kstackTop == 0x2_0000
    && (forall i :: 0 <= i < CAP_SLOTS ==> s.procs[0].caps[i] == if i < 2 then i + 1 else 0)
    && (forall i :: 0 <= i < CAP_SLOTS ==> s.procs[1].caps[i] == if i == 0 then 1 else 0)
    && (forall p :: 2 <= p < MAX_PROCS ==> s.procs[p] == DEAD)
    && s.spaces == map[0x1000 := map[0x10 := 0x5000], 0x2000 := space]
  }

  /** Both are ready, nobody waits. */
  ghost predicate Idle(s: State, space: map<int, int>) {
    Pair(s, space) && Ready(s.procs[0]) && Ready(s.procs[1]) && s.eps[0] == EmptyRing()
  }

  lemma SpawnStep(s: State, space: map<int, int>)
    requires Alone(s, 2)
    ensures var s' := Trap(s, Call(SYS_SPAWN, 1, 0, 1, 0, space)); Idle(s', space) && s'.current == 0
  {
    hide AllWaitersOk, CapsOk, Change, RingOk, CopyIn;
    var ev := Call(SYS_SPAWN, 1, 0, 1, 0, space);
    assert FreshBuild(s, ev.build);
    TrapKeeps(s, ev);
    assert FreeProc(s.procs, 0) == 1;
    assert FirstFree(NewProc(ev.build).caps, 0) == 0;
  }

  lemma YieldStep(s: State, space: map<int, int>)
    requires Idle(s, space) && s.current == 0
    ensures var s' := Trap(s, Call(SYS_YIELD, 0, 0, 0, 0, space)); Idle(s', space) && s'.current == 1
  {
    hide AllWaitersOk, CapsOk, Change, RingOk, CopyIn;
    TrapKeeps(s, Call(SYS_YIELD, 0, 0, 0, 0, space));
  }

  /** Process 1 waits for a message on endpoint 1 in a plain receive into the page at 0; process 0 runs. */
  ghost predicate Waiting(s: State, space: map<int, int>) {
    && Pair(s, space) && s.current == 0 && WaitList(s.eps[0]) == [1] && s.eps[0].head == s.eps[0].tail
    && FrameAt(s, Tf(s, 1)) == Frame(SYS_RECV, 1, 0, 8, 0, [])
  }

  lemma RecvStep(s: State, space: map<int, int>)
    requires Idle(s, space) && s.current == 1
    ensures Waiting(Trap(s, Call(SYS_RECV, 1, 0, 8, 0, space)), space)
  {
    hide ProcsOk, AllWaitersOk, CapsOk, Change, RingOk, Trap, Slept, WaiterPush, HasOtherRunnable, CopyIn;
    var ev := Call(SYS_RECV, 1, 0, 8, 0, space);
    TrapKeeps(s, ev);
    RecvGoesToSleep(s, space);
    PushNeverRefuses(Enter(s, ev), 0);
    SleptEffect(Enter(s, ev), 0);
    assert Tf(Trap(s, ev), 1) == EntryFrame(0x2_0000);
  }

  lemma RecvGoesToSleep(s: State, space: map<int, int>)
    requires Idle(s, space) && s.current == 1
    ensures var ev := Call(SYS_RECV, 1, 0, 8, 0, space);
            var s0 := Enter(s, ev);
            && Core(s0) && Entered(s0) && HasOtherRunnable(s0) && RingOk(WaiterPush(s0.eps[0], 1).0)
            && Trap(s, ev) == Leave(Slept(s0, 0).0, EntryFrame(0x2_0000), Slept(s0, 0).1)
  {
    var ev := Call(SYS_RECV, 1, 0, 8, 0, space);
    var s0 := Enter(s, ev);
    QuietKeeps(s, ev.regs, ev.mem);
    assert Ready(s0.procs[0]) && HasOtherRunnable(s0);
    PushNeverRefuses(s0, 0);
    Scheduling.RecvSleeps(s0, false, 0);
    SleptTrap(s, ev);
  }

  /** A trap whose receive goes to sleep. */
  lemma SleptTrap(s: State, ev: Event)
    requires Wf(s) && ev.kind == Syscall && ev.regs.rax == SYS_RECV && s.rsp0 == s.procs[s.current].kstackTop
    requires RingOk(WaiterPush(Enter(s, ev).eps[0], s.current).0)
    requires RecvMsg(Enter(s, ev), Cf(s), false) == Slept(Enter(s, ev), 0)
    ensures var (s1, next) := Slept(Enter(s, ev), 0);
            Wf(s1) && Trap(s, ev) == Leave(s1, EntryFrame(s.rsp0), next)
  {
    hide RecvMsg, Slept;
  }

  function SendEvent(space: map<int, int>): Event { Call(SYS_SEND_CAP, 1, 0x1_0000, 1, 2, space) }

  lemma OneByte()
    ensures CopyIn(map[], map[0x10 := 0x5000], 0x1_0000, 1) == Some([0])
  {
    var space := map[0x10 := 0x5000];
    assert CopyIn(map[], space, 0x1_0000, 0) == Some([]);
    assert Translate(space, 0x1_0000) == Some(0x5000);
    assert [] + [0] == [0];
  }

  /** The last trap is one direct delivery, of one byte and endpoint 2. */
  lemma SendDelivers(s: State, space: map<int, int>)
    requires Waiting(s, space)
    ensures var s0 := Enter(s, SendEvent(space));
            && Core(s0) && WaitList(s0.eps[0]) == [1] && s0.procs == s.procs
            && FrameAt(s0, Tf(s0, 1)) == FrameAt(s, Tf(s, 1)) && SpaceOf(s0, 0x2000) == space
            && var (d, rax) := Direct(s0, 0, [0], 2);
               Trap(s, SendEvent(space)) == Leave(SetRax(d, EntryFrame(0x1_0000), rax), EntryFrame(0x1_0000), 0)
  {
    hide AllWaitersOk, CapsOk, Deliver;
    var ev := SendEvent(space);
    var s0 := Enter(s, ev);
    QuietKeeps(s, ev.regs, ev.mem);
    OthersFrame(s, 1, 0);
    RingOpsOk(s0.eps[0], 0, [0], 2, 0);
    PopTakesFirst(s0.eps[0]);
    assert FrameAt(s0, Cf(s0)) == ev.regs;
    assert SpaceOf(s0, s0.cr3) == map[0x10 := 0x5000];
    OneByte();
    assert SendCap(s0, Cf(s0)) == SendMsg(s0, Cf(s0), 2);
  }

  /** The run with this address space for process 1. */
  function Run(space: map<int, int>): seq<State> { seq(7, n requires 0 <= n < 7 => At(space, n)) }

  lemma AtStep(space: map<int, int>, n: nat)
    requires n < 6
    ensures At(space, 0) == Boot(PARENT) && At(space, n + 1) == Trap(At(space, n), Script(space)[n])
  {
    hide Trap, Boot;
  }

  lemma RunIsRun(space: map<int, int>)
    ensures IsRun(Run(space), Script(space)) && Waiting(Run(space)[5], space)
    ensures Run(space)[6] == Trap(Run(space)[5], SendEvent(space))
  {
    hide Trap, Alone, Idle, Waiting, Boot, At, EventOk, Wf;
    StartsAlone();
    forall i | 0 <= i < 6 ensures At(space, i + 1) == Trap(At(space, i), Script(space)[i]) {
      AtStep(space, i);
    }
    AtStep(space, 0);
    CreateStep(At(space, 0), space, 0);
    CreateStep(At(space, 1), space, 1);
    SpawnStep(At(space, 2), space);
    YieldStep(At(space, 3), space);
    RecvStep(At(space, 4), space);
    assert IsBoot(Run(space)[0], PARENT);
    forall i | 0 <= i < 6 ensures StepAt(Run(space), Script(space), i) {
      ScriptOk(At(space, i), space, i);
    }
  }

  lemma ScriptOk(s: State, space: map<int, int>, i: nat)
    requires Wf(s) && i < 6 && (i == 2 ==> Alone(s, 2))
    ensures EventOk(s, Script(space)[i])
  {
    if i == 2 {
      SpawnIsFresh(s, space);
    }
  }

  lemma SpawnIsFresh(s: State, space: map<int, int>)
    requires Alone(s, 2)
    ensures FreshBuild(s, Child(space))
  {
    hide AllWaitersOk, CapsOk;
  }

  /** With nothing mapped at its buffer, process 1 ends up asleep in no waiter ring: it will never run again. */
  lemma ProcessStranded() returns (states: seq<State>, events: seq<Event>)
    ensures IsRun(states, events) && |events| == 6 && Wf(states[5]) && Wf(states[6])
    ensures Listed(states[5], 0, 1) && Stranded(states[6], 1)
  {
    var space: map<int, int> := map[];
    RunIsRun(space);
    states, events := Run(space), Script(space);
    var s0 := Enter(states[5], SendEvent(space));
    SendDelivers(states[5], space);
    DeliveryStrandsIff(s0, 0, [0], 2);
    assert Spot(space, 0, 0).None?;
    assert !BufferTakes(s0, 1, [0]);
  }

  /** With its buffer mapped, process 1, in a plain receive, comes to hold endpoint 2. */
  lemma PlainReceiverGains() returns (states: seq<State>, events: seq<Event>)
    ensures IsRun(states, events) && |events| == 6 && Wf(states[5]) && Wf(states[6])
    ensures Listed(states[5], 0, 1) && FrameAt(states[5], Tf(states[5], 1)).rax == SYS_RECV
    ensures !Holds(states[5], 1, 2) && Holds(states[6], 1, 2)
  {
    var space: map<int, int> := map[0 := 0x6000];
    RunIsRun(space);
    states, events := Run(space), Script(space);
    SendGives(states[5], space);
  }

  lemma SendGives(s: State, space: map<int, int>)
    requires Waiting(s, space) && space == map[0 := 0x6000]
    ensures !Holds(s, 1, 2) && Holds(Trap(s, SendEvent(space)), 1, 2) && Listed(s, 0, 1)
  {
    var s0 := Enter(s, SendEvent(space));
    SendDelivers(s, space);
    assert WaitersOk(s0, 0) && Sleeping(s0, 0, 1);
    hide Core, Inv, Trap, Direct, CopyOut, Enter;
    DirectFields(s0, 0, [0], 2);
    assert Spot(space, 0, 0) == Some(0x6000);
    assert BufferTakes(s0, 1, [0]);
    BufferTakesIff(s0, 1, [0]);
    assert FirstFree(s0.procs[1].caps, 0) == 1;
    assert Trap(s, SendEvent(space)).procs[1].caps[1] == 2;
  }
}
