/** Round robin: a process that stays ready is reached within seven scheduling decisions. */
module Scheduling {
  import opened Words
  import opened Rings
  import opened Machine
  import opened Invariant
  import opened Traps
  import opened Runs

  /** The receive call in the current frame finds its queue empty and goes to sleep. */
  predicate Sleeps(s: State)
    requires Wf(s)
  {
    var f := FrameAt(s, EntryFrame(s.rsp0));
    var ep := CurrentLookup(s, f.rdi % TWO_32);
    && (f.rax == SYS_RECV || f.rax == SYS_RECV_CAP) && 1 <= ep <= MAX_ENDPOINTS
    && s.eps[ep - 1].head == s.eps[ep - 1].tail && HasOtherRunnable(s)
  }

  /** The trap consults the scheduler: a timer tick, a yield, or a receive that goes to sleep. */
  predicate Decides(s: State, ev: Event)
    requires Wf(s)
  {
    ev.kind == Timer || ev.regs.rax == SYS_YIELD || Sleeps(Enter(s, ev))
  }

  /** A trap that does not consult the scheduler keeps the current process. One that does moves strictly
      closer, in cyclic order, to every process that is ready then, other than the current one. */
  lemma TrapMoves(s: State, ev: Event, p: nat)
    requires Inv(s) && EventOk(s, ev) && ReadyAt(s, p)
    ensures Moves(s, Trap(s, ev), Decides(s, ev), p)
  {
    var tf := Cf(s);
    var s0 := Enter(s, ev);
    QuietKeeps(s, ev.regs, ev.mem);
    assert FrameAt(s0, tf) == ev.regs;
    if ev.kind == Timer {
      MoveSwitch(s0, p);
    } else {
      MoveDispatch(s0, ev.build, p);
    }
    assert Trap(s, ev).current == Handle(s0, tf, ev).0.current;
  }

  ghost predicate ReadyAt(s: State, p: nat) { Wf(s) && p < MAX_PROCS && Ready(s.procs[p]) }

  ghost predicate Moves(s: State, s': State, decides: bool, p: nat)
    requires Wf(s) && Wf(s') && p < MAX_PROCS
  {
    if decides && p != s.current then Distance(s'.current, p) < Distance(s.current, p)
    else p == s.current || s'.current == s.current
  }

  lemma MoveYield(s: State, p: nat)
    requires Core(s) && ReadyAt(s, p)
    ensures Moves(s, SwitchFrom(SetRax(s, Cf(s), 0), Cf(s)).0, true, p)
  {
    var tf := Cf(s);
    QuietKeeps(s, FrameAt(s, tf).(rax := 0), s.mem);
    MoveSwitch(SetRax(s, tf, 0), p);
  }

  lemma MoveDispatch(s: State, b: Build, p: nat)
    requires Core(s) && ReadyAt(s, p)
    ensures var f := FrameAt(s, Cf(s));
            Moves(s, Dispatch(s, Cf(s), b).0, f.rax == SYS_YIELD || Sleeps(s), p)
  {
    var tf := Cf(s);
    var f := FrameAt(s, tf);
    if f.rax == SYS_YIELD {
      MoveYield(s, p);
    } else if f.rax == SYS_RECV {
      MoveRecv(s, false, p);
    } else if f.rax == SYS_RECV_CAP {
      MoveRecv(s, true, p);
    } else {
      Stays(s, b);
    }
  }

  lemma MoveSwitch(s: State, p: nat)
    requires Core(s) && p < MAX_PROCS && Ready(s.procs[p])
    ensures p != s.current ==> Distance(SwitchFrom(s, Cf(s)).0.current, p) < Distance(s.current, p)
  {
    if p != s.current {
      var procs := s.procs[s.current := s.procs[s.current].(tfRsp := Cf(s))];
      assert Ready(procs[p]);
      PickOther(procs, s.current, p);
    }
  }

  lemma MoveRecv(s: State, withCap: bool, p: nat)
    requires Core(s) && p < MAX_PROCS && Ready(s.procs[p])
    requires FrameAt(s, Cf(s)).rax == (if withCap then SYS_RECV_CAP else SYS_RECV)
    ensures Moves(s, RecvMsg(s, Cf(s), withCap).0, Sleeps(s), p)
  {
    if Sleeps(s) {
      if p != s.current {
        var e := CurrentLookup(s, FrameAt(s, Cf(s)).rdi % TWO_32) - 1;
        PushNeverRefuses(s, e);
        MoveSlept(s, e, p);
        RecvSleeps(s, withCap, e);
      }
    } else {
      RecvStays(s, withCap);
    }
  }

  lemma RecvSleeps(s: State, withCap: bool, e: nat)
    requires Core(s) && Sleeps(s) && e + 1 == CurrentLookup(s, FrameAt(s, Cf(s)).rdi % TWO_32)
    requires RingOk(WaiterPush(s.eps[e], s.current).0) && WaiterPush(s.eps[e], s.current).1
    ensures RecvMsg(s, Cf(s), withCap) == Slept(s, e)
  {
    hide SwitchFrom, Block;
  }

  lemma RecvStays(s: State, withCap: bool)
    requires Core(s) && FrameAt(s, Cf(s)).rax == (if withCap then SYS_RECV_CAP else SYS_RECV) && !Sleeps(s)
    ensures RecvMsg(s, Cf(s), withCap).0.current == s.current
  {
  }

  lemma MoveSlept(s: State, e: nat, p: nat)
    requires Core(s) && e < MAX_ENDPOINTS && p < MAX_PROCS && p != s.current && Ready(s.procs[p])
    requires RingOk(WaiterPush(s.eps[e], s.current).0)
    ensures Distance(Slept(s, e).0.current, p) < Distance(s.current, p)
  {
    assert ProcOk(s, s.procs[s.current]);
    var b := Block(SetRing(s, e + 1, WaiterPush(s.eps[e], s.current).0), e + 1);
    var procs := b.procs[s.current := b.procs[s.current].(tfRsp := Cf(s))];
    assert Ready(procs[p]);
    PickOther(procs, s.current, p);
  }

  lemma Stays(s: State, b: Build)
    requires Wf(s) && FrameAt(s, EntryFrame(s.rsp0)).rax !in {SYS_YIELD, SYS_RECV, SYS_RECV_CAP}
    ensures var (s', next) := Dispatch(s, EntryFrame(s.rsp0), b); s'.current == s.current && next == 0
  {
  }

  /** How many places p is ahead of the current process. */
  ghost function Ahead(s: State, p: nat): nat {
    if s.current < MAX_PROCS && p < MAX_PROCS then Distance(s.current, p) else 0
  }

  /** Scheduling decisions between moments i and j. */
  ghost function Decisions(states: seq<State>, events: seq<Event>, i: nat, j: nat): nat
    requires i <= j <= |events| < |states|
    decreases j
  {
    if i == j then 0
    else Decisions(states, events, i, j - 1) + if Wf(states[j - 1]) && Decides(states[j - 1], events[j - 1]) then 1 else 0
  }

  /** Over every run: a process that stays ready while the scheduler decides as often as it is places away
      becomes current, whatever the others spawn, block or wake. */
  lemma {:induction false} ReachedInTime(states: seq<State>, events: seq<Event>, i: nat, j: nat, p: nat) returns (m: nat)
    requires IsRun(states, events) && i <= j <= |events| && p < MAX_PROCS
    requires forall k :: i <= k <= j ==> ReadyAt(states[k], p)
    requires Ahead(states[i], p) <= Decisions(states, events, i, j)
    ensures i <= m <= j && states[m].current == p
  {
    var closer := Approach(states, events, i, j, p);
    if closer.Some? {
      m := closer.value;
    } else {
      m := j;
    }
  }

  /** Either p has been reached, or every decision so far has brought the current process closer to it. */
  lemma {:induction false} Approach(states: seq<State>, events: seq<Event>, i: nat, j: nat, p: nat)
    returns (m: Option<nat>)
    requires IsRun(states, events) && i <= j <= |events| && p < MAX_PROCS
    requires forall k :: i <= k <= j ==> ReadyAt(states[k], p)
    ensures m.Some? ==> i <= m.value <= j && states[m.value].current == p
    ensures m.None? ==> Ahead(states[j], p) + Decisions(states, events, i, j) <= Ahead(states[i], p)
    decreases j
  {
    if i == j {
      m := None;
    } else {
      m := Approach(states, events, i, j - 1, p);
      if m.None? {
        if states[j - 1].current == p {
          m := Some(j - 1);
        } else {
          OneStep(states, events, j - 1, p);
        }
      }
    }
  }

  lemma OneStep(states: seq<State>, events: seq<Event>, k: nat, p: nat)
    requires IsRun(states, events) && k < |events| && ReadyAt(states[k], p)
    ensures Wf(states[k + 1]) && Moves(states[k], states[k + 1], Decides(states[k], events[k]), p)
  {
    RunInv(states, events, k);
    assert StepAt(states, events, k);
    TrapMoves(states[k], events[k], p);
  }

  /** Seven decisions always suffice. */
  lemma BoundedWaiting(states: seq<State>, events: seq<Event>, i: nat, j: nat, p: nat) returns (m: nat)
    requires IsRun(states, events) && i <= j <= |events| && p < MAX_PROCS
    requires forall k :: i <= k <= j ==> ReadyAt(states[k], p)
    requires Decisions(states, events, i, j) >= 7
    ensures i <= m <= j && states[m].current == p
  {
    m := ReachedInTime(states, events, i, j, p);
  }
}
