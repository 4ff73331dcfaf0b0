/** The kernel's global tables, updated in place by the trap handlers. Every handler computes the
    corresponding function of module Machine, so every theorem about those holds of it. */
module Kernel {
  import opened Words
  import opened Rings
  import opened Machine
  import opened Runs
  import Ipc

  class Tables {
    const procs: array<Proc>
    const endpoints: seq<Ipc.Endpoint>
    var nextEp: nat
    var current: nat
    var rsp0: int
    var nextCr3: int
    var cr3: int
    var ret: int
    var frames: map<int, Frame>
    var mem: map<int, int>
    var spaces: map<int, map<int, int>>
    ghost const feet: set<object>

    /** The endpoint records and their buffers, pairwise disjoint. */
    ghost predicate Linked() {
      && |endpoints| == MAX_ENDPOINTS && procs.Length == MAX_PROCS && this !in feet && procs !in feet
      && (forall i :: 0 <= i < MAX_ENDPOINTS ==> Foot(i) <= feet)
      && (forall i, j :: 0 <= i < j < MAX_ENDPOINTS ==> Foot(i) !! Foot(j))
    }

    ghost function Foot(i: int): set<object>
      requires 0 <= i < |endpoints|
    {
      {endpoints[i], endpoints[i].buf, endpoints[i].waiters}
    }

    ghost function Eps(): seq<Ring>
      requires Linked()
      reads feet
    {
      seq(MAX_ENDPOINTS, i requires 0 <= i < MAX_ENDPOINTS && Linked() reads feet => EpView(i))
    }

    ghost function EpView(i: int): Ring
      requires 0 <= i < MAX_ENDPOINTS && Linked()
      reads feet
    {
      assert Foot(i) <= feet;
      endpoints[i].View()
    }

    ghost function View(): State
      requires Linked()
      reads this, procs, feet
    {
      State(procs[..], Eps(), nextEp, current, rsp0, nextCr3, cr3, ret, frames, mem, spaces)
    }

    ghost predicate Valid()
      reads this, procs, feet
    {
      Linked() && Wf(View())
    }

    /** The tables as the first process is entered. */
    constructor (b: Build)
      ensures Linked() && fresh(feet) && fresh(procs)
      ensures View() == Boot(b)
    {
      var eps: seq<Ipc.Endpoint> := [];
      ghost var all: set<object> := {};
      for n := 0 to MAX_ENDPOINTS
        invariant |eps| == n && fresh(all)
        invariant forall i :: 0 <= i < n ==> {eps[i], eps[i].buf, eps[i].waiters} <= all
        invariant forall i, j :: 0 <= i < j < n ==>
                    {eps[i], eps[i].buf, eps[i].waiters} !! {eps[j], eps[j].buf, eps[j].waiters}
        invariant forall i :: 0 <= i < n ==> eps[i].View() == EmptyRing()
      {
        var e := new Ipc.Endpoint();
        eps := eps + [e];
        all := all + {e, e.buf, e.waiters};
      }
      var table := new Proc[MAX_PROCS](_ => DEAD);
      table[0] := NewProc(b);
      procs, endpoints, feet := table, eps, all;
      nextEp, current := 0, 0;
      rsp0, nextCr3, cr3, ret := b.kstackTop, b.cr3, b.cr3, b.kstackTop - FRAME_SIZE;
      frames := map[b.kstackTop - FRAME_SIZE := Frame(0, 0, 0, 0, 0, b.others)];
      mem, spaces := b.image, map[b.cr3 := b.space];
      new;
      assert procs[..] == Boot(b).procs;
      assert Eps() == Boot(b).eps;
    }

    // ---- saved frames ----

    method SetRaxOf(tf: int, v: u64)
      requires Valid()
      modifies this`frames
      ensures Valid() && View() == SetRax(old(View()), tf, v)
    {
      var f := if tf in frames then frames[tf] else Frame(0, 0, 0, 0, 0, []);
      frames := frames[tf := f.(rax := v)];
    }

    // ---- capabilities ----

    method CapLookupCurrent(cap: int) returns (ep: nat)
      requires Valid()
      ensures ep == CurrentLookup(View(), cap)
    {
      if cap < 1 || cap > CAP_SLOTS {
        return 0;
      }
      return procs[current].caps[cap - 1];
    }

    method CapAllocFor(pid: nat, ep: nat) returns (cap: nat)
      requires Valid()
      modifies procs
      ensures Valid() && (View(), cap) == CapAlloc(old(View()), pid, ep)
    {
      if pid >= MAX_PROCS || ep == 0 {
        return 0;
      }
      var i := 0;
      var caps := procs[pid].caps;
      while i < CAP_SLOTS && caps[i] != 0
        invariant 0 <= i <= CAP_SLOTS && |caps| == CAP_SLOTS
        invariant FirstFree(caps, 0) == FirstFree(caps, i)
      {
        i := i + 1;
      }
      if i == CAP_SLOTS {
        return 0;
      }
      procs[pid] := procs[pid].(caps := caps[i := ep]);
      return i + 1;
    }

    // ---- scheduling ----

    method OtherRunnable() returns (found: bool)
      requires Valid()
      ensures found == HasOtherRunnable(View())
    {
      for p := 0 to MAX_PROCS
        invariant forall q :: 0 <= q < p && q != current ==> !Ready(procs[q])
      {
        if p != current && procs[p].alive && procs[p].runnable {
          return true;
        }
      }
      return false;
    }

    lemma StepIndex(cur: nat, k: nat)
      requires k >= 1
      ensures ((cur + k - 1) % MAX_PROCS + 1) % MAX_PROCS == (cur + k) % MAX_PROCS
    {
    }

    method PickNextRunnable(cur: nat) returns (next: nat)
      requires Valid() && cur < MAX_PROCS
      ensures next == PickFrom(procs[..], cur, 1)
    {
      ghost var table := procs[..];
      next := cur;
      var k := 1;
      while k <= MAX_PROCS
        invariant 1 <= k <= MAX_PROCS + 1 && next == (cur + k - 1) % MAX_PROCS
        invariant PickFrom(table, cur, 1) == PickFrom(table, cur, k)
      {
        StepIndex(cur, k);
        next := (next + 1) % MAX_PROCS;
        var p := procs[next];
        assert p == After(table, cur, k);
        if p.alive && p.runnable {
          return next;
        }
        k := k + 1;
      }
      next := cur;
    }

    method Switch(tf: int) returns (next: int)
      requires Valid()
      modifies procs, this`rsp0, this`nextCr3, this`current
      ensures Valid() && (View(), next) == SwitchFrom(old(View()), tf)
    {
      procs[current] := procs[current].(tfRsp := tf);
      assert procs[..] == old(procs[..])[current := procs[current]];
      var pid := PickNextRunnable(current);
      if pid == current {
        return 0;
      }
      rsp0 := procs[pid].kstackTop;
      nextCr3 := procs[pid].cr3;
      current := pid;
      return procs[pid].tfRsp;
    }

    method BlockCurrentOn(ep: nat)
      requires Valid()
      modifies procs
      ensures Valid() && View() == Block(old(View()), ep)
    {
      procs[current] := procs[current].(runnable := false, blockedEp := ep);
      assert procs[..] == old(procs[..])[current := procs[current]];
    }

    method WakeUp(pid: nat)
      requires Valid()
      modifies procs
      ensures Valid() && View() == Wake(old(View()), pid)
    {
      if pid < MAX_PROCS && procs[pid].alive {
        procs[pid] := procs[pid].(runnable := true, blockedEp := 0);
        assert procs[..] == old(procs[..])[pid := procs[pid]];
      }
    }

    // ---- endpoints ----

    method WaiterPushOn(ep: nat, pid: nat) returns (ok: bool)
      requires Valid() && 1 <= ep <= MAX_ENDPOINTS
      modifies Foot(ep - 1)
      ensures Valid()
      ensures RingOk(WaiterPush(old(View()).eps[ep - 1], pid).0)
      ensures View() == SetRing(old(View()), ep, WaiterPush(old(View()).eps[ep - 1], pid).0)
      ensures ok == WaiterPush(old(View()).eps[ep - 1], pid).1
    {
      assert View().eps[ep - 1] == EpView(ep - 1);
      ok := endpoints[ep - 1].Push(pid);
      OnlyThisRing(ep - 1);
    }

    method WaiterPopOn(ep: nat) returns (pid: Option<nat>)
      requires Valid() && 1 <= ep <= MAX_ENDPOINTS
      modifies Foot(ep - 1)
      ensures Valid()
      ensures RingOk(WaiterPop(old(View()).eps[ep - 1]).0)
      ensures View() == SetRing(old(View()), ep, WaiterPop(old(View()).eps[ep - 1]).0)
      ensures pid == WaiterPop(old(View()).eps[ep - 1]).1
    {
      assert View().eps[ep - 1] == EpView(ep - 1);
      pid := endpoints[ep - 1].Pop();
      OnlyThisRing(ep - 1);
    }

    method PutOn(ep: nat, bytes: seq<int>, xfer: nat) returns (ok: bool)
      requires Valid() && 1 <= ep <= MAX_ENDPOINTS
      modifies Foot(ep - 1)
      ensures Valid()
      ensures RingOk(Send(old(View()).eps[ep - 1], bytes, xfer).0)
      ensures View() == SetRing(old(View()), ep, Send(old(View()).eps[ep - 1], bytes, xfer).0)
      ensures ok == Send(old(View()).eps[ep - 1], bytes, xfer).1
    {
      assert View().eps[ep - 1] == EpView(ep - 1);
      ok := endpoints[ep - 1].Put(bytes, xfer);
      OnlyThisRing(ep - 1);
    }

    method TakeFrom(ep: nat, max: nat) returns (got: Option<Payload>)
      requires Valid() && 1 <= ep <= MAX_ENDPOINTS
      modifies Foot(ep - 1)
      ensures Valid()
      ensures RingOk(Recv(old(View()).eps[ep - 1], max).0)
      ensures View() == SetRing(old(View()), ep, Recv(old(View()).eps[ep - 1], max).0)
      ensures got == Recv(old(View()).eps[ep - 1], max).1
    {
      assert View().eps[ep - 1] == EpView(ep - 1);
      got := endpoints[ep - 1].Take(max);
      OnlyThisRing(ep - 1);
    }

    /** Changing one endpoint record leaves the others alone. */
    twostate lemma OnlyThisRing(e: nat)
      requires Linked() && e < MAX_ENDPOINTS
      requires forall o :: o in feet && o !in Foot(e) ==> unchanged(o)
      ensures Eps() == old(Eps())[e := EpView(e)]
    {
      forall i | 0 <= i < MAX_ENDPOINTS && i != e ensures Eps()[i] == old(Eps())[i] {
        assert Foot(i) <= feet && Foot(i) !! Foot(e);
        assert unchanged(endpoints[i]) && unchanged(endpoints[i].buf) && unchanged(endpoints[i].waiters);
      }
    }

    method EpCreateCall() returns (rax: u64)
      requires Valid()
      modifies this`nextEp, procs
      ensures Valid() && (View(), rax) == EpCreate(old(View()))
    {
      var i := nextEp;
      nextEp := nextEp + 1;
      if i >= MAX_ENDPOINTS {
        return ERR;
      }
      var cap := CapAllocFor(current, i + 1);
      return if cap == 0 then ERR else cap;
    }

    // ---- user memory ----

    method UserCopyOut(root: int, ptr: int, bytes: seq<int>) returns (ok: bool)
      requires Valid()
      modifies this`mem
      ensures Valid() && View() == old(View()).(mem := View().mem)
      ensures (View().mem, ok) == CopyOut(old(View()).mem, SpaceOf(old(View()), root), ptr, bytes, 0)
    {
      var space := if root in spaces then spaces[root] else map[];
      ghost var before := mem;
      var i := 0;
      while i < |bytes|
        invariant 0 <= i <= |bytes|
        invariant CopyOut(before, space, ptr, bytes, 0) == CopyOut(mem, space, ptr, bytes, i)
      {
        var pa := Translate(space, (ptr + i) % TWO_64);
        if pa.None? {
          return false;
        }
        mem := mem[pa.value := bytes[i]];
        i := i + 1;
      }
      return true;
    }

    method UserCopyIn(root: int, ptr: int, n: nat) returns (got: Option<seq<int>>)
      requires Valid()
      ensures got == CopyIn(mem, SpaceOf(View(), root), ptr, n)
    {
      var space := if root in spaces then spaces[root] else map[];
      var bytes: seq<int> := [];
      var i := 0;
      while i < n
        invariant 0 <= i <= n && CopyIn(mem, space, ptr, i) == Some(bytes)
      {
        var pa := Translate(space, (ptr + i) % TWO_64);
        if pa.None? {
          CopyInFails(mem, space, ptr, i + 1, n);
          return None;
        }
        bytes := bytes + [ByteAt(mem, pa.value)];
        i := i + 1;
      }
      return Some(bytes);
    }

    lemma {:induction false} CopyInFails(m: map<int, int>, space: map<int, int>, ptr: int, i: nat, n: nat)
      requires i <= n && CopyIn(m, space, ptr, i).None?
      ensures CopyIn(m, space, ptr, n).None?
      decreases n
    {
      if i < n {
        CopyInFails(m, space, ptr, i, n - 1);
      }
    }

    method WriteCall(tf: int)
      requires Valid()
      modifies this`frames
      ensures Valid()
      ensures var s := old(View());
              var f := FrameAt(s, tf);
              View() == SetRax(s, tf, Readable(SpaceOf(s, s.cr3), f.rdi, 0, Min(f.rsi, 1024)))
    {
      var f := if tf in frames then frames[tf] else Frame(0, 0, 0, 0, 0, []);
      var space := if cr3 in spaces then spaces[cr3] else map[];
      var n := Min(f.rsi, 1024);
      var written := 0;
      while written < n && Translate(space, (f.rdi + written) % TWO_64).Some?
        invariant 0 <= written <= n
        invariant Readable(space, f.rdi, 0, n) == Readable(space, f.rdi, written, n)
      {
        written := written + 1;
      }
      SetRaxOf(tf, written);
    }

    // ---- message passing ----

    method DeliverIpc(pid: nat, msg: seq<int>, xfer: nat) returns (rax: u64)
      requires Valid()
      modifies this`mem, this`frames, procs
      ensures Valid() && (View(), rax) == Deliver(old(View()), pid, msg, xfer)
    {
      if pid >= MAX_PROCS {
        return ERR;
      }
      var tf := procs[pid].tfRsp;
      var f := if tf in frames then frames[tf] else Frame(0, 0, 0, 0, 0, []);
      var n := Min(Min(f.rdx, MAX_MSG), |msg|);
      var ok := UserCopyOut(procs[pid].cr3, f.rsi, msg[..n]);
      if !ok {
        return ERR;
      }
      var cap := CapAllocFor(pid, xfer);
      frames := frames[tf := f.(rax := n, rdx := cap)];
      WakeUp(pid);
      return n;
    }

    method SendCall(tf: int, xfer: nat)
      requires Valid()
      modifies this, procs, feet
      ensures Valid() && View() == SendMsg(old(View()), tf, xfer)
    {
      var f := if tf in frames then frames[tf] else Frame(0, 0, 0, 0, 0, []);
      var msg := UserCopyIn(cr3, f.rsi, Min(f.rdx, MAX_MSG));
      if msg.None? {
        SetRaxOf(tf, ERR);
        return;
      }
      var ep := CapLookupCurrent(f.rdi % TWO_32);
      if ep == 0 || ep > MAX_ENDPOINTS {
        SetRaxOf(tf, ERR);
        return;
      }
      assert Foot(ep - 1) <= feet;
      var waiter := WaiterPopOn(ep);
      if waiter.Some? {
        var rax := DeliverIpc(waiter.value, msg.value, xfer);
        SetRaxOf(tf, rax);
      } else {
        assert View() == old(View());
        var ok := PutOn(ep, msg.value, xfer);
        if ok {
          SetRaxOf(tf, |msg.value|);
        } else {
          assert View() == old(View());
          SetRaxOf(tf, FULL);
        }
      }
    }

    method SendCapCall(tf: int)
      requires Valid()
      modifies this, procs, feet
      ensures Valid() && View() == SendCap(old(View()), tf)
    {
      var f := if tf in frames then frames[tf] else Frame(0, 0, 0, 0, 0, []);
      var xferCap := f.rcx % TWO_32;
      var xfer := CapLookupCurrent(xferCap);
      if xferCap != 0 && xfer == 0 {
        SetRaxOf(tf, ERR);
      } else {
        SendCall(tf, xfer);
      }
    }

    method Fail(tf: int, withCap: bool, code: u64)
      requires Valid()
      modifies this`frames
      ensures Valid() && View() == RecvFail(old(View()), tf, withCap, code)
    {
      var f := if tf in frames then frames[tf] else Frame(0, 0, 0, 0, 0, []);
      frames := frames[tf := if withCap then f.(rax := code, rdx := 0) else f.(rax := code)];
    }

    static lemma RefusedIsSame(s: State, ep: nat, pid: nat, max: nat)
      requires Wf(s) && 1 <= ep <= MAX_ENDPOINTS
      ensures Recv(s.eps[ep - 1], max).1.None? ==> Recv(s.eps[ep - 1], max).0 == s.eps[ep - 1]
      ensures !WaiterPush(s.eps[ep - 1], pid).1 ==> WaiterPush(s.eps[ep - 1], pid).0 == s.eps[ep - 1]
      ensures SetRing(s, ep, s.eps[ep - 1]) == s
    {
      assert s.eps[ep - 1 := s.eps[ep - 1]] == s.eps;
    }

    method RecvCall(tf: int, withCap: bool) returns (next: int)
      requires Valid()
      modifies this, procs, feet
      ensures Valid() && (View(), next) == RecvMsg(old(View()), tf, withCap)
    {
      hide Recv, WaiterPush, SwitchFrom, RecvDone, RecvFail, HasOtherRunnable, Block;
      var f := if tf in frames then frames[tf] else Frame(0, 0, 0, 0, 0, []);
      var ep := CapLookupCurrent(f.rdi % TWO_32);
      if ep == 0 || ep > MAX_ENDPOINTS {
        Fail(tf, withCap, ERR);
        return 0;
      }
      assert Foot(ep - 1) <= feet;
      ghost var v := View();
      RefusedIsSame(v, ep, current, Min(f.rdx, MAX_MSG));
      var got := TakeFrom(ep, Min(f.rdx, MAX_MSG));
      if got.Some? {
        Finish(tf, withCap, got.value);
        return 0;
      }
      assert View() == v;
      var others := OtherRunnable();
      if !others {
        Fail(tf, withCap, EMPTY);
        return 0;
      }
      var ok := WaiterPushOn(ep, current);
      if !ok {
        assert View() == v;
        Fail(tf, withCap, EMPTY);
        return 0;
      }
      BlockCurrentOn(ep);
      next := Switch(tf);
    }

    method Finish(tf: int, withCap: bool, p: Payload)
      requires Valid() && |p.bytes| <= MAX_MSG
      modifies this`mem, this`frames, procs
      ensures Valid() && View() == RecvDone(old(View()), tf, withCap, p)
    {
      var f := if tf in frames then frames[tf] else Frame(0, 0, 0, 0, 0, []);
      var ok := UserCopyOut(cr3, f.rsi, p.bytes);
      if !ok {
        Fail(tf, withCap, ERR);
      } else if !withCap {
        SetRaxOf(tf, |p.bytes|);
      } else {
        var cap := CapAllocFor(current, p.xfer);
        frames := frames[tf := f.(rax := |p.bytes|, rdx := cap)];
      }
    }

    // ---- processes ----

    method SpawnProc(b: Build) returns (pid: Option<nat>)
      requires Valid()
      modifies procs
      ensures Valid()
      ensures var n := FreeProc(old(View()).procs, 0);
              if n == MAX_PROCS then pid == None && View() == old(View())
              else pid == Some(n) && View() == old(View()).(procs := old(View()).procs[n := NewProc(b)])
    {
      ghost var table := procs[..];
      var n := 0;
      while n < MAX_PROCS && procs[n].alive
        invariant 0 <= n <= MAX_PROCS
        invariant FreeProc(table, 0) == FreeProc(table, n)
      {
        n := n + 1;
      }
      if n == MAX_PROCS {
        return None;
      }
      procs[n] := NewProc(b);
      assert procs[..] == table[n := NewProc(b)];
      return Some(n);
    }

    method SpawnCall(tf: int, b: Build)
      requires Valid()
      modifies this, procs
      ensures Valid() && View() == Spawn(old(View()), tf, b)
    {
      var f := if tf in frames then frames[tf] else Frame(0, 0, 0, 0, 0, []);
      if f.rdi != 1 {
        SetRaxOf(tf, ERR);
        return;
      }
      var ep := CapLookupCurrent(f.rdx % TWO_32);
      var rax := SpawnSharing(b, f.rsi, ep);
      SetRaxOf(tf, rax);
    }

    method SpawnSharing(b: Build, role: u64, ep: nat) returns (rax: u64)
      requires Valid()
      modifies this, procs
      ensures Valid() && (View(), rax) == SpawnWith(old(View()), b, role, ep)
    {
      var child := b.kstackTop - FRAME_SIZE;
      spaces := spaces[b.cr3 := b.space];
      mem := mem + b.image;
      frames := frames[child := Frame(0, role, 0, 0, 0, b.others)];
      var pid := SpawnProc(b);
      if pid.None? {
        return ERR;
      }
      var cap := CapAllocFor(pid.value, ep);
      frames := frames[child := frames[child].(rsi := cap)];
      return pid.value;
    }

    // ---- traps ----

    method SyscallTrap(tf: int, b: Build) returns (next: int)
      requires Valid()
      modifies this, procs, feet
      ensures Valid() && (View(), next) == Dispatch(old(View()), tf, b)
    {
      var f := if tf in frames then frames[tf] else Frame(0, 0, 0, 0, 0, []);
      next := 0;
      if f.rax == SYS_PUTC {
        SetRaxOf(tf, 0);
      } else if f.rax == SYS_YIELD {
        SetRaxOf(tf, 0);
        next := Switch(tf);
      } else if f.rax == SYS_WRITE {
        WriteCall(tf);
      } else if f.rax == SYS_EP_CREATE {
        var rax := EpCreateCall();
        SetRaxOf(tf, rax);
      } else if f.rax == SYS_SEND {
        SendCall(tf, 0);
      } else if f.rax == SYS_RECV {
        next := RecvCall(tf, false);
      } else if f.rax == SYS_SEND_CAP {
        SendCapCall(tf);
      } else if f.rax == SYS_RECV_CAP {
        next := RecvCall(tf, true);
      } else if f.rax == SYS_SPAWN {
        SpawnCall(tf, b);
      } else {
        SetRaxOf(tf, ERR);
      }
    }

    method HandleBody(tf: int, ev: Event) returns (next: int)
      requires Valid()
      modifies this, procs, feet
      ensures Valid() && (View(), next) == Handle(old(View()), tf, ev)
    {
      if ev.kind == Timer {
        next := Switch(tf);
      } else {
        next := SyscallTrap(tf, ev.build);
      }
    }

    /** One trap from user mode to user mode. */
    method HandleTrap(ev: Event)
      requires Valid()
      modifies this, procs, feet
      ensures Valid() && View() == Trap(old(View()), ev)
    {
      var tf := EntryFrame(rsp0);
      mem := ev.mem;
      frames := frames[tf := ev.regs];
      assert View() == Enter(old(View()), ev);
      var next := HandleBody(tf, ev);
      if next != 0 {
        cr3 := nextCr3;
        ret := next;
      } else {
        ret := tf;
      }
    }
  }
}
