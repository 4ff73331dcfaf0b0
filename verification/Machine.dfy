/** The kernel between two trap returns, as values: processes, endpoints, capabilities, saved frames,
    and the effect of every trap. Traps are atomic (interrupt gates, one core). */
module Machine {
  import opened Words
  import opened Rings

  const MAX_PROCS: nat := 8
  const MAX_ENDPOINTS: nat := 32
  const CAP_SLOTS: nat := 32
  const FRAME_SIZE: int := 160
  const KSTACK_SIZE: int := 16384

  const ERR: int := MAX_U64
  const FULL: int := MAX_U64 - 1
  const EMPTY: int := MAX_U64 - 2

  const SYS_PUTC: int := 1
  const SYS_YIELD: int := 2
  const SYS_WRITE: int := 3
  const SYS_EP_CREATE: int := 0x10
  const SYS_SEND: int := 0x11
  const SYS_RECV: int := 0x12
  const SYS_SEND_CAP: int := 0x13
  const SYS_RECV_CAP: int := 0x14
  const SYS_SPAWN: int := 0x20

  /** A saved trap frame; others are the registers that the kernel only saves and restores. */
  datatype Frame = Frame(rax: u64, rdi: u64, rsi: u64, rdx: u64, rcx: u64, others: seq<int>)

  datatype Proc = Proc(tfRsp: int, kstackTop: int, cr3: int, caps: seq<nat>, alive: bool, runnable: bool,
                       blockedEp: nat)

  /** spaces: for each address-space root, the user-accessible pages (page number to frame address).
      ret: the address of the frame that the last trap return popped. */
  datatype State = State(procs: seq<Proc>, eps: seq<Ring>, nextEp: nat, current: nat,
                         rsp0: int, nextCr3: int, cr3: int, ret: int,
                         frames: map<int, Frame>, mem: map<int, int>, spaces: map<int, map<int, int>>)

  /** What building a new process produces: its kernel stack, its address space with the loaded image,
      and its entry registers. */
  datatype Build = Build(kstackTop: int, cr3: int, space: map<int, int>, image: map<int, int>, others: seq<int>)

  datatype Kind = Timer | Syscall

  /** One trap: the registers of the interrupted process, what user mode left in memory, and the process
      that a spawn would build. */
  datatype Event = Event(kind: Kind, regs: Frame, mem: map<int, int>, build: Build)

  ghost predicate Wf(s: State) {
    && |s.procs| == MAX_PROCS && |s.eps| == MAX_ENDPOINTS && s.current < MAX_PROCS
    && (forall p :: 0 <= p < MAX_PROCS ==> |s.procs[p].caps| == CAP_SLOTS)
    && (forall e :: 0 <= e < MAX_ENDPOINTS ==> RingOk(s.eps[e]))
  }

  // ---- saved frames ----

  function FrameAt(s: State, tf: int): Frame {
    if tf in s.frames then s.frames[tf] else Frame(0, 0, 0, 0, 0, [])
  }

  function SetFrame(s: State, tf: int, f: Frame): State { s.(frames := s.frames[tf := f]) }

  function SetRax(s: State, tf: int, v: u64): State { SetFrame(s, tf, FrameAt(s, tf).(rax := v)) }

  // ---- user memory ----

  function SpaceOf(s: State, cr3: int): map<int, int> { if cr3 in s.spaces then s.spaces[cr3] else map[] }

  function Translate(space: map<int, int>, va: int): Option<int> {
    if va / PAGE_SIZE in space then Some(space[va / PAGE_SIZE] + va % PAGE_SIZE) else None
  }

  /** Store the bytes from index i on, one by one; stop at the first unmapped address. */
  function CopyOut(mem: map<int, int>, space: map<int, int>, ptr: int, bytes: seq<int>, i: nat): (map<int, int>, bool)
    decreases |bytes| - i
  {
    if i >= |bytes| then (mem, true)
    else
      var pa := Translate(space, (ptr + i) % TWO_64);
      if pa.None? then (mem, false) else CopyOut(mem[pa.value := bytes[i]], space, ptr, bytes, i + 1)
  }

  function ByteAt(mem: map<int, int>, pa: int): int { if pa in mem then mem[pa] else 0 }

  function CopyIn(mem: map<int, int>, space: map<int, int>, ptr: int, n: nat): (r: Option<seq<int>>)
    ensures r.Some? ==> |r.value| == n
  {
    if n == 0 then Some([])
    else
      var front := CopyIn(mem, space, ptr, n - 1);
      var pa := Translate(space, (ptr + n - 1) % TWO_64);
      if front.None? || pa.None? then None else Some(front.value + [ByteAt(mem, pa.value)])
  }

  /** How many bytes from ptr on can be read before the first unmapped address. */
  function Readable(space: map<int, int>, ptr: int, i: nat, n: nat): (r: nat)
    requires i <= n
    ensures i <= r <= n
    decreases n - i
  {
    if i == n || Translate(space, (ptr + i) % TWO_64).None? then i else Readable(space, ptr, i + 1, n)
  }

  // ---- capabilities ----

  /** The endpoint id in a slot; slots and ids count from 1, and 0 is none. */
  function CapLookup(caps: seq<nat>, cap: int): nat
    requires |caps| == CAP_SLOTS
  {
    if 1 <= cap <= CAP_SLOTS then caps[cap - 1] else 0
  }

  function FirstFree(caps: seq<nat>, i: nat): (r: nat)
    requires i <= |caps|
    ensures i <= r <= |caps|
    ensures r < |caps| ==> caps[r] == 0
    ensures forall k :: i <= k < r ==> caps[k] != 0
    decreases |caps| - i
  {
    if i == |caps| || caps[i] == 0 then i else FirstFree(caps, i + 1)
  }

  /** Put the endpoint into the first empty slot of pid's table; the result counts from 1, 0 is failure. */
  function CapAlloc(s: State, pid: nat, ep: nat): (r: (State, nat))
    requires Wf(s)
    ensures Wf(r.0) && r.1 <= CAP_SLOTS && r.0.cr3 == s.cr3 && r.0.current == s.current
  {
    if pid >= MAX_PROCS || ep == 0 then (s, 0)
    else
      var i := FirstFree(s.procs[pid].caps, 0);
      if i == CAP_SLOTS then (s, 0)
      else
        var p := s.procs[pid];
        (s.(procs := s.procs[pid := p.(caps := p.caps[i := ep])]), i + 1)
  }

  function CurrentLookup(s: State, cap: int): nat
    requires Wf(s)
  {
    CapLookup(s.procs[s.current].caps, cap)
  }

  // ---- scheduling ----

  predicate Ready(p: Proc) { p.alive && p.runnable }

  function After(procs: seq<Proc>, cur: nat, k: nat): Proc
    requires |procs| == MAX_PROCS
  {
    procs[(cur + k) % MAX_PROCS]
  }

  /** The first ready process among those k, k + 1, ..., 8 places after cur; cur itself if there is none. */
  function PickFrom(procs: seq<Proc>, cur: nat, k: nat): (r: nat)
    requires |procs| == MAX_PROCS && cur < MAX_PROCS && 1 <= k <= MAX_PROCS + 1
    ensures r < MAX_PROCS
    decreases MAX_PROCS + 1 - k
  {
    if k > MAX_PROCS then cur
    else if Ready(After(procs, cur, k)) then (cur + k) % MAX_PROCS
    else PickFrom(procs, cur, k + 1)
  }

  predicate HasOtherRunnable(s: State)
    requires Wf(s)
  {
    exists p :: 0 <= p < MAX_PROCS && p != s.current && Ready(s.procs[p])
  }

  /** Save the frame pointer, pick the next ready process and prepare its stack and address space.
      The result is its frame pointer, or 0 when the current process goes on. */
  function SwitchFrom(s: State, tf: int): (r: (State, int))
    requires Wf(s)
    ensures Wf(r.0) && r.0.cr3 == s.cr3
  {
    var cur := s.current;
    var procs := s.procs[cur := s.procs[cur].(tfRsp := tf)];
    var next := PickFrom(procs, cur, 1);
    if next == cur then (s.(procs := procs), 0)
    else
      (s.(procs := procs, rsp0 := procs[next].kstackTop, nextCr3 := procs[next].cr3, current := next),
       procs[next].tfRsp)
  }

  function Block(s: State, ep: nat): (r: State)
    requires Wf(s)
    ensures Wf(r) && r.cr3 == s.cr3 && r.current == s.current
  {
    s.(procs := s.procs[s.current := s.procs[s.current].(runnable := false, blockedEp := ep)])
  }

  function Wake(s: State, pid: nat): (r: State)
    requires Wf(s)
    ensures Wf(r) && r.cr3 == s.cr3 && r.current == s.current
  {
    if pid < MAX_PROCS && s.procs[pid].alive
    then s.(procs := s.procs[pid := s.procs[pid].(runnable := true, blockedEp := 0)])
    else s
  }

  // ---- endpoints ----

  function SetRing(s: State, ep: nat, r: Ring): (s': State)
    requires Wf(s) && 1 <= ep <= MAX_ENDPOINTS && RingOk(r)
    ensures Wf(s') && s'.cr3 == s.cr3 && s'.current == s.current
  {
    s.(eps := s.eps[ep - 1 := r])
  }

  lemma RingOpsOk(r: Ring, pid: nat, bytes: seq<int>, xfer: nat, max: nat)
    requires RingOk(r)
    ensures RingOk(WaiterPush(r, pid).0) && RingOk(WaiterPop(r).0)
    ensures RingOk(Send(r, bytes, xfer).0) && RingOk(Recv(r, max).0)
  {
  }

  function EpCreate(s: State): (r: (State, u64))
    requires Wf(s)
    ensures Wf(r.0) && r.0.cr3 == s.cr3 && r.0.current == s.current
  {
    var s1 := s.(nextEp := s.nextEp + 1);
    if s.nextEp >= MAX_ENDPOINTS then (s1, ERR)
    else
      var (s2, cap) := CapAlloc(s1, s1.current, s.nextEp + 1);
      (s2, if cap == 0 then ERR else cap)
  }

  /** Copy a message straight into the buffer of a blocked receiver, complete its system call and wake it.
      A failed copy leaves the receiver as it is. */
  function Deliver(s: State, pid: nat, msg: seq<int>, xfer: nat): (r: (State, u64))
    requires Wf(s)
    ensures Wf(r.0) && r.0.cr3 == s.cr3 && r.0.current == s.current
  {
    if pid >= MAX_PROCS then (s, ERR)
    else
      var tf := s.procs[pid].tfRsp;
      var f := FrameAt(s, tf);
      var n := Min(Min(f.rdx, MAX_MSG), |msg|);
      var (mem, ok) := CopyOut(s.mem, SpaceOf(s, s.procs[pid].cr3), f.rsi, msg[..n], 0);
      var s1 := s.(mem := mem);
      if !ok then (s1, ERR)
      else
        var (s2, cap) := CapAlloc(s1, pid, xfer);
        (Wake(SetFrame(s2, tf, f.(rax := n, rdx := cap)), pid), n)
  }

  /** The common part of both send calls, once the endpoint to transfer (0 for none) is known. */
  function SendMsg(s: State, tf: int, xfer: nat): (r: State)
    requires Wf(s)
    ensures Wf(r) && r.cr3 == s.cr3 && r.current == s.current
  {
    var f := FrameAt(s, tf);
    var msg := CopyIn(s.mem, SpaceOf(s, s.cr3), f.rsi, Min(f.rdx, MAX_MSG));
    var ep := CurrentLookup(s, f.rdi % TWO_32);
    if msg.None? || ep == 0 || ep > MAX_ENDPOINTS then SetRax(s, tf, ERR)
    else
      var ring := s.eps[ep - 1];
      RingOpsOk(ring, 0, msg.value, xfer, 0);
      var (popped, waiter) := WaiterPop(ring);
      if waiter.Some? then
        var (s1, rax) := Deliver(SetRing(s, ep, popped), waiter.value, msg.value, xfer);
        SetRax(s1, tf, rax)
      else
        var (ring', ok) := Send(ring, msg.value, xfer);
        if ok then SetRax(SetRing(s, ep, ring'), tf, |msg.value|) else SetRax(s, tf, FULL)
  }

  function SendCap(s: State, tf: int): (r: State)
    requires Wf(s)
    ensures Wf(r) && r.cr3 == s.cr3 && r.current == s.current
  {
    var xferCap := FrameAt(s, tf).rcx % TWO_32;
    var xfer := CurrentLookup(s, xferCap);
    if xferCap != 0 && xfer == 0 then SetRax(s, tf, ERR) else SendMsg(s, tf, xfer)
  }

  /** End of a receive that hands nothing over. Only the capability-aware call clears rdx. */
  function RecvFail(s: State, tf: int, withCap: bool, code: u64): State {
    var f := FrameAt(s, tf);
    SetFrame(s, tf, if withCap then f.(rax := code, rdx := 0) else f.(rax := code))
  }

  /** Both receive calls; withCap tells IPC_RECV_CAP from IPC_RECV. */
  function RecvMsg(s: State, tf: int, withCap: bool): (r: (State, int))
    requires Wf(s)
    ensures Wf(r.0) && r.0.cr3 == s.cr3
  {
    var f := FrameAt(s, tf);
    var ep := CurrentLookup(s, f.rdi % TWO_32);
    if ep == 0 || ep > MAX_ENDPOINTS then (RecvFail(s, tf, withCap, ERR), 0)
    else
      var ring := s.eps[ep - 1];
      RingOpsOk(ring, s.current, [], 0, Min(f.rdx, MAX_MSG));
      var (ring', got) := Recv(ring, Min(f.rdx, MAX_MSG));
      if got.None? then
        var (waiting, ok) := WaiterPush(ring, s.current);
        if HasOtherRunnable(s) && ok then SwitchFrom(Block(SetRing(s, ep, waiting), ep), tf)
        else (RecvFail(s, tf, withCap, EMPTY), 0)
      else (RecvDone(SetRing(s, ep, ring'), tf, withCap, got.value), 0)
  }

  /** Copy the received bytes out and, for the capability-aware call, install the transferred endpoint. */
  function RecvDone(s: State, tf: int, withCap: bool, p: Payload): (r: State)
    requires Wf(s) && |p.bytes| <= MAX_MSG
    ensures Wf(r) && r.cr3 == s.cr3 && r.current == s.current
  {
    var f := FrameAt(s, tf);
    var (mem, ok) := CopyOut(s.mem, SpaceOf(s, s.cr3), f.rsi, p.bytes, 0);
    var s1 := s.(mem := mem);
    if !ok then RecvFail(s1, tf, withCap, ERR)
    else if !withCap then SetRax(s1, tf, |p.bytes|)
    else
      var (s2, cap) := CapAlloc(s1, s1.current, p.xfer);
      SetFrame(s2, tf, f.(rax := |p.bytes|, rdx := cap))
  }

  // ---- processes ----

  function FreeProc(procs: seq<Proc>, i: nat): (r: nat)
    requires i <= |procs|
    ensures i <= r <= |procs|
    ensures r < |procs| ==> !procs[r].alive
    ensures forall k :: i <= k < r ==> procs[k].alive
    decreases |procs| - i
  {
    if i == |procs| || !procs[i].alive then i else FreeProc(procs, i + 1)
  }

  function NewProc(b: Build): Proc {
    Proc(b.kstackTop - FRAME_SIZE, b.kstackTop, b.cr3, seq(CAP_SLOTS, _ => 0), true, true, 0)
  }

  /** Build a process, give it a slot and a capability to the shared endpoint (0 for none). */
  function SpawnWith(s: State, b: Build, role: u64, ep: nat): (r: (State, u64))
    requires Wf(s)
    ensures Wf(r.0) && r.0.cr3 == s.cr3 && r.0.current == s.current
  {
    var tf := b.kstackTop - FRAME_SIZE;
    var s1 := s.(spaces := s.spaces[b.cr3 := b.space], mem := s.mem + b.image,
                 frames := s.frames[tf := Frame(0, role, 0, 0, 0, b.others)]);
    var pid := FreeProc(s1.procs, 0);
    if pid == MAX_PROCS then (s1, ERR)
    else
      var s2 := s1.(procs := s1.procs[pid := NewProc(b)]);
      var (s3, cap) := CapAlloc(s2, pid, ep);
      (SetFrame(s3, tf, FrameAt(s3, tf).(rsi := cap)), pid)
  }

  function Spawn(s: State, tf: int, b: Build): (r: State)
    requires Wf(s)
    ensures Wf(r) && r.cr3 == s.cr3 && r.current == s.current
  {
    var f := FrameAt(s, tf);
    if f.rdi != 1 then SetRax(s, tf, ERR)
    else
      var (s1, rax) := SpawnWith(s, b, f.rsi, CurrentLookup(s, f.rdx % TWO_32));
      SetRax(s1, tf, rax)
  }

  // ---- traps ----

  function Dispatch(s: State, tf: int, b: Build): (r: (State, int))
    requires Wf(s)
    ensures Wf(r.0) && r.0.cr3 == s.cr3
  {
    var f := FrameAt(s, tf);
    if f.rax == SYS_PUTC then (SetRax(s, tf, 0), 0)
    else if f.rax == SYS_YIELD then SwitchFrom(SetRax(s, tf, 0), tf)
    else if f.rax == SYS_WRITE then
      (SetRax(s, tf, Readable(SpaceOf(s, s.cr3), f.rdi, 0, Min(f.rsi, 1024))), 0)
    else if f.rax == SYS_EP_CREATE then
      var (s1, rax) := EpCreate(s);
      (SetRax(s1, tf, rax), 0)
    else if f.rax == SYS_SEND then (SendMsg(s, tf, 0), 0)
    else if f.rax == SYS_RECV then RecvMsg(s, tf, false)
    else if f.rax == SYS_SEND_CAP then (SendCap(s, tf), 0)
    else if f.rax == SYS_RECV_CAP then RecvMsg(s, tf, true)
    else if f.rax == SYS_SPAWN then (Spawn(s, tf, b), 0)
    else (SetRax(s, tf, ERR), 0)
  }

  /** The processor aligns rsp0 down to 16 bytes before it pushes its part of the frame; the stub saves the registers
      below. */
  function EntryFrame(rsp0: int): int { rsp0 / 16 * 16 - FRAME_SIZE }

  /** A trap from user mode finds the frame at the top of the current process's kernel stack. */
  function Enter(s: State, ev: Event): (r: State)
    requires Wf(s)
    ensures Wf(r) && r.cr3 == s.cr3
  {
    SetFrame(s.(mem := ev.mem), EntryFrame(s.rsp0), ev.regs)
  }

  /** The stub loads the new address space only when the handler returned a frame pointer, and pops. */
  function Leave(s: State, tf: int, switchTo: int): (r: State)
    requires Wf(s)
    ensures Wf(r)
  {
    if switchTo != 0 then s.(cr3 := s.nextCr3, ret := switchTo) else s.(ret := tf)
  }

  /** The body of the handler, between the stub's entry and exit. */
  function Handle(s: State, tf: int, ev: Event): (r: (State, int))
    requires Wf(s)
    ensures Wf(r.0) && r.0.cr3 == s.cr3
  {
    if ev.kind == Timer then SwitchFrom(s, tf) else Dispatch(s, tf, ev.build)
  }

  function Trap(s: State, ev: Event): (r: State)
    requires Wf(s)
    ensures Wf(r)
  {
    var tf := EntryFrame(s.rsp0);
    var (s1, switchTo) := Handle(Enter(s, ev), tf, ev);
    Leave(s1, tf, switchTo)
  }
}
