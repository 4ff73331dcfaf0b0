/** Where capabilities come from: over every run they are permanent, every transferred endpoint was held by
    its sender, and groups of processes that share no endpoint never come to share one. */
module Provenance {
  import opened Rings
  import opened Machine
  import opened Invariant
  import opened Traps
  import opened Runs
  import opened Calls
  import opened Mailboxes

  // ---- a granted capability is permanent ----

  lemma {:induction false} CapsPermanent(states: seq<State>, events: seq<Event>, i: nat, j: nat, p: nat, slot: nat)
    requires IsRun(states, events) && i <= j <= |events| && p < MAX_PROCS && slot < CAP_SLOTS
    requires Wf(states[i]) && states[i].procs[p].alive && states[i].procs[p].caps[slot] != 0
    ensures Wf(states[j]) && states[j].procs[p].alive && states[j].procs[p].caps[slot] == states[i].procs[p].caps[slot]
    decreases j
  {
    RunInv(states, events, j);
    if i < j {
      CapsPermanent(states, events, i, j - 1, p, slot);
      RunStep(states, events, j - 1);
    }
  }

  // ---- the origin of one capability ----

  /** The reasons for which p can come to hold x in one trap. */
  datatype Origin =
    | Created                     // p created it in this trap, and nobody held it before
    | Inherited                   // p was spawned in this trap by a holder
    | Taken(via: int)             // p took it from the message at the head of an endpoint it holds
    | Delivered(via: int)         // a holder delivered it on an endpoint that both hold

  ghost predicate Explains(s: State, s': State, p: int, x: nat, o: Origin)
    requires Wf(s) && Wf(s') && 0 <= p < MAX_PROCS
  {
    match o
    case Created => p == s.current && x == s.nextEp + 1 <= MAX_ENDPOINTS
                    && forall q :: 0 <= q < MAX_PROCS ==> !Holds(s, q, x)
    case Inherited => !s.procs[p].alive && Holds(s, s.current, x)
    case Taken(f) => InMessage(s, p, x, f)
    case Delivered(f) => FirstAt(s, p, f) && Holds(s, s.current, x)
  }

  /** Whoever holds an endpoint after a trap and did not hold it before has one of four reasons. */
  lemma EveryGainExplained(s: State, s': State, p: nat, x: nat) returns (o: Origin)
    requires Inv(s) && Inv(s') && Change(s, s')
    requires Holds(s', p, x) && !Holds(s, p, x)
    ensures Explains(s, s', p, x, o)
  {
    var i :| 0 <= i < CAP_SLOTS && s'.procs[p].caps[i] == x;
    if !s.procs[p].alive {
      o := Inherited;
    } else {
      assert s.procs[p].caps[i] != x;
      assert MayGain(s, p, x);
      if f :| InMessage(s, p, x, f) {
        o := Taken(f);
      } else if f :| Holds(s, s.current, x) && FirstAt(s, p, f) {
        o := Delivered(f);
      } else {
        o := Created;
        assert x <= Issued(s');
      }
    }
  }

  // ---- every endpoint in a message was held by its sender ----

  /** What slot j of endpoint e + 1 holds. */
  ghost function Slot(s: State, e: nat, j: nat): Msg {
    if Wf(s) && e < MAX_ENDPOINTS && j < Q_LEN then s.eps[e].buf[j] else EmptyMsg()
  }

  ghost predicate HoldsAt(s: State, p: int, x: int) { Wf(s) && Holds(s, p, x) }

  /** What slot j of endpoint e + 1 holds at n was sent there at i, with these bytes, by a process that held both the
      endpoint and what the message transfers, and the slot has stayed as it was since. */
  ghost predicate SlotFilledAt(states: seq<State>, events: seq<Event>, e: nat, j: nat, n: nat, i: nat, bytes: seq<int>)
    requires n < |states| && i < |events|
  {
    var m := Slot(states[n], e, j);
    && i < n && Slot(states[i], e, j) != m && (forall k :: i < k <= n ==> Slot(states[k], e, j) == m)
    && m.len <= |m.data| && PayloadOf(m) == Payload(bytes, m.xfer)
    && Wf(states[i]) && SentBy(states[i], events[i], e, bytes, m.xfer)
    && Holds(states[i], states[i].current, e + 1) && (m.xfer != 0 ==> Holds(states[i], states[i].current, m.xfer))
  }

  /** Over every run: a message slot that does not look as at the start was filled by a send, at the trap returned, and
      the sender held the endpoint and what it transferred. */
  lemma {:induction false} MessageProvenance(states: seq<State>, events: seq<Event>, n: nat, e: nat, j: nat)
    returns (i: nat, bytes: seq<int>)
    requires IsRun(states, events) && n <= |events| && e < MAX_ENDPOINTS && j < Q_LEN
    requires Slot(states[n], e, j) != EmptyMsg()
    ensures i < |events| && SlotFilledAt(states, events, e, j, n, i, bytes)
  {
    hide SlotFilledAt, Slot;
    if n == 0 {
      EmptyAtBoot(states, events, e, j);
      assert false;
    } else if Slot(states[n], e, j) == Slot(states[n - 1], e, j) {
      i, bytes := MessageProvenance(states, events, n - 1, e, j);
      StillFilled(states, events, e, j, n - 1, i, bytes);
    } else {
      i := n - 1;
      bytes := JustFilled(states, events, n - 1, e, j);
    }
  }

  lemma StillFilled(states: seq<State>, events: seq<Event>, e: nat, j: nat, n: nat, i: nat, bytes: seq<int>)
    requires n + 1 < |states| && i < |events| && SlotFilledAt(states, events, e, j, n, i, bytes)
    requires Slot(states[n + 1], e, j) == Slot(states[n], e, j)
    ensures SlotFilledAt(states, events, e, j, n + 1, i, bytes)
  {
    hide Slot, SentBy;
  }

  lemma JustFilled(states: seq<State>, events: seq<Event>, n: nat, e: nat, j: nat) returns (bytes: seq<int>)
    requires IsRun(states, events) && n < |events| && e < MAX_ENDPOINTS && j < Q_LEN
    requires Slot(states[n + 1], e, j) != Slot(states[n], e, j)
    ensures SlotFilledAt(states, events, e, j, n + 1, n, bytes)
  {
    RunStep(states, events, n);
    assert StepAt(states, events, n);
    hide Trap, IsRun, SentBy;
    bytes := SlotChange(states[n], events[n], e, j);
  }

  lemma EmptyAtBoot(states: seq<State>, events: seq<Event>, e: nat, j: nat)
    requires IsRun(states, events)
    ensures Slot(states[0], e, j) == EmptyMsg()
  {
    var b: Build :| IsBoot(states[0], b);
    if e < MAX_ENDPOINTS {
      assert states[0].eps[e] == EmptyRing();
    }
  }

  // ---- where every capability comes from ----

  /** Why p holds x after step m of a run and did not before. A message that brought it was sent at step sent. */
  datatype Reason =
    | ByCreation
    | ByInheritance
    | ByDelivery(via: nat)
    | ByMessage(via: nat, sent: nat, bytes: seq<int>)

  ghost predicate Justified(states: seq<State>, events: seq<Event>, p: nat, x: nat, m: nat, why: Reason)
    requires m < |events| < |states| && p < MAX_PROCS
  {
    var s := states[m];
    Wf(s) &&
    match why
    case ByCreation => p == s.current && x == s.nextEp + 1 && forall q :: 0 <= q < MAX_PROCS ==> !Holds(s, q, x)
    case ByInheritance => !s.procs[p].alive && Holds(s, s.current, x)
    case ByDelivery(f) => FirstAt(s, p, f) && Holds(s, s.current, x)
    case ByMessage(f, i, bytes) => InMessage(s, p, x, f) && i < m && FilledHead(states, events, f, m, i, bytes)
  }

  /** The message at the head of endpoint f at m was sent there at i. */
  ghost predicate FilledHead(states: seq<State>, events: seq<Event>, f: nat, m: nat, i: nat, bytes: seq<int>)
    requires i < m < |events| < |states| && Wf(states[m]) && 1 <= f <= MAX_ENDPOINTS
  {
    SlotFilledAt(states, events, f - 1, states[m].eps[f - 1].head % Q_LEN, m, i, bytes)
  }

  /** Capability provenance, over every run: whoever holds an endpoint gained it at some step and has held it since. It
      created it then, when nobody held it; or was spawned then by a holder; or a holder delivered it then, on an
      endpoint that both held; or it took it then from a message on an endpoint it held, sent earlier by a process that
      held both that endpoint and the one transferred. */
  lemma {:induction false} CapabilityProvenance(states: seq<State>, events: seq<Event>, n: nat, p: nat, x: nat)
    returns (m: nat, why: Reason)
    requires IsRun(states, events) && n <= |events| && p < MAX_PROCS && HoldsAt(states[n], p, x)
    ensures m < n && !HoldsAt(states[m], p, x) && (forall k :: m < k <= n ==> HoldsAt(states[k], p, x))
    ensures Justified(states, events, p, x, m, why)
  {
    RunInv(states, events, n);
    if n == 0 {
      NobodyHoldsAtBoot(states, events, p, x);
      assert false;
    } else if HoldsAt(states[n - 1], p, x) {
      hide Justified, HoldsAt, Inv, IsRun;
      m, why := CapabilityProvenance(states, events, n - 1, p, x);
    } else {
      m := n - 1;
      why := GainJustified(states, events, m, p, x);
    }
  }

  lemma GainJustified(states: seq<State>, events: seq<Event>, m: nat, p: nat, x: nat) returns (why: Reason)
    requires IsRun(states, events) && m < |events| && p < MAX_PROCS
    requires HoldsAt(states[m + 1], p, x) && !HoldsAt(states[m], p, x)
    ensures Justified(states, events, p, x, m, why)
  {
    RunStep(states, events, m);
    hide Inv, Change, IsRun, SlotFilledAt;
    var o := EveryGainExplained(states[m], states[m + 1], p, x);
    match o
    case Created => why := ByCreation;
    case Inherited => why := ByInheritance;
    case Delivered(f) => why := ByDelivery(f);
    case Taken(f) =>
      var i, bytes := MessageTaken(states, events, m, p, x, f);
      why := ByMessage(f, i, bytes);
  }

  lemma MessageTaken(states: seq<State>, events: seq<Event>, m: nat, p: nat, x: nat, f: nat) returns (i: nat, bytes: seq<int>)
    requires IsRun(states, events) && m < |events| && Wf(states[m]) && x != 0 && InMessage(states[m], p, x, f)
    ensures i < m && FilledHead(states, events, f, m, i, bytes)
  {
    i, bytes := MessageProvenance(states, events, m, f - 1, states[m].eps[f - 1].head % Q_LEN);
  }

  lemma NobodyHoldsAtBoot(states: seq<State>, events: seq<Event>, p: nat, x: nat)
    requires IsRun(states, events)
    ensures !HoldsAt(states[0], p, x)
  {
    var b: Build :| IsBoot(states[0], b);
  }

  // ---- isolation ----

  /** A colouring of processes and endpoints. */
  datatype Colouring = Colouring(proc: seq<bool>, ep: seq<bool>)

  predicate Sized(c: Colouring) { |c.proc| == MAX_PROCS && |c.ep| == MAX_ENDPOINTS }

  /** Processes hold only endpoints of their own colour, and messages transfer only endpoints of the colour
      of the endpoint they wait at. */
  ghost predicate Isolated(s: State, c: Colouring)
    requires Wf(s)
  {
    && Sized(c)
    && (forall p, i :: 0 <= p < MAX_PROCS && 0 <= i < CAP_SLOTS && s.procs[p].alive
          ==> CapColour(c, p, s.procs[p].caps[i]))
    && (forall e, j :: 0 <= e < MAX_ENDPOINTS && 0 <= j < Q_LEN ==> MsgColour(c, e, s.eps[e].buf[j].xfer))
  }

  predicate CapColour(c: Colouring, p: int, x: nat)
    requires Sized(c) && 0 <= p < MAX_PROCS
  {
    x == 0 || (x <= MAX_ENDPOINTS && c.ep[x - 1] == c.proc[p])
  }

  predicate MsgColour(c: Colouring, e: int, x: nat)
    requires Sized(c) && 0 <= e < MAX_ENDPOINTS
  {
    x == 0 || (x <= MAX_ENDPOINTS && c.ep[x - 1] == c.ep[e])
  }

  /** Endpoints that were never issued have never carried a message. */
  ghost predicate Untouched(s: State)
    requires Wf(s)
  {
    forall e, j :: Issued(s) <= e < MAX_ENDPOINTS && 0 <= j < Q_LEN ==> s.eps[e].buf[j].xfer == 0
  }

  lemma UntouchedStep(s: State, s': State)
    requires Inv(s) && Inv(s') && Change(s, s') && Untouched(s)
    ensures Untouched(s')
  {
    forall e, j | Issued(s') <= e < MAX_ENDPOINTS && 0 <= j < Q_LEN ensures s'.eps[e].buf[j] == s.eps[e].buf[j] {
    }
  }

  lemma {:induction false} UntouchedRun(states: seq<State>, events: seq<Event>, n: nat)
    requires IsRun(states, events) && n <= |events|
    ensures Wf(states[n]) && Untouched(states[n])
  {
    RunInv(states, events, n);
    if n == 0 {
      var b: Build :| IsBoot(states[0], b);
      assert forall e :: 0 <= e < MAX_ENDPOINTS ==> states[0].eps[e] == EmptyRing();
    } else {
      UntouchedRun(states, events, n - 1);
      RunStep(states, events, n - 1);
      UntouchedStep(states[n - 1], states[n]);
    }
  }

  /** Children get the colour of their parent, new endpoints that of their creator. */
  function Recolour(s: State, s': State, c: Colouring): (c': Colouring)
    requires Wf(s) && Wf(s') && Sized(c)
    ensures Sized(c')
  {
    Colouring(seq(MAX_PROCS, p requires 0 <= p < MAX_PROCS => if s.procs[p].alive then c.proc[p] else c.proc[s.current]),
              if s.nextEp < MAX_ENDPOINTS then c.ep[s.nextEp := c.proc[s.current]] else c.ep)
  }

  lemma HolderColour(s: State, c: Colouring, p: int, x: int)
    requires Inv(s) && Isolated(s, c) && Holds(s, p, x)
    ensures 1 <= x <= Issued(s) && c.ep[x - 1] == c.proc[p]
  {
    var i :| 0 <= i < CAP_SLOTS && s.procs[p].caps[i] == x;
    assert CapColour(c, p, s.procs[p].caps[i]);
  }

  lemma IsolatedStep(s: State, s': State, c: Colouring)
    requires Inv(s) && Inv(s') && Change(s, s') && Isolated(s, c) && Untouched(s)
    ensures Isolated(s', Recolour(s, s', c))
  {
    var c' := Recolour(s, s', c);
    forall p, i | 0 <= p < MAX_PROCS && 0 <= i < CAP_SLOTS && s'.procs[p].alive
      ensures CapColour(c', p, s'.procs[p].caps[i])
    {
      CapColourStep(s, s', c, p, i);
    }
    forall e, j | 0 <= e < MAX_ENDPOINTS && 0 <= j < Q_LEN ensures MsgColour(c', e, s'.eps[e].buf[j].xfer) {
      assert MsgColour(c, e, s.eps[e].buf[j].xfer);
      assert s.eps[e].buf[j].xfer <= Issued(s);
      if s'.eps[e].buf[j] != s.eps[e].buf[j] {
        HolderColour(s, c, s.current, e + 1);
        if s'.eps[e].buf[j].xfer != 0 {
          HolderColour(s, c, s.current, s'.eps[e].buf[j].xfer);
        }
      }
    }
  }

  lemma CapColourStep(s: State, s': State, c: Colouring, p: nat, i: nat)
    requires Inv(s) && Inv(s') && Change(s, s') && Isolated(s, c)
    requires p < MAX_PROCS && i < CAP_SLOTS && s'.procs[p].alive
    ensures CapColour(Recolour(s, s', c), p, s'.procs[p].caps[i])
  {
    var x := s'.procs[p].caps[i];
    assert x <= Issued(s');
    if !s.procs[p].alive {
      if x != 0 {
        HolderColour(s, c, s.current, x);
      }
    } else if x == s.procs[p].caps[i] {
      assert CapColour(c, p, x) && x <= Issued(s);
    } else {
      assert MayGain(s, p, x);
      if f :| InMessage(s, p, x, f) {
        HolderColour(s, c, p, f);
        assert MsgColour(c, f - 1, s.eps[f - 1].buf[s.eps[f - 1].head % Q_LEN].xfer);
        assert x <= Issued(s);
      } else if f :| Holds(s, s.current, x) && FirstAt(s, p, f) {
        HolderColour(s, c, p, f);
        HolderColour(s, c, s.current, f);
        HolderColour(s, c, s.current, x);
      }
    }
  }

  /** c' is c on everything that existed in s. */
  ghost predicate Extends(s: State, c: Colouring, c': Colouring)
    requires Wf(s) && Sized(c)
  {
    && Sized(c')
    && (forall p :: 0 <= p < MAX_PROCS && s.procs[p].alive ==> c'.proc[p] == c.proc[p])
    && (forall e :: 0 <= e < Issued(s) ==> c'.ep[e] == c.ep[e])
  }

  /** Over every run: a separation of the processes and endpoints of one moment into two groups without a
      capability or a message across stays one for ever, whatever the groups create, spawn and send. */
  lemma {:induction false} IsolationForever(states: seq<State>, events: seq<Event>, i: nat, j: nat, c: Colouring)
    returns (c': Colouring)
    requires IsRun(states, events) && i <= j <= |events| && Wf(states[i]) && Isolated(states[i], c)
    ensures Wf(states[j]) && Isolated(states[j], c') && Extends(states[i], c, c')
    ensures forall p :: 0 <= p < MAX_PROCS && states[i].procs[p].alive ==> states[j].procs[p].alive
    ensures Issued(states[i]) <= Issued(states[j])
    decreases j
  {
    RunInv(states, events, j);
    if i == j {
      c' := c;
    } else {
      var mid := IsolationForever(states, events, i, j - 1, c);
      RunStep(states, events, j - 1);
      UntouchedRun(states, events, j - 1);
      IsolatedStep(states[j - 1], states[j], mid);
      c' := Recolour(states[j - 1], states[j], mid);
    }
  }

  /** Two processes of different groups never hold a common endpoint. */
  lemma NeverShare(states: seq<State>, events: seq<Event>, i: nat, j: nat, c: Colouring, p: nat, q: nat, x: int)
    requires IsRun(states, events) && i <= j <= |events| && Wf(states[i]) && Isolated(states[i], c)
    requires p < MAX_PROCS && q < MAX_PROCS && states[i].procs[p].alive && states[i].procs[q].alive
    requires c.proc[p] != c.proc[q]
    ensures Wf(states[j]) && !(Holds(states[j], p, x) && Holds(states[j], q, x))
  {
    var c' := IsolationForever(states, events, i, j, c);
    RunInv(states, events, j);
    if Holds(states[j], p, x) && Holds(states[j], q, x) {
      HolderColour(states[j], c', p, x);
      HolderColour(states[j], c', q, x);
    }
  }
}
