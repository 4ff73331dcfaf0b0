/** Every run of sends and receives on one message ring, against a log and against a bounded queue. */
module RingRuns {
  import opened Words
  import opened Rings

  datatype Op = DoSend(bytes: seq<int>, xfer: nat) | DoRecv(max: nat)

  datatype Reply = Accepted | Full | Empty | Got(payload: Payload)

  function Cut(p: Payload, max: nat): Payload { Payload(p.bytes[..Min(|p.bytes|, max)], p.xfer) }

  function StepRing(r: Ring, op: Op): (Ring, Reply)
    requires RingOk(r)
  {
    match op
    case DoSend(bytes, xfer) =>
      var (r', ok) := Send(r, bytes, xfer);
      (r', if ok then Accepted else Full)
    case DoRecv(max) =>
      var (r', got) := Recv(r, max);
      (r', if got.Some? then Got(got.value) else Empty)
  }

  /** A queue that holds at most 31 messages. */
  function StepFifo(q: seq<Payload>, op: Op): (seq<Payload>, Reply) {
    match op
    case DoSend(bytes, xfer) =>
      if |q| == Q_LEN - 1 then (q, Full) else (q + [Payload(Clip(bytes), xfer)], Accepted)
    case DoRecv(max) =>
      if q == [] then (q, Empty) else (q[1..], Got(Cut(q[0], max)))
  }

  /** Ring, log of accepted messages, and replies after a run from the empty endpoint. */
  datatype Trace = Trace(ring: Ring, log: seq<Payload>, replies: seq<Reply>)

  function Run(ops: seq<Op>): (t: Trace)
    ensures Logged(t.ring, t.log) && Bounded(t.ring) && |t.replies| == |ops|
  {
    if ops == [] then Trace(EmptyRing(), [], [])
    else
      var t := Run(ops[..|ops| - 1]);
      var op := ops[|ops| - 1];
      StepLogged(t.ring, t.log, op);
      var (r', reply) := StepRing(t.ring, op);
      Trace(r', LogAfter(t.log, op, reply), t.replies + [reply])
  }

  function LogAfter(log: seq<Payload>, op: Op, reply: Reply): seq<Payload> {
    if op.DoSend? && reply == Accepted then log + [Payload(Clip(op.bytes), op.xfer)] else log
  }

  function RunFifo(ops: seq<Op>): (r: (seq<Payload>, seq<Reply>))
    ensures |r.1| == |ops|
  {
    if ops == [] then ([], [])
    else
      var (q, replies) := RunFifo(ops[..|ops| - 1]);
      var (q', reply) := StepFifo(q, ops[|ops| - 1]);
      (q', replies + [reply])
  }

  lemma StepLogged(r: Ring, log: seq<Payload>, op: Op)
    requires Logged(r, log) && Bounded(r)
    ensures var (r', reply) := StepRing(r, op);
            && Logged(r', LogAfter(log, op, reply)) && Bounded(r') && r.head <= r'.head
            && (op.DoSend? ==> (reply == Full <==> r.head < Q_LEN && r.tail - r.head == Q_LEN - 1) && reply in {Accepted, Full})
            && (op.DoRecv? ==> (reply == Empty <==> r.head == r.tail))
            && (op.DoRecv? && r.head < r.tail ==> reply == Got(Cut(log[Latest(r.head, r.tail)], op.max)))
  {
    match op
    case DoSend(bytes, xfer) => SendLogged(r, log, bytes, xfer);
    case DoRecv(max) => RecvLogged(r, log, max);
  }

  lemma FifoStep(r: Ring, log: seq<Payload>, q: seq<Payload>, op: Op)
    requires Logged(r, log) && Bounded(r) && StepRing(r, op).0.head < Q_LEN
    requires r.head <= |log| && q == log[r.head..]
    ensures var (r', reply) := StepRing(r, op);
            var log' := LogAfter(log, op, reply);
            StepFifo(q, op).1 == reply && r'.head <= |log'| && StepFifo(q, op).0 == log'[r'.head..]
  {
    StepLogged(r, log, op);
    if op.DoRecv? && r.head < r.tail {
      assert Latest(r.head, r.tail) == r.head;
      assert log[r.head..][1..] == log[r.head + 1..];
    }
  }

  /** Until 32 messages have been received, every reply of the ring, full and empty included, is the
      reply of a queue of capacity 31 that started empty. */
  lemma {:induction false} RingIsBoundedFifo(ops: seq<Op>)
    requires Run(ops).ring.head < Q_LEN
    ensures RunFifo(ops).1 == Run(ops).replies
    ensures RunFifo(ops).0 == Run(ops).log[Run(ops).ring.head..]
  {
    if ops != [] {
      var front, op := ops[..|ops| - 1], ops[|ops| - 1];
      StepLogged(Run(front).ring, Run(front).log, op);
      RingIsBoundedFifo(front);
      FifoStep(Run(front).ring, Run(front).log, RunFifo(front).0, op);
    }
  }

  /** After any run, a receive with k messages received before it returns the newest message whose
      number is congruent to k modulo 32: message k itself iff at most 32 are waiting. */
  lemma ReceiveMeaning(ops: seq<Op>, max: nat)
    ensures var (t, t') := (Run(ops), Run(ops + [DoRecv(max)]));
            var (k, sent) := (t.ring.head, t.ring.tail);
            && (t'.replies[|ops|] == Empty <==> k == sent)
            && (k < sent ==>
                  && t'.replies[|ops|] == Got(Cut(t.log[Latest(k, sent)], max))
                  && (Latest(k, sent) == k <==> sent - k <= Q_LEN))
  {
    assert (ops + [DoRecv(max)])[..|ops|] == ops;
    StepLogged(Run(ops).ring, Run(ops).log, DoRecv(max));
  }

  /** After any run, a send is refused iff fewer than 32 messages have been received and 31 wait. */
  lemma SendMeaning(ops: seq<Op>, bytes: seq<int>, xfer: nat)
    ensures var (t, t') := (Run(ops), Run(ops + [DoSend(bytes, xfer)]));
            && (t'.replies[|ops|] == Full <==> t.ring.head < Q_LEN && t.ring.tail - t.ring.head == Q_LEN - 1)
            && (t'.replies[|ops|] != Full ==> t'.log == t.log + [Payload(Clip(bytes), xfer)])
  {
    assert (ops + [DoSend(bytes, xfer)])[..|ops|] == ops;
    StepLogged(Run(ops).ring, Run(ops).log, DoSend(bytes, xfer));
  }

  // ---- a run in which a message is lost ----

  lemma OneMore(ops: seq<Op>, op: Op)
    ensures Run(ops + [op]).ring == StepRing(Run(ops).ring, op).0
    ensures Run(ops + [op]).log == LogAfter(Run(ops).log, op, StepRing(Run(ops).ring, op).1)
    ensures Run(ops + [op]).replies == Run(ops).replies + [StepRing(Run(ops).ring, op).1]
  {
    assert (ops + [op])[..|ops|] == ops;
  }

  lemma OneRound(ops: seq<Op>, bytes: seq<int>, xfer: nat)
    requires Run(ops).ring.head == Run(ops).ring.tail
    ensures var t := Run(ops + [DoSend(bytes, xfer)] + [DoRecv(0)]);
            t.ring.head == Run(ops).ring.head + 1 == t.ring.tail
  {
    var mid := ops + [DoSend(bytes, xfer)];
    OneMore(ops, DoSend(bytes, xfer));
    OneMore(mid, DoRecv(0));
    SendLogged(Run(ops).ring, Run(ops).log, bytes, xfer);
    RecvLogged(Run(mid).ring, Run(mid).log, 0);
  }

  /** n messages sent and received one by one. */
  lemma {:induction false} PingPong(n: nat) returns (ops: seq<Op>)
    ensures Run(ops).ring.head == n == Run(ops).ring.tail
  {
    if n == 0 {
      ops := [];
    } else {
      var front := PingPong(n - 1);
      OneRound(front, [], 0);
      ops := front + [DoSend([], 0)] + [DoRecv(0)];
    }
  }

  lemma OneSend(ops: seq<Op>, xfer: nat)
    requires Run(ops).ring.head >= Q_LEN
    ensures var (t, t') := (Run(ops), Run(ops + [DoSend([], xfer)]));
            t'.ring.head == t.ring.head && t'.ring.tail == t.ring.tail + 1 && t'.log == t.log + [Payload([], xfer)]
  {
    OneMore(ops, DoSend([], xfer));
    SendLogged(Run(ops).ring, Run(ops).log, [], xfer);
  }

  /** n messages in a row, numbered by the endpoint they transfer. */
  lemma {:induction false} Burst(ops: seq<Op>, n: nat) returns (all: seq<Op>)
    requires Run(ops).ring.head == Q_LEN == Run(ops).ring.tail
    ensures Run(all).ring.head == Q_LEN && Run(all).ring.tail == Q_LEN + n
    ensures forall k :: Q_LEN <= k < Q_LEN + n ==> Run(all).log[k] == Payload([], k + 1 - Q_LEN)
  {
    if n == 0 {
      all := ops;
    } else {
      var front := Burst(ops, n - 1);
      OneSend(front, n);
      all := front + [DoSend([], n)];
    }
  }

  /** After one lap the ring accepts 33 messages in a row, and the next receive skips 32 of them: the
      first one waiting transfers endpoint 1, the one received transfers endpoint 33. */
  lemma MessageLost() returns (ops: seq<Op>)
    ensures var t := Run(ops);
            && t.ring.head == 32 && t.ring.tail == 65
            && t.log[32] == Payload([], 1)
            && Run(ops + [DoRecv(0)]).replies[|ops|] == Got(Payload([], 33))
  {
    var lap := PingPong(32);
    ops := Burst(lap, 33);
    ReceiveMeaning(ops, 0);
    assert Latest(32, 65) == 64;
  }
}
