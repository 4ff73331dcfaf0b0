/** One IPC endpoint as a value: its message ring and its ring of waiting receivers. */
module Rings {
  import opened Words

  const Q_LEN: nat := 32
  const MAX_MSG: nat := 256
  const MAX_WAITERS: nat := 8

  /** The bytes beyond len are left over from earlier messages in the same slot. */
  datatype Msg = Msg(len: nat, xfer: nat, data: seq<int>)

  datatype Ring = Ring(head: nat, tail: nat, buf: seq<Msg>, waitHead: nat, waitTail: nat, waiters: seq<nat>)

  /** What a receiver can see of a message. */
  datatype Payload = Payload(bytes: seq<int>, xfer: nat)

  ghost predicate RingOk(r: Ring) {
    && |r.buf| == Q_LEN && |r.waiters| == MAX_WAITERS
    && r.head <= r.tail && r.waitHead <= r.waitTail
    && forall j :: 0 <= j < Q_LEN ==> r.buf[j].len <= MAX_MSG && |r.buf[j].data| == MAX_MSG
  }

  function EmptyMsg(): Msg { Msg(0, 0, seq(MAX_MSG, _ => 0)) }
  function EmptyRing(): (r: Ring)
    ensures RingOk(r)
  {
    Ring(0, 0, seq(Q_LEN, _ => EmptyMsg()), 0, 0, seq(MAX_WAITERS, _ => 0))
  }

  function PayloadOf(m: Msg): Payload
    requires m.len <= |m.data|
  {
    Payload(m.data[..m.len], m.xfer)
  }

  // ---- the operations, with the full tests exactly as written ----

  function WaiterPush(r: Ring, pid: nat): (Ring, bool)
    requires RingOk(r)
  {
    if (r.waitTail + 1) % MAX_WAITERS == r.waitHead then (r, false)
    else (r.(waiters := r.waiters[r.waitTail % MAX_WAITERS := pid], waitTail := r.waitTail + 1), true)
  }

  function WaiterPop(r: Ring): (Ring, Option<nat>)
    requires RingOk(r)
  {
    if r.waitHead == r.waitTail then (r, None)
    else (r.(waitHead := r.waitHead + 1), Some(r.waiters[r.waitHead % MAX_WAITERS]))
  }

  function Clip(bytes: seq<int>): seq<int> { bytes[..Min(|bytes|, MAX_MSG)] }

  function Send(r: Ring, bytes: seq<int>, xfer: nat): (Ring, bool)
    requires RingOk(r)
  {
    if (r.tail + 1) % Q_LEN == r.head then (r, false)
    else
      var slot, n := r.tail % Q_LEN, Min(|bytes|, MAX_MSG);
      var m := Msg(n, xfer, bytes[..n] + r.buf[slot].data[n..]);
      (r.(buf := r.buf[slot := m], tail := r.tail + 1), true)
  }

  /** At most max bytes of the message at the head, and the endpoint it transfers. */
  function Recv(r: Ring, max: nat): (res: (Ring, Option<Payload>))
    requires RingOk(r)
    ensures res.1.Some? ==> |res.1.value.bytes| <= Min(max, MAX_MSG)
  {
    if r.head == r.tail then (r, None)
    else
      var m := r.buf[r.head % Q_LEN];
      (r.(head := r.head + 1), Some(Payload(m.data[..Min(m.len, max)], m.xfer)))
  }

  // ---- the waiter ring as a queue ----

  function WaitList(r: Ring): (w: seq<nat>)
    requires |r.waiters| == MAX_WAITERS && r.waitHead <= r.waitTail
    ensures |w| == r.waitTail - r.waitHead
  {
    seq(r.waitTail - r.waitHead, k requires 0 <= k => r.waiters[(r.waitHead + k) % MAX_WAITERS])
  }

  /** With fewer than seven entries the push is accepted and appends. */
  lemma PushAppends(r: Ring, pid: nat)
    requires RingOk(r) && |WaitList(r)| < MAX_WAITERS - 1
    ensures var (r', ok) := WaiterPush(r, pid);
            && ok && RingOk(r') && WaitList(r') == WaitList(r) + [pid]
            && r'.head == r.head && r'.tail == r.tail && r'.buf == r.buf
  {
    assert (r.waitTail + 1) % MAX_WAITERS != r.waitHead;
    var r' := WaiterPush(r, pid).0;
    forall k | 0 <= k < r.waitTail - r.waitHead
      ensures WaitList(r')[k] == WaitList(r)[k]
    {
      assert (r.waitHead + k) % MAX_WAITERS != r.waitTail % MAX_WAITERS;
    }
  }

  lemma PopTakesFirst(r: Ring)
    requires RingOk(r)
    ensures var (r', got) := WaiterPop(r);
            && RingOk(r') && r'.head == r.head && r'.tail == r.tail && r'.buf == r.buf
            && (WaitList(r) == [] ==> got == None && r' == r)
            && (WaitList(r) != [] ==> got == Some(WaitList(r)[0]) && WaitList(r') == WaitList(r)[1..])
  {
  }

  /** Why the full test alone does not make the waiter ring a queue: it compares a reduced tail with a
      head that is never reduced, so after eight deliveries it accepts any number of entries. */
  lemma WaiterFullTest(r: Ring)
    requires RingOk(r)
    ensures WaiterPush(r, 0).1 <==> !(r.waitHead < MAX_WAITERS && (r.waitTail - r.waitHead) % MAX_WAITERS == MAX_WAITERS - 1)
  {
  }

  // ---- the message ring: slot contents against the log of everything sent ----

  /** The last 32 messages of the log sit in their slots. */
  ghost predicate Logged(r: Ring, log: seq<Payload>) {
    && RingOk(r) && |log| == r.tail
    && forall k :: 0 <= k < r.tail && r.tail - k <= Q_LEN ==> PayloadOf(r.buf[k % Q_LEN]) == log[k]
  }

  /** The newest number below tail that is congruent to k modulo 32. */
  function Latest(k: nat, tail: nat): (n: nat)
    requires k < tail
    ensures k <= n < tail && tail - n <= Q_LEN && n % Q_LEN == k % Q_LEN
    ensures n == k <==> tail - k <= Q_LEN
  {
    k + Q_LEN * ((tail - 1 - k) / Q_LEN)
  }

  /** As long as head has not passed the first lap, at most 31 messages wait. */
  ghost predicate Bounded(r: Ring) { r.head < Q_LEN ==> r.tail - r.head < Q_LEN }

  lemma SendLogged(r: Ring, log: seq<Payload>, bytes: seq<int>, xfer: nat)
    requires Logged(r, log) && Bounded(r)
    ensures var (r', ok) := Send(r, bytes, xfer);
            && Bounded(r') && r'.head == r.head && WaitList(r') == WaitList(r)
            && (ok <==> !(r.head < Q_LEN && r.tail - r.head == Q_LEN - 1))
            && (ok ==> Logged(r', log + [Payload(Clip(bytes), xfer)]))
            && (!ok ==> r' == r)
  {
    var (r', ok) := Send(r, bytes, xfer);
    if ok {
      var m := r'.buf[r.tail % Q_LEN];
      assert m.data[..m.len] == Clip(bytes);
      forall k | 0 <= k < r'.tail && r'.tail - k <= Q_LEN
        ensures PayloadOf(r'.buf[k % Q_LEN]) == (log + [Payload(Clip(bytes), xfer)])[k]
      {
        if k < r.tail {
          assert k % Q_LEN != r.tail % Q_LEN;
        }
      }
    }
  }

  /** A receive at head k returns the newest message sent whose number is congruent to k, cut to the
      receiver's length; that is message k exactly when at most 32 messages are waiting. */
  lemma RecvLogged(r: Ring, log: seq<Payload>, max: nat)
    requires Logged(r, log) && Bounded(r)
    ensures var (r', got) := Recv(r, max);
            && Logged(r', log) && Bounded(r') && r'.tail == r.tail && WaitList(r') == WaitList(r)
            && (got.None? <==> r.head == r.tail) && (got.None? ==> r' == r)
            && (got.Some? ==>
                  && r'.head == r.head + 1
                  && var sent := log[Latest(r.head, r.tail)];
                     got.value == Payload(sent.bytes[..Min(|sent.bytes|, max)], sent.xfer))
  {
    if r.head < r.tail {
      var n := Latest(r.head, r.tail);
      var m := r.buf[r.head % Q_LEN];
      assert PayloadOf(r.buf[n % Q_LEN]) == log[n];
      assert m.data[..m.len][..Min(m.len, max)] == m.data[..Min(m.len, max)];
    }
  }
}
