/** The endpoint record, updated in place: its operations compute the functions of module Rings. */
module Ipc {
  import opened Words
  import opened Rings

  class Endpoint {
    var head: nat
    var tail: nat
    const buf: array<Msg>
    var waitHead: nat
    var waitTail: nat
    const waiters: array<nat>

    ghost function View(): Ring
      reads this, buf, waiters
    {
      Ring(head, tail, buf[..], waitHead, waitTail, waiters[..])
    }

    ghost predicate Valid()
      reads this, buf, waiters
    {
      RingOk(View())
    }

    constructor ()
      ensures Valid() && View() == EmptyRing() && fresh(buf) && fresh(waiters)
    {
      head, tail, waitHead, waitTail := 0, 0, 0, 0;
      buf := new Msg[Q_LEN](_ => EmptyMsg());
      waiters := new nat[MAX_WAITERS](_ => 0);
      new;
      assert buf[..] == EmptyRing().buf && waiters[..] == EmptyRing().waiters;
    }

    /** False when the slots look full. */
    method Push(pid: nat) returns (ok: bool)
      requires Valid()
      modifies this, waiters
      ensures Valid() && (View(), ok) == WaiterPush(old(View()), pid)
    {
      if (waitTail + 1) % MAX_WAITERS == waitHead {
        return false;
      }
      var slot := waitTail % MAX_WAITERS;
      waiters[slot] := pid;
      waitTail := waitTail + 1;
      return true;
    }

    method Pop() returns (pid: Option<nat>)
      requires Valid()
      modifies this
      ensures Valid() && (View(), pid) == WaiterPop(old(View()))
    {
      if waitHead == waitTail {
        return None;
      }
      var slot := waitHead % MAX_WAITERS;
      pid := Some(waiters[slot]);
      waitHead := waitHead + 1;
    }

    /** Bytes of the slot beyond the message keep their old values. */
    method Put(bytes: seq<int>, xfer: nat) returns (ok: bool)
      requires Valid()
      modifies this, buf
      ensures Valid() && (View(), ok) == Send(old(View()), bytes, xfer)
    {
      if (tail + 1) % Q_LEN == head {
        return false;
      }
      var slot := tail % Q_LEN;
      var n := Min(|bytes|, MAX_MSG);
      buf[slot] := Msg(n, xfer, bytes[..n] + buf[slot].data[n..]);
      tail := tail + 1;
      return true;
    }

    method Take(max: nat) returns (got: Option<Payload>)
      requires Valid()
      modifies this
      ensures Valid() && (View(), got) == Recv(old(View()), max)
    {
      if head == tail {
        return None;
      }
      var m := buf[head % Q_LEN];
      head := head + 1;
      return Some(Payload(m.data[..Min(m.len, max)], m.xfer));
    }
  }
}
