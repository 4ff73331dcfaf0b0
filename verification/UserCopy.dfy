/** What the byte-wise copies between the kernel and user memory achieve. */
module UserCopy {
  import opened Words
  import opened Machine

  /** Where byte k of a buffer lies. */
  function Spot(space: map<int, int>, ptr: int, k: int): Option<int> { Translate(space, (ptr + k) % TWO_64) }

  /** Every byte of the buffer has a place. */
  ghost predicate AllMapped(space: map<int, int>, ptr: int, n: int) {
    forall k :: 0 <= k < n ==> Spot(space, ptr, k).Some?
  }

  /** A copy out succeeds iff every byte from i on has a place. */
  lemma {:induction false} CopyOutSucceedsIff(mem: map<int, int>, space: map<int, int>, ptr: int, bytes: seq<int>, i: nat)
    requires i <= |bytes|
    ensures CopyOut(mem, space, ptr, bytes, i).1 <==> forall j :: i <= j < |bytes| ==> Spot(space, ptr, j).Some?
    decreases |bytes| - i
  {
    if i < |bytes| && Spot(space, ptr, i).Some? {
      CopyOutSucceedsIff(mem[Spot(space, ptr, i).value := bytes[i]], space, ptr, bytes, i + 1);
    }
  }

  /** No two bytes of the buffer share a place in memory. */
  ghost predicate OneToOne(space: map<int, int>, ptr: int, n: int) {
    forall i, j :: 0 <= i < j < n && Spot(space, ptr, i).Some? && Spot(space, ptr, j).Some? ==>
      Spot(space, ptr, i) != Spot(space, ptr, j)
  }

  /** After a copy out that succeeded each byte from i on is in its place; those before i are as they were. */
  lemma {:induction false} CopyOutReads(mem: map<int, int>, space: map<int, int>, ptr: int, bytes: seq<int>, i: nat, k: nat)
    requires i <= |bytes| && k < |bytes| && OneToOne(space, ptr, |bytes|)
    ensures var (mem', ok) := CopyOut(mem, space, ptr, bytes, i);
            && (ok && k >= i ==> Spot(space, ptr, k).Some? && ByteAt(mem', Spot(space, ptr, k).value) == bytes[k])
            && (k < i && Spot(space, ptr, k).Some? ==>
                  ByteAt(mem', Spot(space, ptr, k).value) == ByteAt(mem, Spot(space, ptr, k).value))
    decreases |bytes| - i
  {
    if i < |bytes| && Spot(space, ptr, i).Some? {
      var pa := Spot(space, ptr, i).value;
      CopyOutReads(mem[pa := bytes[i]], space, ptr, bytes, i + 1, k);
      if k == i {
        CopyOutReads(mem[pa := bytes[i]], space, ptr, bytes, i + 1, i);
      }
    }
  }

  /** A copy out changes no byte outside the buffer. */
  lemma {:induction false} CopyOutElsewhere(mem: map<int, int>, space: map<int, int>, ptr: int, bytes: seq<int>, i: nat, a: int)
    requires i <= |bytes| && forall k :: i <= k < |bytes| ==> Spot(space, ptr, k) != Some(a)
    ensures ByteAt(CopyOut(mem, space, ptr, bytes, i).0, a) == ByteAt(mem, a)
    decreases |bytes| - i
  {
    if i < |bytes| && Spot(space, ptr, i).Some? {
      CopyOutElsewhere(mem[Spot(space, ptr, i).value := bytes[i]], space, ptr, bytes, i + 1, a);
    }
  }

  /** A copy in succeeds iff every byte has a place, and reads each from there. */
  lemma {:induction false} CopyInReads(mem: map<int, int>, space: map<int, int>, ptr: int, n: nat)
    ensures CopyIn(mem, space, ptr, n).Some? <==> forall k :: 0 <= k < n ==> Spot(space, ptr, k).Some?
    ensures CopyIn(mem, space, ptr, n).Some? ==>
              forall k :: 0 <= k < n ==> CopyIn(mem, space, ptr, n).value[k] == ByteAt(mem, Spot(space, ptr, k).value)
  {
    if n > 0 {
      CopyInReads(mem, space, ptr, n - 1);
      assert Spot(space, ptr, n - 1) == Translate(space, (ptr + n - 1) % TWO_64);
      assert CopyIn(mem, space, ptr, n).Some? <==> CopyIn(mem, space, ptr, n - 1).Some? && Spot(space, ptr, n - 1).Some?;
    }
  }

  /** What was copied out is what a copy in reads back. */
  lemma CopyRoundTrip(mem: map<int, int>, space: map<int, int>, ptr: int, bytes: seq<int>)
    requires OneToOne(space, ptr, |bytes|) && CopyOut(mem, space, ptr, bytes, 0).1
    ensures CopyIn(CopyOut(mem, space, ptr, bytes, 0).0, space, ptr, |bytes|) == Some(bytes)
  {
    hide CopyIn, CopyOut, Spot;
    var (mem', ok) := CopyOut(mem, space, ptr, bytes, 0);
    forall k | 0 <= k < |bytes| ensures Spot(space, ptr, k).Some? && ByteAt(mem', Spot(space, ptr, k).value) == bytes[k] {
      CopyOutReads(mem, space, ptr, bytes, 0, k);
    }
    CopyInReads(mem', space, ptr, |bytes|);
    var got := CopyIn(mem', space, ptr, |bytes|);
    assert got.value == bytes;
  }

  /** WRITE reports the number of bytes before the first unmapped one. */
  lemma {:induction false} ReadableMeaning(space: map<int, int>, ptr: int, i: nat, n: nat)
    requires i <= n
    ensures var r := Readable(space, ptr, i, n);
            && (forall k :: i <= k < r ==> Spot(space, ptr, k).Some?) && (r < n ==> Spot(space, ptr, r).None?)
    decreases n - i
  {
    if i < n && Spot(space, ptr, i).Some? {
      ReadableMeaning(space, ptr, i + 1, n);
    }
  }
}
