/** The kernel heap: one block taken from the page allocator, then a bump pointer that never goes back.
    Kernel stacks come from here. */
module Heap {
  import opened Words
  import opened Ranges
  import opened PageAlloc
  import Pmm

  const FIRST_TRY: int := 4096
  const LAST_TRY: int := 128

  datatype Layout = Layout(align: nat, size: nat)

  /** Fault: the checked rounding of the bump pointer overflowed. */
  datatype Result = Block(base: int) | Null | Fault

  ghost predicate MultipleOf(x: int, a: int) {
    exists k: int :: x == k * a
  }

  function RoundUp(x: int, a: int): (r: int)
    requires a >= 0
    ensures a == 0 ==> r == x
    ensures a > 0 ==> x <= r < x + a && MultipleOf(r, a)
  {
    if a == 0 then x
    else
      var q := (x + (a - 1)) / a;
      assert MultipleOf(q * a, a);
      q * a
  }

  /** The heap as values: the bump pointer and the end of the block. */
  datatype Arena = Arena(next: int, end: int)

  function Bump(h: Arena, l: Layout): (Arena, Result) {
    if h.next + (l.align - 1) >= TWO_64 && l.align > 0 then (h, Fault)
    else
      var start := RoundUp(h.next, l.align);
      var end := Min(start + l.size, MAX_U64);
      if end > h.end then (h, Null) else (h.(next := end), Block(start))
  }

  function BumpAll(h: Arena, ls: seq<Layout>): (r: (Arena, seq<Result>))
    ensures |r.1| == |ls|
  {
    if ls == [] then (h, [])
    else
      var (mid, got) := BumpAll(h, ls[..|ls| - 1]);
      var (h', last) := Bump(mid, ls[|ls| - 1]);
      (h', got + [last])
  }

  /** Over every run: the blocks are aligned, inside the arena, and each starts at or after the end
      of all earlier ones. */
  lemma {:induction false} BlocksDisjoint(h: Arena, ls: seq<Layout>)
    requires h.next <= h.end < TWO_64 - 1
    ensures var (h', got) := BumpAll(h, ls);
            && h.next <= h'.next <= h'.end == h.end
            && (forall i :: 0 <= i < |got| && got[i].Block? ==>
                  && h.next <= got[i].base && got[i].base + ls[i].size <= h'.next
                  && (ls[i].align > 0 ==> MultipleOf(got[i].base, ls[i].align)))
            && (forall i, j :: 0 <= i < j < |got| && got[i].Block? && got[j].Block? ==>
                  got[i].base + ls[i].size <= got[j].base)
  {
    if ls != [] {
      BlocksDisjoint(h, ls[..|ls| - 1]);
    }
  }

  /** start is the first multiple of a from x on. */
  ghost predicate FirstMultiple(start: int, x: int, a: int) { MultipleOf(start, a) && x <= start < x + a }

  lemma {:induction false} TimesGrows(d: nat, a: int)
    requires a > 0 && d > 0
    ensures d * a >= a
  {
    if d > 1 {
      TimesGrows(d - 1, a);
      assert d * a == (d - 1) * a + a;
    }
  }

  lemma Apart(k: int, m: int, a: int)
    requires a > 0 && k > m
    ensures k * a - m * a >= a
  {
    TimesGrows(k - m, a);
    assert k * a == (k - m) * a + m * a;
  }

  lemma FirstIsOne(s: int, t: int, x: int, a: int)
    requires a > 0 && FirstMultiple(s, x, a) && FirstMultiple(t, x, a)
    ensures s == t
  {
    var k: int :| s == k * a;
    var m: int :| t == m * a;
    if k > m {
      Apart(k, m, a);
    } else if m > k {
      Apart(m, k, a);
    }
  }

  /** A block is granted iff it fits behind the first address that is aligned as asked; it starts there, and the next one comes
      right behind it. Otherwise nothing happens. It is a fault iff looking for that address leaves 64 bits. */
  lemma GrantedIff(h: Arena, l: Layout, start: int)
    requires 0 <= h.next <= h.end < TWO_64 - 1 && l.align > 0 && FirstMultiple(start, h.next, l.align)
    ensures Bump(h, l) ==
              if h.next + (l.align - 1) >= TWO_64 then (h, Fault)
              else if start + l.size <= h.end then (Arena(start + l.size, h.end), Block(start))
              else (h, Null)
  {
    FirstIsOne(start, RoundUp(h.next, l.align), h.next, l.align);
  }

  /** Panicked: the end of the block left the 64-bit range. */
  datatype Startup = Up | Down | Panicked

  class LockedBump {
    var start: int
    var end: int
    var next: int
    var ready: bool

    constructor ()
      ensures !ready
    {
      start, end, next, ready := 0, 0, 0, false;
    }

    ghost function View(): Arena
      reads this
    {
      Arena(next, end)
    }

    /** Take a block, trying smaller and smaller sizes. The back-off cannot help: the heap comes up
        exactly when the very first size is granted, and otherwise the allocator is used up. */
    method Init(pmm: Pmm.Manager) returns (result: Startup)
      requires pmm.Valid() && pmm.ready
      modifies this, pmm`cursor, pmm.ranges
      ensures pmm.Valid() && pmm.ready && pmm.ranges == old(pmm.ranges) && pmm.len == old(pmm.len)
      ensures var (pool, got) := Take(old(pmm.View()), FIRST_TRY);
              && pmm.View() == pool
              && (got.Some? ==>
                    var base, size := WrappingAdd(HHDM_BASE, got.value), FIRST_TRY * PAGE_SIZE;
                    && (result.Panicked? <==> base + size >= TWO_64)
                    && (!result.Panicked? ==> result.Up? && ready && start == base == next && end == base + size))
              && (got.None? ==> result.Down? && ready == old(ready) && pmm.cursor >= pmm.len)
    {
      ghost var pool := pmm.View();
      TakeCorrect(pool, FIRST_TRY);
      var pages: u64 := FIRST_TRY;
      var base: Option<u64> := None;
      while pages >= LAST_TRY && base.None?
        invariant pmm.Valid() && pmm.ready && pmm.ranges == old(pmm.ranges) && pmm.len == old(pmm.len)
        invariant pages > 0 && ready == old(ready)
        invariant pages == FIRST_TRY && base.None? ==> pmm.View() == pool
        invariant pages != FIRST_TRY || base.Some? ==> (pmm.View(), base) == Take(pool, FIRST_TRY)
        invariant base.Some? ==> pages == FIRST_TRY
        decreases if base.None? then pages else -1
      {
        if pages != FIRST_TRY {
          ExhaustedForGood(pmm.View(), pages);
        }
        base := pmm.AllocPages(pages);
        if base.None? {
          pages := pages / 2;
        }
      }
      if base.None? {
        return Down;
      }
      var virt, size := WrappingAdd(HHDM_BASE, base.value), pages * PAGE_SIZE;
      if virt + size >= TWO_64 {
        return Panicked;
      }
      start, end, next, ready := virt, virt + size, virt, true;
      return Up;
    }

    method Alloc(l: Layout) returns (r: Result)
      modifies this`next
      ensures !ready ==> r == Null && next == old(next)
      ensures ready ==> (View(), r) == Bump(old(View()), l)
    {
      if !ready {
        return Null;
      }
      if l.align > 0 && next + (l.align - 1) >= TWO_64 {
        return Fault;
      }
      var first := RoundUp(next, l.align);
      var last := Min(first + l.size, MAX_U64);
      if last > end {
        return Null;
      }
      next := last;
      return Block(first);
    }
  }

  /** Where backing off would matter: 8 MiB free in one piece serve a 2048-page request, yet after
      the 4096-page request has failed they serve nothing. */
  lemma BackOffIsLost()
    ensures var pool := Pool([Range(0x10_0000, 0x90_0000)], 0);
            && Take(pool, 2048).1 == Some(0x10_0000)
            && Take(pool, FIRST_TRY).1.None?
            && Take(Take(pool, FIRST_TRY).0, 2048).1.None?
  {
    var pool := Pool([Range(0x10_0000, 0x90_0000)], 0);
    TakeCorrect(pool, FIRST_TRY);
    ExhaustedForGood(Take(pool, FIRST_TRY).0, 2048);
  }
}
