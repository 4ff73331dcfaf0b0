/** Four-level page tables as values: the walks, the mapping of one page, and what mapping does to every walk.
    Entries are the 64-bit words of section 4.5 of the Intel SDM, Volume 3A. */
module PageTables {
  import opened Words
  import opened PageAlloc

  const ENTRIES: nat := 512
  const HHDM_SLOT: int := 256
  /** Where the lower canonical half ends. */
  const LOWER_HALF: int := 0x8000_0000_0000
  const TWO_48: int := 0x1_0000_0000_0000
  const TWO_40: int := 0x100_0000_0000
  const TWO_52: int := 0x10_0000_0000_0000

  /** Each table frame with its 512 words. */
  type Tables = map<int, seq<int>>

  // ---- words ----

  predicate Present(w: int) { w % 2 == 1 }

  predicate Writable(w: int) { w % 4 / 2 == 1 }

  predicate User(w: int) { w % 8 / 4 == 1 }

  predicate Huge(w: int) { w % 256 / 128 == 1 }

  /** Bits 51 to 12. */
  function FrameOf(w: int): (f: int)
    ensures f % PAGE_SIZE == 0 && 0 <= f < TWO_52
  {
    w / PAGE_SIZE % TWO_40 * PAGE_SIZE
  }

  predicate FrameOk(f: int) { 0 < f < TWO_52 && f % PAGE_SIZE == 0 }

  /** Present, and writable and user-accessible as asked. */
  function Bits(user: bool, write: bool): int { 1 + (if write then 2 else 0) + (if user then 4 else 0) }

  lemma LowBit(q: int, b: int)
    ensures (2 * q + b) % 2 == b % 2
  {
  }

  lemma LowTwoBits(q: int, b: int)
    ensures (4 * q + b) % 4 == b % 4
  {
  }

  lemma LowThreeBits(q: int, b: int)
    ensures (8 * q + b) % 8 == b % 8
  {
  }

  lemma LowEightBits(q: int, b: int)
    ensures (256 * q + b) % 256 == b % 256
  {
  }

  /** The low twelve bits of a word do not depend on the frame above them, nor the frame on them. */
  lemma LowBits(q: int, b: int)
    requires 0 <= b < PAGE_SIZE
    ensures var w := PAGE_SIZE * q + b;
            w / PAGE_SIZE == q && w % 2 == b % 2 && w % 4 == b % 4 && w % 8 == b % 8 && w % 256 == b % 256
  {
    LowBit(2048 * q, b);
    LowTwoBits(1024 * q, b);
    LowThreeBits(512 * q, b);
    LowEightBits(16 * q, b);
  }

  lemma WordParts(f: int, user: bool, write: bool)
    requires 0 <= f < TWO_52 && f % PAGE_SIZE == 0
    ensures var w := f + Bits(user, write);
            Present(w) && (Writable(w) <==> write) && (User(w) <==> user) && !Huge(w) && FrameOf(w) == f
  {
    var q := f / PAGE_SIZE;
    assert f == PAGE_SIZE * q && 0 <= q < TWO_40;
    LowBits(q, Bits(user, write));
  }

  // ---- indices ----

  function Idx4(va: int): (i: int) ensures 0 <= i < ENTRIES { va / 0x80_0000_0000 % 512 }

  function Idx3(va: int): (i: int) ensures 0 <= i < ENTRIES { va / 0x4000_0000 % 512 }

  function Idx2(va: int): (i: int) ensures 0 <= i < ENTRIES { va / 0x20_0000 % 512 }

  function Idx1(va: int): (i: int) ensures 0 <= i < ENTRIES { va / PAGE_SIZE % 512 }

  /** The page an address belongs to, as the walks see it: addresses that agree below bit 48 coincide. */
  datatype Page = Page(i4: int, i3: int, i2: int, i1: int)

  function PageAt(va: int): Page { Page(Idx4(va), Idx3(va), Idx2(va), Idx1(va)) }

  // ---- the walks ----

  function Rd(t: Tables, f: int, i: int): int
  {
    if f in t && 0 <= i < |t[f]| then t[f][i] else 0
  }

  function Wr(t: Tables, f: int, i: int, w: int): Tables {
    if f in t && 0 <= i < |t[f]| then t[f := t[f][i := w]] else t
  }

  /** The four words on the way to an address. Each is read whatever the one before says. */
  function Word4(t: Tables, root: int, va: int): int { Rd(t, root, Idx4(va)) }

  function Word3(t: Tables, root: int, va: int): int { Rd(t, FrameOf(Word4(t, root, va)), Idx3(va)) }

  function Word2(t: Tables, root: int, va: int): int { Rd(t, FrameOf(Word3(t, root, va)), Idx2(va)) }

  function Word1(t: Tables, root: int, va: int): int { Rd(t, FrameOf(Word2(t, root, va)), Idx1(va)) }

  /** The leaf entry of an address, if every level is present. */
  function Leaf(t: Tables, root: int, va: int): Option<int> {
    if Present(Word4(t, root, va)) && Present(Word3(t, root, va)) && Present(Word2(t, root, va))
       && Present(Word1(t, root, va))
    then Some(Word1(t, root, va)) else None
  }

  /** The loader's walk: present at every level. */
  function Translate4k(t: Tables, root: int, va: int): Option<int> {
    if !Present(Word4(t, root, va)) then None
    else if !Present(Word3(t, root, va)) then None
    else if !Present(Word2(t, root, va)) then None
    else if !Present(Word1(t, root, va)) then None
    else Some(FrameOf(Word1(t, root, va)) + va % PAGE_SIZE)
  }

  predicate PresentUser(w: int) { Present(w) && User(w) }

  /** The walk for user pointers: present and user-accessible at every level. */
  function VirtToPhys(t: Tables, pml4: int, va: int): Option<int> {
    var root := FrameOf(pml4);
    if !PresentUser(Word4(t, root, va)) then None
    else if !PresentUser(Word3(t, root, va)) then None
    else if !PresentUser(Word2(t, root, va)) then None
    else if !PresentUser(Word1(t, root, va)) then None
    else Some(FrameOf(Word1(t, root, va)) + va % PAGE_SIZE)
  }

  /** Bits 63 to 47 are equal. The processor faults on any other address before it reads a table (section 3.3.7.1
      of the Intel SDM, Volume 1). */
  predicate CanonicalAddress(va: int) { 0 <= va < LOWER_HALF || TWO_64 - LOWER_HALF <= va < TWO_64 }

  /** The processor's own walk for an access from user mode: as above, but only for canonical addresses, and a
      page-directory entry with the PS bit maps a 2 MiB page. */
  function HardwareUserWalk(t: Tables, pml4: int, va: int): Option<int> {
    var root := FrameOf(pml4);
    if !CanonicalAddress(va) then None
    else if !PresentUser(Word4(t, root, va)) || !PresentUser(Word3(t, root, va)) || !PresentUser(Word2(t, root, va)) then None
    else if Huge(Word2(t, root, va)) then Some(Word2(t, root, va) / 0x20_0000 % 0x8000_0000 * 0x20_0000 + va % 0x20_0000)
    else if !PresentUser(Word1(t, root, va)) then None
    else Some(FrameOf(Word1(t, root, va)) + va % PAGE_SIZE)
  }

  // ---- mapping one page ----

  datatype Mem = Mem(tables: Tables, pool: Pool)

  function ZeroTable(): (z: seq<int>)
    ensures |z| == ENTRIES && forall i :: 0 <= i < ENTRIES ==> z[i] == 0
  {
    seq(ENTRIES, _ => 0)
  }

  /** A zeroed frame for a new table; None is the panic of a failed allocation. */
  function NewTable(m: Mem): (r: Option<(Mem, int)>)
    requires GoodBlocks(m.pool.ranges)
    ensures r.Some? ==> GoodBlocks(r.value.0.pool.ranges)
  {
    TakeCorrect(m.pool, 1);
    var (pool, got) := Take(m.pool, 1);
    if got.None? then None else Some((Mem(m.tables[got.value := ZeroTable()], pool), got.value))
  }

  /** The table below entry (f, i), made if absent; for a user mapping the entry gets the user bit. */
  function GetOrAlloc(m: Mem, f: int, i: int, user: bool): (r: Option<(Mem, int)>)
    requires GoodBlocks(m.pool.ranges)
    ensures r.Some? ==> GoodBlocks(r.value.0.pool.ranges)
  {
    var w := Rd(m.tables, f, i);
    if Present(w) then
      if user && !User(w) then Some((m.(tables := Wr(m.tables, f, i, AddUser(w))), FrameOf(w)))
      else Some((m, FrameOf(w)))
    else
      match NewTable(m)
      case None => None
      case Some(r) => Some((r.0.(tables := Wr(r.0.tables, f, i, Link(r.1, user))), r.1))
  }

  function AddUser(w: int): int {
    if User(w) then w else w + 4
  }

  function Link(c: int, user: bool): int {
    if 0 <= c < TWO_52 then c + Bits(user, true) else 0
  }

  function LeafWord(phys: u64, user: bool, write: bool): int { PageDown(phys) + Bits(user, write) }

  /** Map the page of va to the page of phys. */
  function Map4k(m: Mem, root: int, va: int, phys: u64, user: bool, write: bool): (r: Option<Mem>)
    requires GoodBlocks(m.pool.ranges)
    ensures r.Some? ==> GoodBlocks(r.value.pool.ranges)
  {
    var r1 := GetOrAlloc(m, root, Idx4(va), user);
    if r1.None? then None
    else
      var r2 := GetOrAlloc(r1.value.0, r1.value.1, Idx3(va), user);
      if r2.None? then None
      else
        var r3 := GetOrAlloc(r2.value.0, r2.value.1, Idx2(va), user);
        if r3.None? then None
        else
          var m3 := r3.value.0;
          Some(m3.(tables := Wr(m3.tables, r3.value.1, Idx1(va), LeafWord(phys, user, write))))
  }
}
