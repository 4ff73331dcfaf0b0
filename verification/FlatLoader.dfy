/** The boot loader's way with PT_LOAD segments: one zero-filled block from the lowest segment to the highest, into
    which the file parts are copied. */
module FlatLoader {
  import opened Words
  import opened PageTables
  import opened Ranges
  import opened Elf
  import opened Worlds
  import opened Images

  datatype FlatResult = LoadError | OutOfResources | Panicked | Loaded(base: u64, end: u64)

  // ---- the extent of all segments ----

  function EndOf(ph: Phdr): u64 { SaturatingAdd(ph.vaddr, ph.memsz) }

  function Lowest(phs: seq<Phdr>): u64 {
    if phs == [] then MAX_U64
    else
      var rest := Lowest(phs[..|phs| - 1]);
      if phs[|phs| - 1].kind == PT_LOAD then Min(rest, phs[|phs| - 1].vaddr) else rest
  }

  function Highest(phs: seq<Phdr>): u64 {
    if phs == [] then 0
    else
      var rest := Highest(phs[..|phs| - 1]);
      if phs[|phs| - 1].kind == PT_LOAD then Max(rest, EndOf(phs[|phs| - 1])) else rest
  }

  lemma {:induction false} ExtentCovers(phs: seq<Phdr>, k: int)
    requires 0 <= k < |phs| && phs[k].kind == PT_LOAD
    ensures Lowest(phs) <= phs[k].vaddr && EndOf(phs[k]) <= Highest(phs)
  {
    if k < |phs| - 1 {
      ExtentCovers(phs[..|phs| - 1], k);
    }
  }

  // ---- the image ----

  /** What the second pass rejects. Its third check, that the segment lies inside the block, never fires. */
  predicate Rejected(elf: seq<byte>, ph: Phdr) {
    ph.kind == PT_LOAD && (ph.filesz > ph.memsz || ph.offset + ph.filesz > |elf|)
  }

  ghost predicate Fits(base: int, size: int, ph: Phdr) {
    ph.kind == PT_LOAD ==> base <= ph.vaddr && ph.vaddr - base + ph.memsz <= size
  }

  /** The block after the file part of one segment was copied into it. */
  function Copied(mem: seq<byte>, elf: seq<byte>, base: int, ph: Phdr): (r: seq<byte>)
    requires Fits(base, |mem|, ph) && !Rejected(elf, ph)
    ensures |r| == |mem|
  {
    if ph.kind != PT_LOAD then mem
    else
      var at := ph.vaddr - base;
      mem[..at] + elf[ph.offset..ph.offset + ph.filesz] + mem[at + ph.filesz..]
  }

  function Flat(elf: seq<byte>, base: int, size: nat, phs: seq<Phdr>): (r: seq<byte>)
    requires forall k :: 0 <= k < |phs| ==> Fits(base, size, phs[k]) && !Rejected(elf, phs[k])
    ensures |r| == size
  {
    if phs == [] then seq(size, _ => 0)
    else Copied(Flat(elf, base, size, phs[..|phs| - 1]), elf, base, phs[|phs| - 1])
  }

  /** No address lies in two segments. */
  ghost predicate Disjoint(phs: seq<Phdr>) {
    forall k, k' :: 0 <= k < k' < |phs| && Loadable(phs[k]) && Loadable(phs[k']) ==>
      phs[k].vaddr + phs[k].memsz <= phs[k'].vaddr || phs[k'].vaddr + phs[k'].memsz <= phs[k].vaddr
  }

  lemma CopiedAt(mem: seq<byte>, elf: seq<byte>, base: int, ph: Phdr, at: int)
    requires Fits(base, |mem|, ph) && !Rejected(elf, ph) && 0 <= at < |mem|
    ensures var off := at + base - ph.vaddr;
            Copied(mem, elf, base, ph)[at] ==
              if ph.kind == PT_LOAD && 0 <= off < ph.filesz then elf[ph.offset + off] else mem[at]
  {
  }

  /** Where no segment has a file byte, the block holds zero. */
  lemma {:induction false} FlatElsewhere(elf: seq<byte>, base: int, size: nat, phs: seq<Phdr>, at: int)
    requires forall k :: 0 <= k < |phs| ==> Fits(base, size, phs[k]) && !Rejected(elf, phs[k])
    requires 0 <= at < size
    requires forall k :: 0 <= k < |phs| && phs[k].kind == PT_LOAD ==> !(0 <= at + base - phs[k].vaddr < phs[k].filesz)
    ensures Flat(elf, base, size, phs)[at] == 0
  {
    if phs != [] {
      var n := |phs| - 1;
      FlatElsewhere(elf, base, size, phs[..n], at);
      CopiedAt(Flat(elf, base, size, phs[..n]), elf, base, phs[n], at);
    }
  }

  /** Each byte of each segment: its file byte, or zero beyond the file's part. */
  lemma {:induction false} FlatReads(elf: seq<byte>, base: int, size: nat, phs: seq<Phdr>, k: int, off: int)
    requires forall i :: 0 <= i < |phs| ==> Fits(base, size, phs[i]) && !Rejected(elf, phs[i])
    requires Disjoint(phs) && 0 <= k < |phs| && phs[k].kind == PT_LOAD && 0 <= off < phs[k].memsz
    ensures InFile(elf, phs[k]) && Flat(elf, base, size, phs)[phs[k].vaddr - base + off] == SegByte(elf, phs[k], off)
  {
    var n, at := |phs| - 1, phs[k].vaddr - base + off;
    if k < n {
      FlatReads(elf, base, size, phs[..n], k, off);
    } else {
      FlatElsewhere(elf, base, size, phs[..n], at) by {
        assert forall i :: 0 <= i < n ==> phs[..n][i] == phs[i];
      }
    }
    CopiedAt(Flat(elf, base, size, phs[..n]), elf, base, phs[n], at);
  }

  // ---- the loader ----

  /** How the firmware answers the request for the block: at the address asked for, at another one, or not. */
  datatype Grant = AtBase | Elsewhere | NoMemory

  ghost function Outcome(elf: seq<byte>, phs: seq<Phdr>, grant: Grant): FlatResult {
    if Lowest(phs) == MAX_U64 || Highest(phs) <= Lowest(phs) then LoadError
    else if PageUp(Highest(phs)).None? then Panicked
    else if grant.NoMemory? then OutOfResources
    else if grant.Elsewhere? || exists k :: 0 <= k < |phs| && Rejected(elf, phs[k]) then LoadError
    else Loaded(PageDown(Lowest(phs)), PageUp(Highest(phs)).value)
  }

  /** The first pass: the lowest start and the highest end. */
  method Extent(phs: seq<Phdr>) returns (low: u64, high: u64)
    ensures low == Lowest(phs) && high == Highest(phs)
  {
    low, high := MAX_U64, 0;
    var i := 0;
    while i < |phs|
      invariant 0 <= i <= |phs| && low == Lowest(phs[..i]) && high == Highest(phs[..i])
    {
      assert phs[..i + 1][..i] == phs[..i];
      if phs[i].kind == PT_LOAD {
        low, high := Min(low, phs[i].vaddr), Max(high, EndOf(phs[i]));
      }
      i := i + 1;
    }
    assert phs[..i] == phs;
  }

  /** Copy part of the file into the block. */
  method CopyFile(mem: array<byte>, at: nat, elf: seq<byte>, offset: nat, n: nat)
    requires at + n <= mem.Length && offset + n <= |elf|
    modifies mem
    ensures mem[..] == old(mem[..at]) + elf[offset..offset + n] + old(mem[at + n..])
  {
    var i := 0;
    while i < n
      invariant 0 <= i <= n
      invariant mem[..] == old(mem[..at]) + elf[offset..offset + i] + old(mem[at + i..])
    {
      mem[at + i] := elf[offset + i];
      i := i + 1;
    }
  }

  lemma FlatStep(elf: seq<byte>, base: int, size: nat, phs: seq<Phdr>, i: nat)
    requires i < |phs| && forall k :: 0 <= k < i + 1 ==> Fits(base, size, phs[k]) && !Rejected(elf, phs[k])
    ensures Flat(elf, base, size, phs[..i + 1]) == Copied(Flat(elf, base, size, phs[..i]), elf, base, phs[i])
  {
    assert phs[..i + 1][..i] == phs[..i];
  }

  lemma SegmentFits(phs: seq<Phdr>, k: int)
    requires 0 <= k < |phs| && PageUp(Highest(phs)).Some?
    ensures Fits(PageDown(Lowest(phs)), PageUp(Highest(phs)).value - PageDown(Lowest(phs)), phs[k])
  {
    if phs[k].kind == PT_LOAD {
      ExtentCovers(phs, k);
    }
  }

  /** Both passes. On success the block is the flat image; the result says exactly why it failed otherwise. */
  method Load(elf: seq<byte>, phs: seq<Phdr>, grant: Grant) returns (result: FlatResult, mem: array<byte>)
    requires |elf| < MAX_U64
    ensures fresh(mem) && result == Outcome(elf, phs, grant)
    ensures result.Loaded? ==>
              && (forall k :: 0 <= k < |phs| ==> Fits(result.base, result.end - result.base, phs[k]) && !Rejected(elf, phs[k]))
              && mem[..] == Flat(elf, result.base, result.end - result.base, phs)
  {
    hide Lowest, Highest;
    mem := new byte[0];
    var low, high := Extent(phs);
    if low == MAX_U64 || high <= low {
      return LoadError, mem;
    }
    var base, end := PageDown(low), PageUp(high);
    if end.None? {
      return Panicked, mem;
    }
    if grant.NoMemory? {
      return OutOfResources, mem;
    }
    if grant.Elsewhere? {
      return LoadError, mem;
    }
    var size := end.value - base;
    mem := new byte[size](_ => 0);
    assert phs[..0] == [] && mem[..] == seq(size, _ => 0) == Flat(elf, base, size, phs[..0]);
    hide Flat;
    var i := 0;
    while i < |phs|
      invariant 0 <= i <= |phs| && mem.Length == size && fresh(mem)
      invariant forall k :: 0 <= k < i ==> Fits(base, size, phs[k]) && !Rejected(elf, phs[k])
      invariant mem[..] == Flat(elf, base, size, phs[..i])
    {
      SegmentFits(phs, i);
      var ph := phs[i];
      if ph.kind == PT_LOAD {
        if ph.filesz > ph.memsz || SaturatingAdd(ph.offset, ph.filesz) > |elf| {
          assert Rejected(elf, phs[i]);
          return LoadError, mem;
        }
        var at := ph.vaddr - base;
        if SaturatingAdd(at, ph.memsz) > size {
          assert false;
        }
        CopyFile(mem, at, elf, ph.offset, ph.filesz);
      }
      FlatStep(elf, base, size, phs, i);
      i := i + 1;
    }
    assert phs[..i] == phs;
    return Loaded(base, end.value), mem;
  }

  // ---- the two loaders ----

  lemma PagesApartDisjoint(phs: seq<Phdr>, k: int, k': int)
    requires PagesApart(phs) && 0 <= k < k' < |phs| && Loadable(phs[k]) && Loadable(phs[k'])
    ensures phs[k].vaddr + phs[k].memsz <= phs[k'].vaddr || phs[k'].vaddr + phs[k'].memsz <= phs[k].vaddr
  {
    var x := Max(phs[k].vaddr, phs[k'].vaddr);
    var page := PageAt(x);
    if x < phs[k].vaddr + phs[k].memsz && x < phs[k'].vaddr + phs[k'].memsz {
      assert false;
    }
  }

  /** Two loaders, one image: what the kernel's page-wise loader puts in a process at a segment's address is what the
      boot loader's flat block holds for it. */
  lemma TwoLoadersAgree(free0: seq<Range>, w: World, w': World, root: int, elf: seq<byte>, phs: seq<Phdr>,
                        base: int, size: nat, k: int, off: int)
    requires ImageLoaded(free0, w, w', root, elf, phs) && PagesApart(phs) && AvoidsDirectMap(phs)
    requires forall i :: 0 <= i < |phs| ==> Fits(base, size, phs[i]) && !Rejected(elf, phs[i])
    requires 0 <= k < |phs| && Loadable(phs[k]) && 0 <= off < phs[k].memsz
    ensures UserRead(w', root, phs[k].vaddr + off) == Some(Flat(elf, base, size, phs)[phs[k].vaddr - base + off])
  {
    forall i | 0 <= i < |phs| && Loadable(phs[i]) ensures phs[i].filesz <= phs[i].memsz {
      assert !Rejected(elf, phs[i]);
    }
    forall i, j | 0 <= i < j < |phs| && Loadable(phs[i]) && Loadable(phs[j])
      ensures phs[i].vaddr + phs[i].memsz <= phs[j].vaddr || phs[j].vaddr + phs[j].memsz <= phs[i].vaddr
    {
      PagesApartDisjoint(phs, i, j);
    }
    hide ImageLoaded, PagesApart, AvoidsDirectMap;
    ImageReads(free0, w, w', root, elf, phs, k, off);
    FlatReads(elf, base, size, phs, k, off);
  }
}
