/** ELF images as the loaders read them: header fields, program headers, and the byte that each address of a
    PT_LOAD segment must hold (chapter 5, "Program Header", of the System V gABI). */
module Elf {
  import opened Words
  import opened PageTables

  type byte = x: int | 0 <= x < 256

  const EHDR_SIZE: int := 64
  const PHDR_SIZE: int := 56
  const PT_LOAD: int := 1

  // ---- little-endian fields ----

  function U16(b: seq<byte>, off: int): (r: int)
    requires 0 <= off && off + 2 <= |b|
    ensures 0 <= r < 0x1_0000
  {
    var lo: int := b[off];
    var hi: int := b[off + 1];
    lo + 0x100 * hi
  }

  function U32(b: seq<byte>, off: int): (r: int)
    requires 0 <= off && off + 4 <= |b|
    ensures 0 <= r < TWO_32
  {
    U16(b, off) + 0x1_0000 * U16(b, off + 2)
  }

  function U64(b: seq<byte>, off: int): (r: u64)
    requires 0 <= off && off + 8 <= |b|
  {
    U32(b, off) + TWO_32 * U32(b, off + 4)
  }

  // ---- headers ----

  datatype Phdr = Phdr(kind: int, flags: int, offset: u64, vaddr: u64, filesz: u64, memsz: u64)

  /** The checks on the file header that the kernel's loader makes before it looks at segments. */
  predicate HeaderOk(elf: seq<byte>) {
    && |elf| >= EHDR_SIZE
    && elf[0] == 0x7f && elf[1] == 0x45 && elf[2] == 0x4c && elf[3] == 0x46 && elf[4] == 2 && elf[5] == 1
    && U16(elf, 18) == 0x3e && U16(elf, 54) == PHDR_SIZE
    && U64(elf, 32) + U16(elf, 56) * PHDR_SIZE <= |elf|
  }

  function EntryPoint(elf: seq<byte>): u64
    requires HeaderOk(elf)
  {
    U64(elf, 24)
  }

  function SegmentCount(elf: seq<byte>): nat
    requires HeaderOk(elf)
  {
    U16(elf, 56)
  }

  function PhdrAt(elf: seq<byte>, i: int): Phdr
    requires HeaderOk(elf) && 0 <= i < SegmentCount(elf)
  {
    var at := U64(elf, 32) + i * PHDR_SIZE;
    Phdr(U32(elf, at), U32(elf, at + 4), U64(elf, at + 8), U64(elf, at + 16), U64(elf, at + 32), U64(elf, at + 40))
  }

  function Phdrs(elf: seq<byte>): seq<Phdr>
    requires HeaderOk(elf)
  {
    seq(SegmentCount(elf), i requires 0 <= i < SegmentCount(elf) && HeaderOk(elf) => PhdrAt(elf, i))
  }

  lemma PhdrsAre(elf: seq<byte>)
    requires HeaderOk(elf)
    ensures |Phdrs(elf)| == SegmentCount(elf) && forall i :: 0 <= i < SegmentCount(elf) ==> Phdrs(elf)[i] == PhdrAt(elf, i)
  {
  }

  // ---- segments ----

  predicate Loadable(ph: Phdr) { ph.kind == PT_LOAD && ph.memsz != 0 }

  /** The file holds the segment's contents. */
  predicate InFile(elf: seq<byte>, ph: Phdr) { ph.filesz == 0 || ph.offset + ph.filesz <= |elf| }

  /** The byte at offset off of the segment in memory: file contents, then zeros. */
  function SegByte(elf: seq<byte>, ph: Phdr, off: int): byte
    requires InFile(elf, ph) && 0 <= off < ph.memsz
  {
    if off < ph.filesz then elf[ph.offset + off] else 0
  }

  /** The file lacks the segment's contents, its last page is not addressable, or its file part is larger than itself. */
  predicate Malformed(elf: seq<byte>, ph: Phdr) {
    !InFile(elf, ph) || ph.vaddr + ph.memsz > TWO_64 - PAGE_SIZE || ph.filesz > ph.memsz
  }

  predicate WellFormed(elf: seq<byte>) {
    HeaderOk(elf) && forall k :: 0 <= k < |Phdrs(elf)| && Loadable(Phdrs(elf)[k]) ==> !Malformed(elf, Phdrs(elf)[k])
  }

  lemma MalformedAt(elf: seq<byte>, k: nat)
    requires HeaderOk(elf) && k < |Phdrs(elf)| && Loadable(Phdrs(elf)[k]) && Malformed(elf, Phdrs(elf)[k])
    ensures !WellFormed(elf)
  {
  }

  /** x lies on a page of the segment. */
  predicate OnPages(ph: Phdr, x: int) {
    PageDown(ph.vaddr) <= x && x - x % PAGE_SIZE < ph.vaddr + ph.memsz
  }

  /** No page of a segment lies in the direct-map slot. */
  ghost predicate AvoidsDirectMap(phs: seq<Phdr>) {
    forall k, x: int :: 0 <= k < |phs| && Loadable(phs[k]) && OnPages(phs[k], x) ==> Idx4(x) != HHDM_SLOT
  }

  /** Different pages of segments are different pages to the page walk, and no two segments share one. */
  ghost predicate PagesApart(phs: seq<Phdr>) {
    forall k, k', x: int, y: int | 0 <= k < |phs| && 0 <= k' < |phs| && Loadable(phs[k]) && Loadable(phs[k']) ::
      OnPages(phs[k], x) && OnPages(phs[k'], y) ==>
        (k == k' && x / PAGE_SIZE == y / PAGE_SIZE) || PageAt(x) != PageAt(y)
  }

  /** The file part of a segment is no larger than the segment. */
  predicate SizesOk(phs: seq<Phdr>) {
    forall k :: 0 <= k < |phs| && Loadable(phs[k]) ==> phs[k].filesz <= phs[k].memsz
  }
}
