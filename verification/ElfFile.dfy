/** ELF files as they are written: fields in little-endian order, one after the other, as chapters 4 and 5 of the System V
    gABI lay them out. What the loaders read from such a file is what was written. */
module ElfFile {
  import opened Words
  import opened Elf

  /** The n low bytes of v, lowest first. */
  function LE(v: nat, n: nat): (b: seq<byte>)
    ensures |b| == n
  {
    if n == 0 then [] else [v % 256] + LE(v / 256, n - 1)
  }

  /** The file header; ident is its first 16 bytes. */
  datatype FileHeader = FileHeader(ident: seq<byte>, kind: nat, machine: nat, version: nat, entry: u64, phoff: u64, shoff: u64,
                                   flags: nat, ehsize: nat, phentsize: nat, phnum: nat, shentsize: nat, shnum: nat, shstrndx: nat)

  predicate FitsFile(h: FileHeader) { |h.ident| == 16 && h.machine < 0x1_0000 && h.phentsize < 0x1_0000 && h.phnum < 0x1_0000 }

  function FileBytes(h: FileHeader): (b: seq<byte>)
    requires FitsFile(h)
    ensures |b| == EHDR_SIZE
  {
    h.ident + LE(h.kind, 2) + LE(h.machine, 2) + LE(h.version, 4) + LE(h.entry, 8) + LE(h.phoff, 8) + LE(h.shoff, 8)
    + LE(h.flags, 4) + LE(h.ehsize, 2) + LE(h.phentsize, 2) + LE(h.phnum, 2) + LE(h.shentsize, 2) + LE(h.shnum, 2)
    + LE(h.shstrndx, 2)
  }

  /** A program header with the two fields that no loader here looks at. */
  datatype Record = Record(ph: Phdr, paddr: u64, align: u64)

  predicate FitsRecord(r: Record) { 0 <= r.ph.kind < TWO_32 && 0 <= r.ph.flags < TWO_32 }

  function RecordBytes(r: Record): (b: seq<byte>)
    requires FitsRecord(r)
    ensures |b| == PHDR_SIZE
  {
    LE(r.ph.kind, 4) + LE(r.ph.flags, 4) + LE(r.ph.offset, 8) + LE(r.ph.vaddr, 8) + LE(r.paddr, 8) + LE(r.ph.filesz, 8)
    + LE(r.ph.memsz, 8) + LE(r.align, 8)
  }

  // ---- reading fields ----

  lemma Read16(b: seq<byte>, off: nat, v: nat)
    requires off + 2 <= |b| && b[off..off + 2] == LE(v, 2)
    ensures U16(b, off) == v % 0x1_0000
  {
    TwoBytes(v);
    hide LE;
    assert b[off] == b[off..off + 2][0] && b[off + 1] == b[off..off + 2][1];
  }

  lemma TwoBytes(v: nat)
    ensures LE(v, 2)[0] == v % 256 && LE(v, 2)[1] == v / 256 % 256 && v % 256 + 256 * (v / 256 % 256) == v % 0x1_0000
  {
    assert LE(v / 256, 1) == [v / 256 % 256] + LE(v / 256 / 256, 0);
  }

  lemma {:induction false} SplitLE(v: nat, n: nat, m: nat)
    ensures LE(v, n + m) == LE(v, n) + LE(Shifted(v, n), m)
  {
    if n > 0 {
      SplitLE(v / 256, n - 1, m);
    }
  }

  /** v without its n low bytes. */
  function Shifted(v: nat, n: nat): nat { if n == 0 then v else Shifted(v / 256, n - 1) }

  lemma Shifts(v: nat)
    ensures Shifted(v, 2) == v / 0x1_0000 && Shifted(v, 4) == v / TWO_32
  {
    assert Shifted(v, 1) == v / 256 && Shifted(v / 256, 1) == v / 256 / 256;
    var u := v / 256 / 256;
    assert Shifted(v, 4) == Shifted(v / 256, 3) == Shifted(u, 2) == Shifted(u / 256, 1) == u / 256 / 256;
  }

  lemma Read32(b: seq<byte>, off: nat, v: nat)
    requires off + 4 <= |b| && b[off..off + 4] == LE(v, 4)
    ensures U32(b, off) == v % TWO_32
  {
    hide LE, U16;
    SplitLE(v, 2, 2);
    Shifts(v);
    assert b[off..off + 2] == b[off..off + 4][..2] == LE(v, 2);
    assert b[off + 2..off + 4] == b[off..off + 4][2..] == LE(v / 0x1_0000, 2);
    Read16(b, off, v);
    Read16(b, off + 2, v / 0x1_0000);
  }

  lemma Read64(b: seq<byte>, off: nat, v: u64)
    requires off + 8 <= |b| && b[off..off + 8] == LE(v, 8)
    ensures U64(b, off) == v
  {
    hide LE, U32;
    SplitLE(v, 4, 4);
    Shifts(v);
    assert b[off..off + 4] == b[off..off + 8][..4] == LE(v, 4);
    assert b[off + 4..off + 8] == b[off..off + 8][4..] == LE(v / TWO_32, 4);
    Read32(b, off, v);
    Read32(b, off + 4, v / TWO_32);
  }

  /** The field at offset at of a part that lies at off. */
  lemma Within(b: seq<byte>, off: nat, part: seq<byte>, at: nat, n: nat)
    requires off + |part| <= |b| && b[off..off + |part|] == part && at + n <= |part|
    ensures b[off + at..off + at + n] == part[at..at + n]
  {
    var x, y := b[off + at..off + at + n], part[at..at + n];
    forall k | 0 <= k < n ensures x[k] == y[k] {
      assert b[off..off + |part|][at + k] == part[at + k];
    }
  }

  lemma RecordFields(r: Record)
    requires FitsRecord(r)
    ensures var b := RecordBytes(r);
            && b[0..4] == LE(r.ph.kind, 4) && b[4..8] == LE(r.ph.flags, 4) && b[8..16] == LE(r.ph.offset, 8)
            && b[16..24] == LE(r.ph.vaddr, 8) && b[32..40] == LE(r.ph.filesz, 8) && b[40..48] == LE(r.ph.memsz, 8)
  {
    hide LE;
  }

  lemma FileFields(h: FileHeader)
    requires FitsFile(h)
    ensures var b := FileBytes(h);
            && b[0..16] == h.ident && b[18..20] == LE(h.machine, 2) && b[24..32] == LE(h.entry, 8)
            && b[32..40] == LE(h.phoff, 8) && b[54..56] == LE(h.phentsize, 2) && b[56..58] == LE(h.phnum, 2)
  {
    hide LE;
  }

  // ---- reading a file back ----

  /** The identification of a 64-bit little-endian file. */
  predicate IdentOk(ident: seq<byte>) {
    |ident| == 16 && ident[..6] == [0x7f, 0x45, 0x4c, 0x46, 2, 1]
  }

  lemma HeaderFields(elf: seq<byte>, h: FileHeader)
    requires FitsFile(h) && |elf| >= EHDR_SIZE && elf[..EHDR_SIZE] == FileBytes(h)
    ensures U16(elf, 18) == h.machine && U64(elf, 24) == h.entry && U64(elf, 32) == h.phoff
    ensures U16(elf, 54) == h.phentsize && U16(elf, 56) == h.phnum && elf[..16] == h.ident
  {
    hide FileBytes, LE;
    var b := FileBytes(h);
    FileFields(h);
    assert elf[0..0 + |b|] == b;
    Within(elf, 0, b, 0, 16);
    Within(elf, 0, b, 18, 2);
    Within(elf, 0, b, 24, 8);
    Within(elf, 0, b, 32, 8);
    Within(elf, 0, b, 54, 2);
    Within(elf, 0, b, 56, 2);
    Read16(elf, 18, h.machine);
    Read64(elf, 24, h.entry);
    Read64(elf, 32, h.phoff);
    Read16(elf, 54, h.phentsize);
    Read16(elf, 56, h.phnum);
  }

  /** The loader takes a file iff it has room for a header, is a 64-bit little-endian file for this machine, and its table of
      program headers has entries of the right size and lies in the file. */
  lemma AcceptedIff(elf: seq<byte>, h: FileHeader)
    requires FitsFile(h) && |elf| >= EHDR_SIZE && elf[..EHDR_SIZE] == FileBytes(h)
    ensures HeaderOk(elf) <==>
              && IdentOk(h.ident) && h.machine == 0x3e && h.phentsize == PHDR_SIZE && h.phoff + h.phnum * PHDR_SIZE <= |elf|
  {
    hide FileBytes, U16, U64;
    HeaderFields(elf, h);
    assert forall k :: 0 <= k < 6 ==> elf[k] == elf[..16][k] == h.ident[k];
    if IdentOk(h.ident) {
      assert forall k :: 0 <= k < 6 ==> h.ident[k] == h.ident[..6][k];
    }
  }

  lemma RecordRead(elf: seq<byte>, off: nat, r: Record)
    requires FitsRecord(r) && off + PHDR_SIZE <= |elf| && elf[off..off + PHDR_SIZE] == RecordBytes(r)
    ensures r.ph == Phdr(U32(elf, off), U32(elf, off + 4), U64(elf, off + 8), U64(elf, off + 16), U64(elf, off + 32),
                         U64(elf, off + 40))
  {
    hide RecordBytes, LE, U32, U64;
    var b := RecordBytes(r);
    RecordFields(r);
    Within(elf, off, b, 0, 4);
    Within(elf, off, b, 4, 4);
    Within(elf, off, b, 8, 8);
    Within(elf, off, b, 16, 8);
    Within(elf, off, b, 32, 8);
    Within(elf, off, b, 40, 8);
    Read32(elf, off, r.ph.kind);
    Read32(elf, off + 4, r.ph.flags);
    Read64(elf, off + 8, r.ph.offset);
    Read64(elf, off + 16, r.ph.vaddr);
    Read64(elf, off + 32, r.ph.filesz);
    Read64(elf, off + 40, r.ph.memsz);
  }

  /** A file for this machine with these headers, wherever its table of program headers lies. */
  ghost predicate Written(elf: seq<byte>, h: FileHeader, rs: seq<Record>) {
    && FitsFile(h) && |elf| >= EHDR_SIZE && elf[..EHDR_SIZE] == FileBytes(h)
    && IdentOk(h.ident) && h.machine == 0x3e && h.phentsize == PHDR_SIZE && h.phnum == |rs|
    && h.phoff + |rs| * PHDR_SIZE <= |elf|
    && forall i :: 0 <= i < |rs| ==>
         FitsRecord(rs[i]) && elf[h.phoff + i * PHDR_SIZE..h.phoff + i * PHDR_SIZE + PHDR_SIZE] == RecordBytes(rs[i])
  }

  /** What was written is what is read: the entry point, and every program header with each of its fields. */
  lemma ReadBack(elf: seq<byte>, h: FileHeader, rs: seq<Record>)
    requires Written(elf, h, rs)
    ensures HeaderOk(elf) && EntryPoint(elf) == h.entry
    ensures |Phdrs(elf)| == |rs| && forall i :: 0 <= i < |rs| ==> Phdrs(elf)[i] == rs[i].ph
  {
    hide FileBytes, RecordBytes, HeaderOk, U16, U32, U64;
    AcceptedIff(elf, h);
    HeaderFields(elf, h);
    PhdrsAre(elf);
    forall i | 0 <= i < |rs| ensures Phdrs(elf)[i] == rs[i].ph {
      RecordRead(elf, h.phoff + i * PHDR_SIZE, rs[i]);
    }
  }

  // ---- writing a file ----

  function Table(rs: seq<Record>): (b: seq<byte>)
    requires forall i :: 0 <= i < |rs| ==> FitsRecord(rs[i])
    ensures |b| == |rs| * PHDR_SIZE
  {
    if rs == [] then [] else Table(rs[..|rs| - 1]) + RecordBytes(rs[|rs| - 1])
  }

  lemma {:induction false} TableAt(rs: seq<Record>, i: nat)
    requires i < |rs| && forall k :: 0 <= k < |rs| ==> FitsRecord(rs[k])
    ensures Table(rs)[i * PHDR_SIZE..i * PHDR_SIZE + PHDR_SIZE] == RecordBytes(rs[i])
  {
    hide RecordBytes;
    if i < |rs| - 1 {
      TableAt(rs[..|rs| - 1], i);
      var t := Table(rs[..|rs| - 1]);
      assert Table(rs)[i * PHDR_SIZE..i * PHDR_SIZE + PHDR_SIZE] == t[i * PHDR_SIZE..i * PHDR_SIZE + PHDR_SIZE];
    }
  }

  /** File header, some bytes, the table of program headers, and the rest. */
  function File(h: FileHeader, gap: seq<byte>, rs: seq<Record>, rest: seq<byte>): seq<byte>
    requires FitsFile(h) && forall i :: 0 <= i < |rs| ==> FitsRecord(rs[i])
  {
    FileBytes(h) + gap + Table(rs) + rest
  }

  /** Every list of program headers can be written, and is read back. */
  lemma FileReadsBack(h: FileHeader, gap: seq<byte>, rs: seq<Record>, rest: seq<byte>)
    requires FitsFile(h) && (forall i :: 0 <= i < |rs| ==> FitsRecord(rs[i]))
    requires IdentOk(h.ident) && h.machine == 0x3e && h.phentsize == PHDR_SIZE && h.phnum == |rs|
    requires h.phoff == EHDR_SIZE + |gap|
    ensures var elf := File(h, gap, rs, rest);
            && HeaderOk(elf) && EntryPoint(elf) == h.entry
            && |Phdrs(elf)| == |rs| && forall i :: 0 <= i < |rs| ==> Phdrs(elf)[i] == rs[i].ph
  {
    hide FileBytes, RecordBytes, Table, HeaderOk;
    var elf := File(h, gap, rs, rest);
    forall i | 0 <= i < |rs|
      ensures elf[h.phoff + i * PHDR_SIZE..h.phoff + i * PHDR_SIZE + PHDR_SIZE] == RecordBytes(rs[i])
    {
      TableAt(rs, i);
      assert elf[h.phoff..h.phoff + |Table(rs)|] == Table(rs);
      Within(elf, h.phoff, Table(rs), i * PHDR_SIZE, PHDR_SIZE);
    }
    ReadBack(elf, h, rs);
  }
}
