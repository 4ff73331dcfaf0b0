/** What initialising the physical memory manager computes from the memory map. */
module MemoryMap {
  import opened Words
  import opened Ranges

  const MAX_RANGES: nat := 128
  const ONE_MIB: int := 0x10_0000
  const USABLE: int := 1

  datatype MemoryRegion = MemoryRegion(base: u64, len: u64, kind: int)

  datatype Stats = Stats(usableBytes: int, freeBytes: int, rangeCount: nat)

  /** Panic: a checked 64-bit addition overflowed and the kernel halted. */
  datatype InitResult = Ok(stats: Stats) | Err | Panic

  // ---- what the memory map means, one address at a time ----

  function PageOf(x: int): int { x - x % PAGE_SIZE }

  function EndOf(r: MemoryRegion): u64 { SaturatingAdd(r.base, r.len) }

  /** The whole page of x lies inside a usable region. */
  ghost predicate UsableAt(r: MemoryRegion, x: int) {
    r.kind == USABLE && r.base <= PageOf(x) && PageOf(x) + PAGE_SIZE <= EndOf(r)
  }

  /** The page of x meets a region of any other kind. */
  ghost predicate ReservedAt(r: MemoryRegion, x: int) {
    r.kind != USABLE && r.len > 0 && PageOf(x) < EndOf(r) && r.base < PageOf(x) + PAGE_SIZE
  }

  ghost predicate IsUsable(regions: seq<MemoryRegion>, x: int) {
    exists i :: 0 <= i < |regions| && UsableAt(regions[i], x)
  }

  ghost predicate IsReserved(regions: seq<MemoryRegion>, x: int) {
    exists i :: 0 <= i < |regions| && ReservedAt(regions[i], x)
  }

  ghost predicate IsFree(regions: seq<MemoryRegion>, x: int) {
    IsUsable(regions, x) && !IsReserved(regions, x) && x >= ONE_MIB
  }

  /** Rounding this region's bounds stays inside the 64-bit range. */
  predicate Representable(r: MemoryRegion) {
    if r.kind == USABLE then r.base <= TWO_64 - PAGE_SIZE
    else r.len == 0 || EndOf(r) <= TWO_64 - PAGE_SIZE
  }

  predicate UsableRepresentable(regions: seq<MemoryRegion>) {
    forall i :: 0 <= i < |regions| && regions[i].kind == USABLE ==> Representable(regions[i])
  }

  predicate AllRepresentable(regions: seq<MemoryRegion>) {
    forall i :: 0 <= i < |regions| ==> Representable(regions[i])
  }

  // ---- the same map as lists of ranges ----

  function Span(r: MemoryRegion): Range
    requires Representable(r)
  {
    if r.kind == USABLE then Range(PageUp(r.base).value, PageDown(EndOf(r)))
    else if r.len == 0 then Range(0, 0)
    else Range(PageDown(r.base), PageUp(EndOf(r)).value)
  }

  function Collect(regions: seq<MemoryRegion>): (s: seq<Range>)
    requires UsableRepresentable(regions)
    ensures |s| <= |regions|
  {
    if regions == [] then []
    else
      var front, last := regions[..|regions| - 1], regions[|regions| - 1];
      if last.kind == USABLE && Span(last).base < Span(last).end then Collect(front) + [Span(last)]
      else Collect(front)
  }

  function UsableBytes(regions: seq<MemoryRegion>): u64
    requires UsableRepresentable(regions)
  {
    if regions == [] then 0
    else
      var front, last := regions[..|regions| - 1], regions[|regions| - 1];
      if last.kind == USABLE && Span(last).base < Span(last).end
      then SaturatingAdd(UsableBytes(front), Span(last).end - Span(last).base)
      else UsableBytes(front)
  }

  /** Subtraction in an array of MAX_RANGES entries: it fails where a split meets a full array. */
  function CarveOne(s: seq<Range>, b: int, e: int): Option<seq<Range>> {
    if |s| >= MAX_RANGES && SplitsOne(s, b, e) then None
    else Some(Subtract(s, b, e))
  }

  function CarveRegion(s: seq<Range>, r: MemoryRegion): Option<seq<Range>>
    requires Representable(r)
  {
    if r.kind != USABLE && Span(r).base < Span(r).end then CarveOne(s, Span(r).base, Span(r).end) else Some(s)
  }

  function Carve(s: seq<Range>, regions: seq<MemoryRegion>): Option<seq<Range>>
    requires AllRepresentable(regions)
  {
    if regions == [] then Some(s)
    else
      var front, last := regions[..|regions| - 1], regions[|regions| - 1];
      match Carve(s, front)
      case None => None
      case Some(t) => CarveRegion(t, last)
  }

  /** The free list that initialisation computes, or None where it gives up. */
  function FreeList(regions: seq<MemoryRegion>): Option<seq<Range>>
    requires AllRepresentable(regions)
  {
    var s := Collect(regions);
    if |s| == 0 || |s| > MAX_RANGES then None
    else
      match Carve(Merge(Sort(s)), regions)
      case None => None
      case Some(t) =>
        match CarveOne(t, 0, ONE_MIB)
        case None => None
        case Some(free) => if |free| == 0 then None else Some(free)
  }

  // ---- which failure comes first ----

  /** Failed: more ranges than fit, or nothing left. Overflowed: rounding left the 64-bit range, which panics. */
  datatype Outcome = Fine | Failed | Overflowed

  /** The first pass stops at the first region that does not fit or cannot be rounded. */
  function CollectOutcome(regions: seq<MemoryRegion>): (o: Outcome)
    ensures o.Fine? ==> UsableRepresentable(regions) && |Collect(regions)| <= MAX_RANGES
  {
    if regions == [] then Fine
    else
      var front, last := regions[..|regions| - 1], regions[|regions| - 1];
      var o := CollectOutcome(front);
      if !o.Fine? || last.kind != USABLE then o
      else if !Representable(last) then Overflowed
      else if Span(last).base < Span(last).end && |Collect(front)| == MAX_RANGES then Failed
      else Fine
  }

  /** The second pass stops at the first region that cannot be rounded or would split a range of a full array. */
  function CarveOutcome(s: seq<Range>, regions: seq<MemoryRegion>): (o: Outcome)
    requires UsableRepresentable(regions)
    ensures o.Fine? <==> AllRepresentable(regions) && Carve(s, regions).Some?
  {
    if regions == [] then Fine
    else
      var front, last := regions[..|regions| - 1], regions[|regions| - 1];
      var o := CarveOutcome(s, front);
      if !o.Fine? then o
      else if !Representable(last) then Overflowed
      else if CarveRegion(Carve(s, front).value, last).None? then Failed
      else Fine
  }

  function InitOutcome(regions: seq<MemoryRegion>): Outcome {
    var o := CollectOutcome(regions);
    if !o.Fine? then o
    else if Collect(regions) == [] then Failed
    else
      var o' := CarveOutcome(Merge(Sort(Collect(regions))), regions);
      if !o'.Fine? then o'
      else if FreeList(regions).None? then Failed
      else Fine
  }

  lemma {:induction false} CollectStuck(regions: seq<MemoryRegion>, i: nat)
    requires i <= |regions| && !CollectOutcome(regions[..i]).Fine?
    ensures CollectOutcome(regions) == CollectOutcome(regions[..i])
  {
    if i < |regions| {
      var front := regions[..|regions| - 1];
      assert front[..i] == regions[..i];
      CollectStuck(front, i);
    } else {
      assert regions[..i] == regions;
    }
  }

  lemma {:induction false} CarveStuck(s: seq<Range>, regions: seq<MemoryRegion>, i: nat)
    requires UsableRepresentable(regions) && i <= |regions| && !CarveOutcome(s, regions[..i]).Fine?
    ensures CarveOutcome(s, regions) == CarveOutcome(s, regions[..i])
  {
    if i < |regions| {
      var front := regions[..|regions| - 1];
      assert front[..i] == regions[..i];
      CarveStuck(s, front, i);
    } else {
      assert regions[..i] == regions;
    }
  }

  lemma {:induction false} CollectOutcomeFine(regions: seq<MemoryRegion>)
    requires UsableRepresentable(regions)
    ensures CollectOutcome(regions).Fine? <==> |Collect(regions)| <= MAX_RANGES
    ensures !CollectOutcome(regions).Overflowed?
  {
    if regions != [] {
      CollectOutcomeFine(regions[..|regions| - 1]);
    }
  }

  lemma {:induction false} CarveOutcomeFine(s: seq<Range>, regions: seq<MemoryRegion>)
    requires AllRepresentable(regions)
    ensures !CarveOutcome(s, regions).Overflowed?
  {
    if regions != [] {
      CarveOutcomeFine(s, regions[..|regions| - 1]);
    }
  }

  /** Initialisation succeeds iff the map can be rounded and its free list exists; a map that can be rounded never
      makes it panic. */
  lemma InitOutcomeMeaning(regions: seq<MemoryRegion>)
    ensures InitOutcome(regions).Fine? <==> AllRepresentable(regions) && FreeList(regions).Some?
    ensures AllRepresentable(regions) ==> !InitOutcome(regions).Overflowed?
  {
    if UsableRepresentable(regions) {
      CollectOutcomeFine(regions);
    }
    if AllRepresentable(regions) {
      CarveOutcomeFine(Merge(Sort(Collect(regions))), regions);
    }
  }

  lemma SpanMeaning(r: MemoryRegion, x: int)
    requires Representable(r)
    ensures r.kind == USABLE ==> (Span(r).base <= x < Span(r).end <==> UsableAt(r, x))
    ensures r.kind != USABLE ==> (Span(r).base <= x < Span(r).end <==> ReservedAt(r, x))
  {
  }

  lemma {:induction false} CollectCorrect(regions: seq<MemoryRegion>)
    requires UsableRepresentable(regions)
    ensures NonEmpty(Collect(regions)) && Aligned(Collect(regions)) && Within(Collect(regions), 0, TWO_64 - PAGE_SIZE)
    ensures UsableBytes(regions) == Min(Size(Collect(regions)), MAX_U64)
    ensures 0 <= Size(Collect(regions))
  {
    if regions != [] {
      var front, last := regions[..|regions| - 1], regions[|regions| - 1];
      CollectCorrect(front);
      if last.kind == USABLE {
        assert (Collect(front) + [Span(last)])[..|Collect(front)|] == Collect(front);
      }
    }
  }

  lemma {:induction false} CollectCovers(regions: seq<MemoryRegion>, x: int)
    requires UsableRepresentable(regions)
    ensures Covers(Collect(regions), x) <==> IsUsable(regions, x)
  {
    if regions != [] {
      var front, last := regions[..|regions| - 1], regions[|regions| - 1];
      CollectCovers(front, x);
      if last.kind == USABLE {
        SpanMeaning(last, x);
        CoversConcat(Collect(front), [Span(last)], x);
        assert [Span(last)][0] == Span(last);
      }
      assert IsUsable(regions, x) <==> IsUsable(front, x) || UsableAt(last, x) by {
        assert regions == front + [last];
        if IsUsable(front, x) {
          var i :| 0 <= i < |front| && UsableAt(front[i], x);
          assert regions[i] == front[i];
        }
      }
    }
  }

  /** Everything the allocator relies on about a free list. */
  ghost predicate GoodList(s: seq<Range>) {
    Canonical(s) && Aligned(s) && Within(s, 0, TWO_64 - PAGE_SIZE)
  }

  lemma GoodIsCanonical(s: seq<Range>)
    requires GoodList(s)
    ensures Canonical(s)
  {
  }

  lemma SubtractGood(s: seq<Range>, b: int, e: int)
    requires GoodList(s) && b < e && b % PAGE_SIZE == 0 && e % PAGE_SIZE == 0
    ensures GoodList(Subtract(s, b, e)) && Size(Subtract(s, b, e)) <= Size(s)
  {
    SubtractCanonical(s, b, e, 0, TWO_64 - PAGE_SIZE);
    SubtractAligned(s, b, e);
  }

  lemma {:induction false} CarveGood(s: seq<Range>, regions: seq<MemoryRegion>)
    requires GoodList(s) && AllRepresentable(regions) && Carve(s, regions).Some?
    ensures GoodList(Carve(s, regions).value) && Size(Carve(s, regions).value) <= Size(s)
  {
    if regions != [] {
      var front, last := regions[..|regions| - 1], regions[|regions| - 1];
      CarveGood(s, front);
      if last.kind != USABLE && Span(last).base < Span(last).end {
        SubtractGood(Carve(s, front).value, Span(last).base, Span(last).end);
      }
    }
  }

  lemma {:induction false} CarveCovers(s: seq<Range>, regions: seq<MemoryRegion>, x: int)
    requires GoodList(s) && AllRepresentable(regions) && Carve(s, regions).Some?
    ensures Covers(Carve(s, regions).value, x) <==> Covers(s, x) && !IsReserved(regions, x)
  {
    if regions != [] {
      var front, last := regions[..|regions| - 1], regions[|regions| - 1];
      CarveCovers(s, front, x);
      CarveGood(s, front);
      SpanMeaning(last, x);
      if last.kind != USABLE && Span(last).base < Span(last).end {
        SubtractCovers(Carve(s, front).value, Span(last).base, Span(last).end, x);
      }
      assert IsReserved(regions, x) <==> IsReserved(front, x) || ReservedAt(last, x) by {
        assert regions == front + [last];
        if IsReserved(front, x) {
          var i :| 0 <= i < |front| && ReservedAt(front[i], x);
          assert regions[i] == front[i];
        }
      }
    }
  }

  lemma MergedGood(s: seq<Range>)
    requires NonEmpty(s) && Aligned(s) && Within(s, 0, TWO_64 - PAGE_SIZE) && s != []
    ensures GoodList(Merge(Sort(s))) && Size(Merge(Sort(s))) <= Size(s)
    ensures forall x :: Covers(Merge(Sort(s)), x) <==> Covers(s, x)
  {
    hide Covers, MergeInto, Sort, Size;
    var t := Sort(s);
    SortCorrect(s);
    SortedNonEmpty(s);
    SortKeeps(s);
    assert t == [t[0]] + t[1..];
    MergeIntoCanonical(t[0], t[1..]);
    MergeIntoSize(t[0], t[1..]);
    MergeIntoAligned(t[0], t[1..], 0, TWO_64 - PAGE_SIZE);
    forall x ensures Covers(Merge(t), x) <==> Covers(s, x) {
      MergedCovers(s, x);
    }
  }

  lemma MergedCovers(s: seq<Range>, x: int)
    requires NonEmpty(s) && s != []
    ensures Covers(Merge(Sort(s)), x) <==> Covers(s, x)
  {
    hide Covers, MergeInto, Sort;
    var t := Sort(s);
    SortCorrect(s);
    SortedNonEmpty(s);
    assert t == [t[0]] + t[1..];
    MergeIntoCovers(t[0], t[1..], x);
    SameElementsCover(s, t, x);
    SameElementsCover(t, s, x);
  }

  lemma FreeListCovers(regions: seq<MemoryRegion>, x: int)
    requires AllRepresentable(regions) && FreeList(regions).Some?
    ensures Covers(FreeList(regions).value, x) <==> IsFree(regions, x)
  {
    var s := Collect(regions);
    CollectCorrect(regions);
    MergedGood(s);
    CollectCovers(regions, x);
    CarveGood(Merge(Sort(s)), regions);
    CarveCovers(Merge(Sort(s)), regions, x);
    SubtractCovers(Carve(Merge(Sort(s)), regions).value, 0, ONE_MIB, x);
    assert IsUsable(regions, x) ==> x >= 0;
  }

  lemma FreeListGood(regions: seq<MemoryRegion>)
    requires AllRepresentable(regions) && FreeList(regions).Some?
    ensures GoodList(FreeList(regions).value)
    ensures 0 < Size(FreeList(regions).value) <= UsableBytes(regions)
  {
    hide Collect, Carve, Sort, Merge, Size, Subtract, UsableBytes, Splits;
    var s := Collect(regions);
    CollectCorrect(regions);
    MergedGood(s);
    CarveGood(Merge(Sort(s)), regions);
    SubtractGood(Carve(Merge(Sort(s)), regions).value, 0, ONE_MIB);
    var free := FreeList(regions).value;
    GoodSize(free);
  }

  lemma GoodSize(s: seq<Range>)
    requires GoodList(s) && s != []
    ensures 0 < Size(s) < TWO_64
  {
    CanonicalSize(s, 0, TWO_64 - PAGE_SIZE);
    CanonicalSize(s[..|s| - 1], 0, TWO_64 - PAGE_SIZE);
  }

  /** Initialisation computes exactly the free addresses of the memory map, in normal form,
      and reports at most as many free bytes as usable ones even when usable regions overlap. */
  lemma FreeListExact(regions: seq<MemoryRegion>)
    requires AllRepresentable(regions) && FreeList(regions).Some?
    ensures GoodList(FreeList(regions).value)
    ensures forall x :: Covers(FreeList(regions).value, x) <==> IsFree(regions, x)
    ensures 0 < Size(FreeList(regions).value) <= UsableBytes(regions)
  {
    FreeListGood(regions);
    forall x ensures Covers(FreeList(regions).value, x) <==> IsFree(regions, x) {
      FreeListCovers(regions, x);
    }
  }
}
