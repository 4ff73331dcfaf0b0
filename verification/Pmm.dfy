/** The physical memory manager itself: in-place sorting, merging and carving of the range array,
    and the allocator that works on the result. */
module Pmm {
  import opened Words
  import opened Ranges
  import opened MemoryMap
  import opened PageAlloc

  /** Where the sifting loop stops is where Insert puts the key. */
  lemma {:induction false} InsertStops(s: seq<Range>, key: Range, j: nat)
    requires j <= |s| && (j > 0 ==> s[j - 1].base <= key.base)
    requires forall k :: j <= k < |s| ==> s[k].base > key.base
    ensures Insert(s, key) == s[..j] + [key] + s[j..]
  {
    if j == |s| {
      assert s[..j] == s;
    } else {
      var front := s[..|s| - 1];
      InsertStops(front, key, j);
      assert front[..j] == s[..j] && s[j..] == front[j..] + [s[|s| - 1]];
    }
  }

  /** Sift entry i down into the sorted entries before it. */
  method InsertEntry(ranges: array<Range>, i: nat)
    requires i < ranges.Length
    modifies ranges
    ensures ranges[..i + 1] == Insert(old(ranges[..i]), old(ranges[i]))
    ensures ranges[i + 1..] == old(ranges[i + 1..])
  {
    ghost var front := ranges[..i];
    var key := ranges[i];
    var j := i;
    while j > 0 && ranges[j - 1].base > key.base
      invariant 0 <= j <= i
      invariant forall k :: 0 <= k < j ==> ranges[k] == front[k]
      invariant forall k :: j < k <= i ==> ranges[k] == front[k - 1]
      invariant forall k :: j <= k < i ==> front[k].base > key.base
      invariant ranges[i + 1..] == old(ranges[i + 1..])
    {
      ranges[j] := ranges[j - 1];
      j := j - 1;
    }
    ranges[j] := key;
    InsertStops(front, key, j);
    assert ranges[..i + 1] == front[..j] + [key] + front[j..];
  }

  /** Insertion sort of the first len entries; entries with equal bases keep their order. */
  method SortByBase(ranges: array<Range>, len: nat)
    requires len <= ranges.Length
    modifies ranges
    ensures ranges[..len] == Sort(old(ranges[..len])) && ranges[len..] == old(ranges[len..])
  {
    if len == 0 {
      return;
    }
    ghost var s := ranges[..];
    var i := 1;
    assert s[..1][..0] == [];
    while i < len
      invariant 1 <= i <= len
      invariant ranges[..i] == Sort(s[..i])
      invariant ranges[i..] == s[i..]
    {
      assert s[..i + 1][..i] == s[..i];
      assert ranges[i..][0] == ranges[i] && s[i..][0] == s[i];
      assert ranges[i..][1..] == ranges[i + 1..] && s[i..][1..] == s[i + 1..];
      InsertEntry(ranges, i);
      i := i + 1;
    }
    assert ranges[len..] == s[i..][len - i..];
  }

  lemma MergeUnfold(s: seq<Range>, cur: Range)
    requires s != []
    ensures Merge(s) == MergeInto(s[0], s[1..])
    ensures MergeInto(cur, s) == if s[0].base <= cur.end
                                 then MergeInto(Range(cur.base, Max(cur.end, s[0].end)), s[1..])
                                 else [cur] + Merge(s)
  {
  }

  /** The first merged range of the entries from i on, and the index of the first entry outside it. */
  method MergeRun(ranges: array<Range>, i: nat, len: nat) returns (cur: Range, next: nat)
    requires i < len <= ranges.Length
    ensures i < next <= len
    ensures Merge(ranges[i..len]) == [cur] + Merge(ranges[next..len])
  {
    cur, next := ranges[i], i + 1;
    MergeUnfold(ranges[i..len], cur);
    while next < len && ranges[next].base <= cur.end
      invariant i < next <= len
      invariant Merge(ranges[i..len]) == MergeInto(cur, ranges[next..len])
    {
      MergeUnfold(ranges[next..len], cur);
      cur := Range(cur.base, Max(cur.end, ranges[next].end));
      next := next + 1;
    }
    if next < len {
      MergeUnfold(ranges[next..len], cur);
    }
  }

  /** Merge overlapping and touching ranges of a sorted array; the result occupies the front. */
  method MergeAdjacent(ranges: array<Range>, len: nat) returns (newLen: nat)
    requires len <= ranges.Length
    modifies ranges
    ensures newLen <= len
    ensures ranges[..newLen] == Merge(old(ranges[..len]))
  {
    if len == 0 {
      return 0;
    }
    ghost var all := Merge(ranges[..len]);
    assert ranges[0..len] == ranges[..len];
    var out, i := 0, 0;
    while i < len
      invariant out <= i <= len
      invariant all == ranges[..out] + Merge(ranges[i..len])
    {
      ghost var a := ranges[..];
      var cur, next := MergeRun(ranges, i, len);
      ranges[out] := cur;
      assert ranges[..] == a[out := cur];
      StoreFront(a, out, cur, next, len);
      out, i := out + 1, next;
    }
    return out;
  }

  /** Storing the next finished range neither disturbs those before it nor the entries still to come. */
  lemma StoreFront(a: seq<Range>, out: nat, cur: Range, next: nat, len: nat)
    requires out < next <= len <= |a|
    ensures a[out := cur][..out + 1] + Merge(a[out := cur][next..len]) ==
            a[..out] + ([cur] + Merge(a[next..len]))
  {
    assert a[out := cur][next..len] == a[next..len];
    assert a[out := cur][..out + 1] == a[..out] + [cur];
  }

  lemma Store(a: seq<Range>, i: nat, r: Range, len: nat)
    requires i < len <= |a|
    ensures a[i := r][..len] == a[..i] + [r] + a[i + 1..len]
  {
  }

  /** Close the hole at index i. */
  method RemoveAt(ranges: array<Range>, i: nat, len: nat)
    requires i < len <= ranges.Length
    modifies ranges
    ensures ranges[..len - 1] == old(ranges[..i]) + old(ranges[i + 1..len])
    ensures ranges[len - 1..] == old(ranges[len - 1..])
  {
    ghost var s := ranges[..];
    var j := i + 1;
    while j < len
      invariant i + 1 <= j <= len
      invariant ranges[..i] == s[..i]
      invariant ranges[i..j - 1] == s[i + 1..j]
      invariant ranges[j..] == s[j..] && ranges[len - 1..] == s[len - 1..]
    {
      ranges[j - 1] := ranges[j];
      assert ranges[i..j] == ranges[i..j - 1] + [s[j]];
      j := j + 1;
    }
    assert ranges[..len - 1] == ranges[..i] + ranges[i..len - 1];
  }

  /** Shift the tail up by one and store r at index i. */
  method InsertAt(ranges: array<Range>, i: nat, len: nat, r: Range)
    requires i <= len < ranges.Length
    modifies ranges
    ensures ranges[..len + 1] == old(ranges[..i]) + [r] + old(ranges[i..len])
  {
    ghost var s := ranges[..];
    var j := len;
    while j > i
      invariant i <= j <= len
      invariant ranges[..j] == s[..j]
      invariant ranges[j + 1..len + 1] == s[j..len]
    {
      ranges[j] := ranges[j - 1];
      j := j - 1;
      assert ranges[j + 1..len + 1] == [s[j]] + ranges[j + 2..len + 1];
    }
    ranges[i] := r;
    assert ranges[..len + 1] == ranges[..i] + [r] + ranges[i + 1..len + 1];
  }

  /** Entry i replaced by what is left of it. */
  function Carved(t: seq<Range>, i: nat, b: int, e: int): seq<Range>
    requires i < |t|
  {
    t[..i] + Pieces(t[i], b, e) + t[i + 1..]
  }

  lemma CarvedPrefix(a: seq<Range>, i: nat, len: nat, b: int, e: int)
    requires i < len <= |a|
    ensures Carved(a[..len], i, b, e) == a[..i] + Pieces(a[i], b, e) + a[i + 1..len]
  {
  }

  /** One turn of the subtraction loop. */
  method CarveEntry(ranges: array<Range>, i: nat, len: nat, resBase: int, resEnd: int)
    returns (ok: bool, newI: nat, newLen: nat)
    requires i < len <= ranges.Length && resBase < resEnd
    modifies ranges
    ensures var r := old(ranges[i]);
            if len == ranges.Length && Splits(r, resBase, resEnd) then
              !ok && newLen == len && ranges[..] == old(ranges[..])
            else
              && ok && newI == i + |Pieces(r, resBase, resEnd)| && newLen - newI == len - i - 1
              && newLen <= ranges.Length && ranges[..newLen] == Carved(old(ranges[..len]), i, resBase, resEnd)
  {
    ghost var before := ranges[..];
    CarvedPrefix(before, i, len, resBase, resEnd);
    assert before[..len] == ranges[..len];
    var r := ranges[i];
    ok, newI, newLen := true, i + 1, len;
    if !Overlaps(r, resBase, resEnd) {
      assert before == before[i := r];
      Store(before, i, r, len);
    } else if resBase <= r.base && resEnd >= r.end {
      RemoveAt(ranges, i, len);
      newI, newLen := i, len - 1;
    } else if resBase <= r.base && resEnd < r.end {
      ranges[i] := Range(resEnd, r.end);
      assert ranges[..] == before[i := ranges[i]];
      Store(before, i, ranges[i], len);
    } else if resBase > r.base && resEnd >= r.end {
      ranges[i] := Range(r.base, resBase);
      assert ranges[..] == before[i := ranges[i]];
      Store(before, i, ranges[i], len);
    } else if len >= ranges.Length {
      ok := false;
    } else {
      SplitEntry(ranges, i, len, Range(r.base, resBase), Range(resEnd, r.end));
      newI, newLen := i + 2, len + 1;
    }
  }

  /** Overwrite entry i with the left piece and insert the right piece after it. */
  method SplitEntry(ranges: array<Range>, i: nat, len: nat, left: Range, right: Range)
    requires i < len < ranges.Length
    modifies ranges
    ensures ranges[..len + 1] == old(ranges[..i]) + [left, right] + old(ranges[i + 1..len])
  {
    ghost var before := ranges[..];
    ranges[i] := left;
    assert ranges[..i + 1] == before[..i] + [left];
    assert ranges[i + 1..len] == before[i + 1..len];
    InsertAt(ranges, i + 1, len, right);
  }

  /** The first i entries of t are what is left of the first k entries of s; the rest is untouched. */
  ghost predicate Progress(t: seq<Range>, s: seq<Range>, k: nat, i: int, b: int, e: int)
    requires k <= |s|
  {
    t == Subtract(s[..k], b, e) + s[k..] && i == |Subtract(s[..k], b, e)|
  }

  lemma ProgressStart(s: seq<Range>, b: int, e: int)
    ensures Progress(s, s, 0, 0, b, e)
  {
    assert s[..0] == [] && s[0..] == s;
  }

  lemma ProgressAt(t: seq<Range>, s: seq<Range>, k: nat, i: int, b: int, e: int)
    requires Canonical(s) && b < e && k < |s| && Progress(t, s, k, i, b, e)
    ensures 0 <= i < |t| && t[i] == s[k] && |t| - i == |s| - k
    ensures Splits(s[k], b, e) ==> t == s
  {
    if Splits(s[k], b, e) {
      SubtractDisjoint(s[..k], b, e);
      assert s == s[..k] + s[k..];
    }
  }

  lemma ProgressStep(t: seq<Range>, s: seq<Range>, k: nat, i: nat, t': seq<Range>, b: int, e: int)
    requires k < |s| && Progress(t, s, k, i, b, e)
    requires i < |t| && t' == Carved(t, i, b, e)
    ensures Progress(t', s, k + 1, i + |Pieces(t[i], b, e)|, b, e)
  {
    assert s[..k + 1][..k] == s[..k];
    assert t[i] == s[k] && t[..i] == Subtract(s[..k], b, e) && t[i + 1..] == s[k + 1..];
  }

  lemma ProgressDone(t: seq<Range>, s: seq<Range>, i: int, b: int, e: int)
    requires Canonical(s) && b < e && Progress(t, s, |s|, i, b, e)
    ensures t == Subtract(s, b, e)
    ensures SplitsOne(s, b, e) ==> |t| == |s| + 1
  {
    assert s[..|s|] == s && s[|s|..] == [];
    forall m | 0 <= m < |s| && Splits(s[m], b, e) ensures |t| == |s| + 1 {
      SplitGrows(s, m, b, e);
    }
  }

  lemma SplitGrows(s: seq<Range>, m: nat, b: int, e: int)
    requires Canonical(s) && b < e && m < |s| && Splits(s[m], b, e)
    ensures |Subtract(s, b, e)| == |s| + 1
  {
    var lo, hi := s[..m], s[m + 1..];
    assert s == (lo + [s[m]]) + hi;
    SubtractConcat(lo + [s[m]], hi, b, e);
    SubtractConcat(lo, [s[m]], b, e);
    SubtractDisjoint(lo, b, e);
    SubtractDisjoint(hi, b, e);
    assert [s[m]][..0] == [];
  }

  /** One turn of the loop, seen from the whole: one more entry of s is dealt with. */
  method CarveNext(ranges: array<Range>, ghost s: seq<Range>, ghost k: nat, i: nat, len: nat, resBase: int, resEnd: int)
    returns (ok: bool, newI: nat, newLen: nat)
    requires len <= ranges.Length && Canonical(s) && resBase < resEnd && k < |s| && i < len
    requires Progress(ranges[..len], s, k, i, resBase, resEnd)
    modifies ranges
    ensures !ok ==> len == ranges.Length && SplitsOne(s, resBase, resEnd) && newLen == len && ranges[..len] == s
    ensures ok ==> newLen <= ranges.Length && newLen - newI == |s| - k - 1
    ensures ok ==> Progress(ranges[..newLen], s, k + 1, newI, resBase, resEnd)
  {
    hide Progress, Canonical, Pieces, Carved;
    ghost var t := ranges[..len];
    ProgressAt(t, s, k, i, resBase, resEnd);
    assert ranges[i] == t[i];
    ok, newI, newLen := CarveEntry(ranges, i, len, resBase, resEnd);
    if ok {
      ProgressStep(t, s, k, i, ranges[..newLen], resBase, resEnd);
    } else {
      assert ranges[..len] == t;
    }
  }

  /** Set difference in place. It fails exactly where the array is full and the reserved interval
      lies strictly inside a range, and then nothing has been touched. */
  method SubtractReserved(ranges: array<Range>, len: nat, resBase: int, resEnd: int) returns (ok: bool, newLen: nat)
    requires len <= ranges.Length && Canonical(ranges[..len]) && resBase < resEnd
    modifies ranges
    ensures ok <==> !(len == ranges.Length && SplitsOne(old(ranges[..len]), resBase, resEnd))
    ensures newLen <= ranges.Length
    ensures ok ==> ranges[..newLen] == Subtract(old(ranges[..len]), resBase, resEnd)
    ensures !ok ==> newLen == len && ranges[..len] == old(ranges[..len])
  {
    hide *;
    ghost var s := ranges[..len];
    ProgressStart(s, resBase, resEnd);
    var i := 0;
    newLen := len;
    ok := true;
    ghost var k := 0;  // entries of s already dealt with
    while i < newLen
      invariant 0 <= k <= |s| && 0 <= i <= newLen <= ranges.Length
      invariant newLen - i == |s| - k
      invariant Progress(ranges[..newLen], s, k, i, resBase, resEnd)
      decreases newLen - i
    {
      ok, i, newLen := CarveNext(ranges, s, k, i, newLen, resBase, resEnd);
      if !ok {
        return false, newLen;
      }
      k := k + 1;
    }
    ProgressDone(ranges[..newLen], s, i, resBase, resEnd);
    ok := true;
  }

  class Manager {
    var ready: bool
    var ranges: array<Range>
    var len: nat
    var cursor: nat

    ghost predicate Valid()
      reads this, ranges
    {
      len <= ranges.Length && GoodBlocks(ranges[..len])
    }

    ghost function View(): Pool
      requires len <= ranges.Length
      reads this, ranges
    {
      Pool(ranges[..len], cursor)
    }

    constructor ()
      ensures !ready && Valid() && fresh(ranges)
    {
      ready, ranges, len, cursor := false, new Range[0], 0, 0;
    }

    method Init(regions: seq<MemoryRegion>) returns (result: InitResult)
      requires Valid()
      modifies this
      ensures Tells(result, InitOutcome(regions))
      ensures !result.Ok? ==> ready == old(ready) && ranges == old(ranges) && len == old(len) && cursor == old(cursor)
      ensures result.Ok? ==>
                && ready && Valid() && fresh(ranges) && AllRepresentable(regions) && FreeList(regions).Some?
                && View() == Pool(FreeList(regions).value, 0)
                && result.stats == Stats(UsableBytes(regions), Size(ranges[..len]), len)
    {
      hide FreeList, Size, UsableBytes, AllRepresentable, InitOutcome;
      var work := new Range[MAX_RANGES](_ => Range(0, 0));
      result := BuildFreeList(regions, work);
      if result.Ok? {
        FreeListGood(regions);
        ready, ranges, len, cursor := true, work, result.stats.rangeCount, 0;
      }
    }

    /** The pages at the front of the first range from the cursor on that is large enough. */
    method AllocPages(pages: u64) returns (got: Option<u64>)
      requires Valid()
      modifies this`cursor, ranges
      ensures Valid() && ranges == old(ranges) && len == old(len)
      ensures !ready ==> got.None? && View() == old(View())
      ensures ready ==> (View(), got) == Take(old(View()), pages)
    {
      got := None;
      hide GoodBlocks, Granted;
      if pages > 0 && ready {
        ghost var st := View();
        TakeCorrect(st, pages);
        while cursor < len && got.None?
          invariant len == |st.ranges| <= ranges.Length
          invariant got.None? ==> ranges[..len] == st.ranges && Take(st.(cursor := cursor), pages) == Take(st, pages)
          invariant got.Some? ==> (View(), got) == Take(st, pages)
          decreases if got.None? then len - cursor else -1
        {
          var r := ranges[cursor];
          assert r == st.ranges[cursor];
          var need := SaturatingMul(pages, PAGE_SIZE);
          if r.base >= r.end || r.end - r.base < need {
            cursor := cursor + 1;
          } else {
            ghost var after := CutFront(st.(cursor := cursor), need);
            assert Take(st, pages) == (after, Some(r.base));
            ranges[cursor] := Range(r.base + need, r.end);
            assert ranges[..len] == after.ranges;
            if r.base + need >= r.end {
              cursor := cursor + 1;
            }
            got := Some(r.base);
          }
        }
      }
    }
  }

  /** Round a usable region inward; None is the overflow panic. */
  method RoundInward(r: MemoryRegion) returns (span: Option<Range>)
    requires r.kind == USABLE
    ensures span.None? <==> !Representable(r)
    ensures span.Some? ==> span.value == Span(r)
  {
    var base := PageUp(r.base);
    if base.None? {
      return None;
    }
    return Some(Range(base.value, PageDown(SaturatingAdd(r.base, r.len))));
  }

  lemma {:induction false} CollectNext(regions: seq<MemoryRegion>, i: nat)
    requires i < |regions| && UsableRepresentable(regions[..i + 1])
    ensures UsableRepresentable(regions[..i])
    ensures Collect(regions[..i + 1]) ==
              Collect(regions[..i]) +
              if regions[i].kind == USABLE && Span(regions[i]).base < Span(regions[i]).end then [Span(regions[i])] else []
    ensures UsableBytes(regions[..i + 1]) ==
              if regions[i].kind == USABLE && Span(regions[i]).base < Span(regions[i]).end
              then SaturatingAdd(UsableBytes(regions[..i]), Span(regions[i]).end - Span(regions[i]).base)
              else UsableBytes(regions[..i])
  {
    assert regions[..i + 1][..i] == regions[..i];
  }

  lemma NothingCollected()
    ensures CollectOutcome([]).Fine? && UsableRepresentable([]) && Collect([]) == [] && UsableBytes([]) == 0
  {
  }

  lemma CollectFollows(regions: seq<MemoryRegion>, i: nat)
    requires i < |regions| && CollectOutcome(regions[..i]).Fine?
    ensures var (o, r) := (CollectOutcome(regions[..i + 1]), regions[i]);
            if r.kind == USABLE && !Representable(r) then o == Overflowed
            else
              && UsableRepresentable(regions[..i + 1])
              && o == if r.kind == USABLE && Span(r).base < Span(r).end && |Collect(regions[..i])| == MAX_RANGES then Failed
                      else Fine
  {
    assert regions[..i + 1][..i] == regions[..i];
  }

  /** Store r behind the first len entries. */
  method Append(work: array<Range>, len: nat, r: Range)
    requires len < work.Length
    modifies work
    ensures work[..len + 1] == old(work[..len]) + [r]
  {
    work[len] := r;
  }

  predicate Tells(result: InitResult, o: Outcome) {
    (result.Ok? <==> o.Fine?) && (result.Err? <==> o.Failed?) && (result.Panic? <==> o.Overflowed?)
  }

  /** First pass over the memory map: the usable spans, in map order. */
  method CollectUsable(regions: seq<MemoryRegion>, work: array<Range>) returns (result: InitResult)
    requires work.Length == MAX_RANGES
    modifies work
    ensures Tells(result, CollectOutcome(regions))
    ensures result.Ok? ==>
              && UsableRepresentable(regions) && result.stats.rangeCount == |Collect(regions)| <= MAX_RANGES
              && work[..result.stats.rangeCount] == Collect(regions)
              && result.stats.usableBytes == UsableBytes(regions)
  {
    hide CollectOutcome, Collect, UsableBytes, UsableRepresentable;
    var len, usableBytes: u64 := 0, 0;
    NothingCollected();
    assert regions[..0] == [];
    for i := 0 to |regions|
      invariant len <= MAX_RANGES
      invariant CollectOutcome(regions[..i]).Fine?
      invariant work[..len] == Collect(regions[..i]) && usableBytes == UsableBytes(regions[..i])
    {
      CollectFollows(regions, i);
      if regions[i].kind == USABLE {
        var span := RoundInward(regions[i]);
        if span.None? {
          CollectStuck(regions, i + 1);
          return Panic;
        }
        CollectNext(regions, i);
        var r := span.value;
        if r.base < r.end {
          usableBytes := SaturatingAdd(usableBytes, r.end - r.base);
          if len >= work.Length {
            CollectStuck(regions, i + 1);
            return Err;
          }
          Append(work, len, r);
          len := len + 1;
        }
      } else {
        CollectNext(regions, i);
      }
    }
    assert regions[..|regions|] == regions;
    return Ok(Stats(usableBytes, 0, len));
  }

  /** Carve out one region. */
  method CarveOut(r: MemoryRegion, work: array<Range>, len: nat) returns (result: InitResult, newLen: nat)
    requires work.Length == MAX_RANGES && len <= MAX_RANGES && GoodList(work[..len])
    requires r.kind == USABLE ==> Representable(r)
    modifies work
    ensures newLen <= MAX_RANGES
    ensures result.Panic? <==> !Representable(r)
    ensures result.Err? ==> Representable(r) && CarveRegion(old(work[..len]), r).None?
    ensures result.Ok? ==> GoodList(work[..newLen]) && CarveRegion(old(work[..len]), r) == Some(work[..newLen])
  {
    newLen := len;
    if r.kind == USABLE || r.len == 0 {
      return Ok(Stats(0, 0, len)), len;
    }
    var resBase := PageDown(r.base);
    var resEnd := PageUp(SaturatingAdd(r.base, r.len));
    if resEnd.None? {
      return Panic, len;
    }
    if resBase < resEnd.value {
      SubtractGood(work[..len], resBase, resEnd.value);
      var ok;
      ok, newLen := SubtractReserved(work, len, resBase, resEnd.value);
      if !ok {
        return Err, newLen;
      }
    }
    return Ok(Stats(0, 0, newLen)), newLen;
  }

  /** Second pass over the memory map: carve out every region of another kind. */
  method CarveReserved(regions: seq<MemoryRegion>, work: array<Range>, len: nat)
    returns (result: InitResult, newLen: nat)
    requires work.Length == MAX_RANGES && len <= MAX_RANGES && GoodList(work[..len])
    requires UsableRepresentable(regions)
    modifies work
    ensures newLen <= MAX_RANGES
    ensures Tells(result, CarveOutcome(old(work[..len]), regions))
    ensures result.Ok? ==> AllRepresentable(regions) && GoodList(work[..newLen])
    ensures result.Ok? ==> Carve(old(work[..len]), regions) == Some(work[..newLen])
  {
    hide GoodList, CarveRegion, CarveOne, Representable, Covers;
    ghost var s := work[..len];
    newLen := len;
    for i := 0 to |regions|
      invariant newLen <= MAX_RANGES && GoodList(work[..newLen])
      invariant AllRepresentable(regions[..i])
      invariant Carve(s, regions[..i]) == Some(work[..newLen])
    {
      assert regions[..i + 1][..i] == regions[..i];
      result, newLen := CarveOut(regions[i], work, newLen);
      if !result.Ok? {
        CarveStuck(s, regions, i + 1);
        return;
      }
    }
    assert regions[..|regions|] == regions;
    return Ok(Stats(0, 0, newLen)), newLen;
  }

  /** The compaction pass finds nothing to drop, and the saturating sum of sizes is the true sum. */
  method DropEmptyAndSum(work: array<Range>, len: nat) returns (count: nat, freeBytes: u64)
    requires len <= work.Length && GoodList(work[..len])
    modifies work
    ensures count == len && work[..] == old(work[..])
    ensures freeBytes == Size(work[..len])
  {
    ghost var s := work[..];
    count := 0;
    for i := 0 to len
      invariant count == i && work[..] == s
    {
      assert work[i] == s[..len][i];
      if work[i].end > work[i].base {
        work[count] := work[i];
        count := count + 1;
      }
    }
    freeBytes := 0;
    for i := 0 to len
      invariant work[..] == s && freeBytes == Size(work[..i])
    {
      assert work[..i + 1][..i] == work[..i];
      CanonicalSize(work[..i + 1], 0, TWO_64 - PAGE_SIZE);
      freeBytes := SaturatingAdd(freeBytes, work[i].end - work[i].base);
    }
  }

  /** All passes in order, on a scratch array of MAX_RANGES entries. */
  method BuildFreeList(regions: seq<MemoryRegion>, work: array<Range>) returns (result: InitResult)
    requires work.Length == MAX_RANGES
    modifies work
    ensures Tells(result, InitOutcome(regions))
    ensures result.Ok? ==>
              && AllRepresentable(regions) && FreeList(regions).Some?
              && result.stats.rangeCount <= MAX_RANGES
              && work[..result.stats.rangeCount] == FreeList(regions).value
              && result.stats.usableBytes == UsableBytes(regions)
              && result.stats.freeBytes == Size(FreeList(regions).value)
  {
    hide Collect, Carve, Sort, Merge, Size, Subtract, UsableBytes, GoodList, SortedByBase;
    var collected := CollectUsable(regions, work);
    if !collected.Ok? {
      return collected;
    }
    var n := collected.stats.rangeCount;
    if n == 0 {
      return Err;
    }
    CollectCorrect(regions);
    MergedGood(Collect(regions));
    SortByBase(work, n);
    var m := MergeAdjacent(work, n);
    var carved, m' := CarveReserved(regions, work, m);
    if !carved.Ok? {
      return carved;
    }
    SubtractGood(work[..m'], 0, ONE_MIB);
    GoodIsCanonical(work[..m']);
    var ok, m'' := SubtractReserved(work, m', 0, ONE_MIB);
    if !ok {
      return Err;
    }
    var count, freeBytes := DropEmptyAndSum(work, m'');
    if count == 0 {
      return Err;
    }
    return Ok(Stats(collected.stats.usableBytes, freeBytes, count));
  }
}
