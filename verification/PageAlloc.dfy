/** Handing out pages from the free list: one request, and every run of requests. */
module PageAlloc {
  import opened Words
  import opened Ranges

  /** ranges as they are now (bases advance), and the index of the first range still in use. */
  datatype Pool = Pool(ranges: seq<Range>, cursor: nat)

  function Take(st: Pool, pages: u64): (r: (Pool, Option<u64>))
    requires GoodBlocks(st.ranges)
    decreases |st.ranges| - st.cursor
  {
    if pages == 0 || st.cursor >= |st.ranges| then (st, None)
    else
      var r, need := st.ranges[st.cursor], SaturatingMul(pages, PAGE_SIZE);
      if r.base >= r.end || r.end - r.base < need then Take(st.(cursor := st.cursor + 1), pages)
      else (CutFront(st, need), Some(r.base))
  }

  /** Cut need bytes off the current range and step past it when nothing is left. */
  function CutFront(st: Pool, need: int): (r: Pool)
    requires st.cursor < |st.ranges|
    ensures |r.ranges| == |st.ranges|
  {
    var r := st.ranges[st.cursor];
    var rest := Range(r.base + need, r.end);
    Pool(st.ranges[st.cursor := rest], if rest.base >= rest.end then st.cursor + 1 else st.cursor)
  }

  /** The free list while it is being used up: ranges may have become empty. */
  ghost predicate GoodBlocks(s: seq<Range>) {
    && Aligned(s) && Within(s, 0, TWO_64 - PAGE_SIZE)
    && (forall i :: 0 <= i < |s| ==> s[i].base <= s[i].end)
    && forall i, j :: 0 <= i < j < |s| ==> s[i].end <= s[j].base
  }

  /** Lower bound of everything that can still be handed out. */
  function Frontier(st: Pool): int {
    if st.cursor < |st.ranges| then st.ranges[st.cursor].base else TWO_64
  }

  lemma {:induction false} SizeUpdate(s: seq<Range>, i: nat, r: Range)
    requires i < |s|
    ensures Size(s[i := r]) == Size(s) - (s[i].end - s[i].base) + (r.end - r.base)
  {
    if i < |s| - 1 {
      SizeUpdate(s[..|s| - 1], i, r);
      assert s[i := r][..|s| - 1] == s[..|s| - 1][i := r];
    } else {
      assert s[i := r][..|s| - 1] == s[..|s| - 1];
    }
  }

  /** What a successful request for this many bytes at block p means. */
  ghost predicate Granted(st: Pool, st': Pool, p: int, bytes: int) {
    && bytes > 0 && p % PAGE_SIZE == 0
    && Frontier(st) <= p && p + bytes <= Frontier(st')
    && Size(st'.ranges) == Size(st.ranges) - bytes
    && (forall x :: p <= x < p + bytes ==> Covers(st.ranges, x))
    && forall x :: Covers(st'.ranges, x) <==> Covers(st.ranges, x) && !(p <= x < p + bytes)
  }

  lemma FrontierRises(st: Pool, k: nat)
    requires GoodBlocks(st.ranges) && st.cursor <= k
    ensures Frontier(st) <= Frontier(st.(cursor := k))
  {
  }

  lemma UpdateGood(s: seq<Range>, k: nat, r: Range)
    requires GoodBlocks(s) && k < |s|
    requires s[k].base <= r.base <= r.end == s[k].end && r.base % PAGE_SIZE == 0
    ensures GoodBlocks(s[k := r])
  {
  }

  lemma CutFrontGrants(st: Pool, need: int)
    requires GoodBlocks(st.ranges) && st.cursor < |st.ranges|
    requires var r := st.ranges[st.cursor]; 0 < need <= r.end - r.base && need % PAGE_SIZE == 0
    ensures GoodBlocks(CutFront(st, need).ranges) && st.cursor <= CutFront(st, need).cursor
    ensures Granted(st, CutFront(st, need), st.ranges[st.cursor].base, need)
  {
    hide Covers, Size;
    var r := st.ranges[st.cursor];
    var rest := Range(r.base + need, r.end);
    var st' := CutFront(st, need);
    UpdateGood(st.ranges, st.cursor, rest);
    SizeUpdate(st.ranges, st.cursor, rest);
    forall x ensures r.base <= x < r.base + need ==> Covers(st.ranges, x)
             ensures Covers(st'.ranges, x) <==> Covers(st.ranges, x) && !(r.base <= x < r.base + need)
    {
      UpdateCovers(st.ranges, st.cursor, rest, x);
    }
  }

  /** One request. On success the block is page-aligned, was free, is free no more, and nothing
      else changed; on failure no free byte was lost but the allocator is exhausted. */
  lemma {:induction false} TakeCorrect(st: Pool, pages: u64)
    requires GoodBlocks(st.ranges)
    ensures var (st', got) := Take(st, pages);
            && GoodBlocks(st'.ranges) && |st'.ranges| == |st.ranges| && st.cursor <= st'.cursor
            && (got.None? ==> st'.ranges == st.ranges && (pages > 0 ==> st'.cursor >= |st.ranges|))
            && (got.Some? ==> Granted(st, st', got.value, pages * PAGE_SIZE))
    decreases |st.ranges| - st.cursor
  {
    if pages > 0 && st.cursor < |st.ranges| {
      var r := st.ranges[st.cursor];
      if r.base >= r.end || r.end - r.base < SaturatingMul(pages, PAGE_SIZE) {
        FrontierRises(st, st.cursor + 1);
        TakeCorrect(st.(cursor := st.cursor + 1), pages);
      } else {
        assert SaturatingMul(pages, PAGE_SIZE) == pages * PAGE_SIZE;
        CutFrontGrants(st, pages * PAGE_SIZE);
      }
    }
  }

  lemma UpdateCovers(s: seq<Range>, k: nat, r: Range, x: int)
    requires GoodBlocks(s) && k < |s| && s[k].base <= r.base <= r.end == s[k].end
    ensures s[k].base <= x < r.base ==> Covers(s, x)
    ensures Covers(s[k := r], x) <==> Covers(s, x) && !(s[k].base <= x < r.base)
  {
    var t := s[k := r];
    if Covers(s, x) {
      var i :| 0 <= i < |s| && s[i].base <= x < s[i].end;
      assert i != k ==> t[i] == s[i];
      assert t[k] == r;
    }
    if Covers(t, x) {
      var i :| 0 <= i < |t| && t[i].base <= x < t[i].end;
      assert i < k ==> s[i].end <= s[k].base;
      assert i > k ==> s[k].end <= s[i].base;
    }
  }

  /** A request succeeds exactly when some range from the cursor on is large enough by itself. */
  lemma {:induction false} TakeSucceedsIff(st: Pool, pages: u64)
    requires GoodBlocks(st.ranges) && pages > 0
    ensures Take(st, pages).1.Some? <==>
            exists i :: st.cursor <= i < |st.ranges| && st.ranges[i].end - st.ranges[i].base >= pages * PAGE_SIZE
    decreases |st.ranges| - st.cursor
  {
    if st.cursor < |st.ranges| {
      var r, need := st.ranges[st.cursor], SaturatingMul(pages, PAGE_SIZE);
      assert r.end - r.base < need <==> r.end - r.base < pages * PAGE_SIZE;
      if r.base >= r.end || r.end - r.base < need {
        TakeSucceedsIff(st.(cursor := st.cursor + 1), pages);
      }
    }
  }

  // ---- every run of requests ----

  function Serve(st: Pool, requests: seq<u64>): (r: (Pool, seq<Option<u64>>))
    requires GoodBlocks(st.ranges)
    ensures GoodBlocks(r.0.ranges) && |r.1| == |requests|
  {
    if requests == [] then (st, [])
    else
      var (mid, got) := Serve(st, requests[..|requests| - 1]);
      TakeCorrect(mid, requests[|requests| - 1]);
      var (st', last) := Take(mid, requests[|requests| - 1]);
      (st', got + [last])
  }

  /** x belongs to the i-th block handed out. */
  predicate InBlock(requests: seq<u64>, got: seq<Option<u64>>, i: int, x: int)
    requires |requests| == |got|
  {
    0 <= i < |got| && got[i].Some? && got[i].value <= x < got[i].value + requests[i] * PAGE_SIZE
  }

  function HandedOut(requests: seq<u64>, got: seq<Option<u64>>): int
    requires |requests| == |got|
  {
    if requests == [] then 0
    else
      var n := |requests| - 1;
      HandedOut(requests[..n], got[..n]) + if got[n].Some? then requests[n] * PAGE_SIZE else 0
  }

  /** Over every run: blocks are page-aligned and rise, each starting at or after the end of all
      earlier ones. */
  lemma {:induction false} BlocksRise(st: Pool, requests: seq<u64>)
    requires GoodBlocks(st.ranges)
    ensures var (st', got) := Serve(st, requests);
            && Frontier(st) <= Frontier(st')
            && (forall i :: 0 <= i < |got| && got[i].Some? ==>
                  && got[i].value % PAGE_SIZE == 0 && Frontier(st) <= got[i].value
                  && got[i].value + requests[i] * PAGE_SIZE <= Frontier(st'))
            && (forall i, j :: 0 <= i < j < |got| && got[i].Some? && got[j].Some? ==>
                  got[i].value + requests[i] * PAGE_SIZE <= got[j].value)
  {
    if requests != [] {
      var n := |requests| - 1;
      BlocksRise(st, requests[..n]);
      var (mid, got) := Serve(st, requests[..n]);
      TakeCorrect(mid, requests[n]);
      var st' := Take(mid, requests[n]).0;
      assert Frontier(mid) <= Frontier(st') by {
        if Take(mid, requests[n]).1.None? {
          FrontierRises(mid, st'.cursor);
          assert st' == mid.(cursor := st'.cursor);
        }
      }
    }
  }

  /** Over every run: an address was free at the start exactly when it is free now or lies in a
      block handed out, and never both. */
  lemma {:induction false} BlocksPartition(st: Pool, requests: seq<u64>, x: int)
    requires GoodBlocks(st.ranges)
    ensures var (st', got) := Serve(st, requests);
            && (Covers(st.ranges, x) <==> Covers(st'.ranges, x) || exists i :: InBlock(requests, got, i, x))
            && !(Covers(st'.ranges, x) && exists i :: InBlock(requests, got, i, x))
  {
    if requests != [] {
      var n := |requests| - 1;
      BlocksPartition(st, requests[..n], x);
      var (mid, got) := Serve(st, requests[..n]);
      TakeCorrect(mid, requests[n]);
      var (st', all) := Serve(st, requests);
      assert forall i :: i < n ==> (InBlock(requests, all, i, x) <==> InBlock(requests[..n], got, i, x));
      assert (exists i :: InBlock(requests, all, i, x)) <==>
             (exists i :: InBlock(requests[..n], got, i, x)) || InBlock(requests, all, n, x) by {
        if i :| InBlock(requests[..n], got, i, x) {
          assert InBlock(requests, all, i, x);
        }
      }
    }
  }

  /** Over every run: bytes handed out plus bytes still listed, skipped ranges included, is constant. */
  lemma {:induction false} BytesConserved(st: Pool, requests: seq<u64>)
    requires GoodBlocks(st.ranges)
    ensures var (st', got) := Serve(st, requests);
            HandedOut(requests, got) + Size(st'.ranges) == Size(st.ranges)
  {
    if requests != [] {
      var n := |requests| - 1;
      BytesConserved(st, requests[..n]);
      var (mid, got) := Serve(st, requests[..n]);
      TakeCorrect(mid, requests[n]);
      assert Serve(st, requests).1[..n] == got;
    }
  }

  lemma ExhaustedForGood(st: Pool, pages: u64)
    requires GoodBlocks(st.ranges) && st.cursor >= |st.ranges|
    ensures Take(st, pages) == (st, None)
  {
  }

  /** Over every run: once a request for at least one page fails, every later request fails. */
  lemma {:induction false} FailureIsPermanent(st: Pool, requests: seq<u64>, i: nat, j: nat)
    requires GoodBlocks(st.ranges)
    requires i < j < |requests| && requests[i] > 0
    requires Serve(st, requests).1[i].None?
    ensures Serve(st, requests).1[j].None?
    ensures Serve(st, requests).0.cursor >= |st.ranges| == |Serve(st, requests).0.ranges|
  {
    var n := |requests| - 1;
    var (mid, got) := Serve(st, requests[..n]);
    assert got == Serve(st, requests).1[..n];
    if i == n - 1 {
      FailedNow(st, requests[..n]);
    } else if j < n {
      FailureIsPermanent(st, requests[..n], i, j);
    } else {
      FailureIsPermanent(st, requests[..n], i, n - 1);
    }
  }

  lemma {:induction false} FailedNow(st: Pool, requests: seq<u64>)
    requires GoodBlocks(st.ranges) && requests != [] && requests[|requests| - 1] > 0
    requires Serve(st, requests).1[|requests| - 1].None?
    ensures Serve(st, requests).0.cursor >= |st.ranges| == |Serve(st, requests).0.ranges|
  {
    SameLength(st, requests[..|requests| - 1]);
    TakeCorrect(Serve(st, requests[..|requests| - 1]).0, requests[|requests| - 1]);
  }

  lemma {:induction false} SameLength(st: Pool, requests: seq<u64>)
    requires GoodBlocks(st.ranges)
    ensures |Serve(st, requests).0.ranges| == |st.ranges|
  {
    if requests != [] {
      SameLength(st, requests[..|requests| - 1]);
      TakeCorrect(Serve(st, requests[..|requests| - 1]).0, requests[|requests| - 1]);
    }
  }

  // ---- nothing is passed over ----

  /** What can still be handed out: the ranges from the cursor on. */
  function Rest(st: Pool): seq<Range> { if st.cursor <= |st.ranges| then st.ranges[st.cursor..] else [] }

  /** A request is served from the front of the first range i that is large enough. The next one is served right behind it
      iff so much of that range is left, and otherwise as from the ranges after it. */
  lemma {:induction false} NextBehind(st: Pool, pages: u64, more: u64) returns (i: nat)
    requires GoodBlocks(st.ranges) && Take(st, pages).1.Some? && more > 0
    ensures st.cursor <= i < |st.ranges| && Take(st, pages).1 == Some(st.ranges[i].base)
    ensures pages * PAGE_SIZE <= st.ranges[i].end - st.ranges[i].base
    ensures forall k :: st.cursor <= k < i ==> st.ranges[k].end - st.ranges[k].base < pages * PAGE_SIZE
    ensures GoodBlocks(Take(st, pages).0.ranges)
    ensures var next := st.ranges[i].base + pages * PAGE_SIZE;
            Take(Take(st, pages).0, more).1 ==
              if next + more * PAGE_SIZE <= st.ranges[i].end then Some(next) else Take(st.(cursor := i + 1), more).1
    decreases |st.ranges| - st.cursor
  {
    hide GoodBlocks, Granted, SaturatingMul, CutFront;
    TakeCorrect(st, pages);
    var r := st.ranges[st.cursor];
    FitsIff(st, st.cursor, pages);
    if r.base >= r.end || r.end - r.base < SaturatingMul(pages, PAGE_SIZE) {
      i := NextBehind(st.(cursor := st.cursor + 1), pages, more);
    } else {
      i := st.cursor;
      CutParts(st, pages * PAGE_SIZE);
      AsIfCut(CutFront(st, pages * PAGE_SIZE), st.(cursor := i + 1), more);
    }
  }

  /** Only the ranges from the cursor on matter. */
  lemma {:induction false} SameRest(a: Pool, b: Pool, pages: u64)
    requires GoodBlocks(a.ranges) && GoodBlocks(b.ranges) && Rest(a) == Rest(b)
    ensures Take(a, pages).1 == Take(b, pages).1
    decreases |a.ranges| - a.cursor
  {
    if pages > 0 && a.cursor < |a.ranges| && b.cursor < |b.ranges| {
      assert a.ranges[a.cursor] == Rest(a)[0] == Rest(b)[0] == b.ranges[b.cursor];
      assert Rest(a.(cursor := a.cursor + 1)) == Rest(a)[1..] == Rest(b)[1..] == Rest(b.(cursor := b.cursor + 1));
      SameRest(a.(cursor := a.cursor + 1), b.(cursor := b.cursor + 1), pages);
    } else if a.cursor < |a.ranges| {
      assert Rest(a) != [];
    } else if b.cursor < |b.ranges| {
      assert Rest(b) != [];
    }
  }

  lemma FitsIff(st: Pool, i: nat, pages: u64)
    requires GoodBlocks(st.ranges) && i < |st.ranges|
    ensures var r := st.ranges[i];
            && (r.end - r.base < SaturatingMul(pages, PAGE_SIZE) <==> r.end < r.base + pages * PAGE_SIZE)
            && (r.base + pages * PAGE_SIZE <= r.end ==> SaturatingMul(pages, PAGE_SIZE) == pages * PAGE_SIZE)
  {
    hide Covers, Size;
  }

  lemma CutParts(st: Pool, need: int)
    requires st.cursor < |st.ranges|
    ensures var (r, st') := (st.ranges[st.cursor], CutFront(st, need));
            && st'.ranges == st.ranges[st.cursor := Range(r.base + need, r.end)]
            && st'.cursor == if r.base + need >= r.end then st.cursor + 1 else st.cursor
  {
  }

  lemma AsIfCut(st: Pool, after: Pool, more: u64)
    requires GoodBlocks(st.ranges) && GoodBlocks(after.ranges) && more > 0 && 1 <= after.cursor <= |st.ranges| == |after.ranges|
    requires forall k :: after.cursor <= k < |st.ranges| ==> st.ranges[k] == after.ranges[k]
    requires var r := st.ranges[after.cursor - 1];
             st.cursor == if r.base >= r.end then after.cursor else after.cursor - 1
    ensures var r := st.ranges[after.cursor - 1];
            Take(st, more).1 == if r.base + more * PAGE_SIZE <= r.end then Some(r.base) else Take(after, more).1
  {
    hide GoodBlocks, SaturatingMul, CutFront;
    FitsIff(st, after.cursor - 1, more);
    assert Rest(st.(cursor := after.cursor)) == Rest(after);
    SameRest(st.(cursor := after.cursor), after, more);
  }

  // ---- every run of one-page requests ----

  function Pages(r: Range): int { (r.end - r.base) / PAGE_SIZE }

  /** The address of the k-th page of the list, counted from 0. */
  function NthPage(s: seq<Range>, k: nat): Option<u64>
    requires GoodBlocks(s)
  {
    if s == [] then None
    else if k < Pages(s[0]) then Some(s[0].base + k * PAGE_SIZE)
    else NthPage(s[1..], k - Pages(s[0]))
  }

  lemma RestGood(st: Pool)
    requires GoodBlocks(st.ranges)
    ensures GoodBlocks(Rest(st))
  {
  }

  /** The first page, and what is left without it. */
  lemma NthCut(s: seq<Range>, k: nat)
    requires GoodBlocks(s) && s != [] && s[0].base < s[0].end
    requires GoodBlocks(s[1..]) && GoodBlocks([Range(s[0].base + PAGE_SIZE, s[0].end)] + s[1..])
    ensures NthPage(s, 0) == Some(s[0].base)
    ensures NthPage([Range(s[0].base + PAGE_SIZE, s[0].end)] + s[1..], k) == NthPage(s, k + 1)
    ensures s[0].base + PAGE_SIZE == s[0].end ==> NthPage(s[1..], k) == NthPage(s, k + 1)
  {
    WholePages(s[0]);
    hide GoodBlocks;
    assert ([Range(s[0].base + PAGE_SIZE, s[0].end)] + s[1..])[1..] == s[1..];
  }

  lemma RangeWhole(s: seq<Range>, i: nat)
    requires GoodBlocks(s) && i < |s|
    ensures s[i].base % PAGE_SIZE == 0 && s[i].end % PAGE_SIZE == 0 && s[i].base <= s[i].end
    ensures s[i].base < s[i].end ==> s[i].base + PAGE_SIZE <= s[i].end && (s[i].base + PAGE_SIZE) % PAGE_SIZE == 0
  {
  }

  lemma TakesFirst(st: Pool)
    requires GoodBlocks(st.ranges) && st.cursor < |st.ranges|
    requires st.ranges[st.cursor].base + PAGE_SIZE <= st.ranges[st.cursor].end
    ensures Take(st, 1) == (CutFront(st, PAGE_SIZE), Some(st.ranges[st.cursor].base))
  {
    FitsIff(st, st.cursor, 1);
    hide GoodBlocks;
  }

  lemma RestCut(st: Pool)
    requires GoodBlocks(st.ranges) && st.cursor < |st.ranges| && st.ranges[st.cursor].base < st.ranges[st.cursor].end
    ensures var (r, st') := (st.ranges[st.cursor], CutFront(st, PAGE_SIZE));
            var cut := [Range(r.base + PAGE_SIZE, r.end)] + Rest(st)[1..];
            && Take(st, 1) == (st', Some(r.base)) && GoodBlocks(cut) && GoodBlocks(Rest(st)[1..])
            && Rest(st') == if r.base + PAGE_SIZE == r.end then Rest(st)[1..] else cut
  {
    hide GoodBlocks, Take, CutFront;
    var r := st.ranges[st.cursor];
    RangeWhole(st.ranges, st.cursor);
    TakesFirst(st);
    CutParts(st, PAGE_SIZE);
    var cut := Pool(st.ranges[st.cursor := Range(r.base + PAGE_SIZE, r.end)], st.cursor);
    UpdateGood(st.ranges, st.cursor, Range(r.base + PAGE_SIZE, r.end));
    RestGood(cut);
    RestGood(st.(cursor := st.cursor + 1));
    assert Rest(cut) == [Range(r.base + PAGE_SIZE, r.end)] + Rest(st)[1..];
    assert Rest(st.(cursor := st.cursor + 1)) == Rest(st)[1..] == Rest(cut.(cursor := st.cursor + 1));
  }

  lemma SkipEmpty(st: Pool)
    requires GoodBlocks(st.ranges) && st.cursor < |st.ranges| && st.ranges[st.cursor].base >= st.ranges[st.cursor].end
    ensures Take(st, 1) == Take(st.(cursor := st.cursor + 1), 1) && Pages(st.ranges[st.cursor]) == 0
  {
  }

  lemma {:induction false} NthOne(st: Pool, k: nat)
    requires GoodBlocks(st.ranges)
    ensures GoodBlocks(Rest(st)) && GoodBlocks(Take(st, 1).0.ranges) && GoodBlocks(Rest(Take(st, 1).0))
    ensures Take(st, 1).1 == NthPage(Rest(st), 0)
    ensures NthPage(Rest(Take(st, 1).0), k) == NthPage(Rest(st), k + 1)
    decreases |st.ranges| - st.cursor
  {
    hide GoodBlocks, Granted, Take, CutFront, Pages;
    RestGood(st);
    TakeCorrect(st, 1);
    RestGood(Take(st, 1).0);
    if st.cursor < |st.ranges| {
      var r := st.ranges[st.cursor];
      assert Rest(st)[0] == r && Rest(st)[1..] == Rest(st.(cursor := st.cursor + 1));
      if r.base >= r.end {
        SkipEmpty(st);
        NthOne(st.(cursor := st.cursor + 1), k);
      } else {
        RestCut(st);
        NthCut(Rest(st), k);
      }
    } else {
      assert Take(st, 1) == (st, None) by {
        ExhaustedForGood(st, 1);
      }
    }
  }

  lemma WholePages(r: Range)
    requires r.base % PAGE_SIZE == 0 && r.end % PAGE_SIZE == 0 && r.base <= r.end
    ensures r.end - r.base == Pages(r) * PAGE_SIZE
    ensures r.base + PAGE_SIZE <= r.end ==> Pages(Range(r.base + PAGE_SIZE, r.end)) == Pages(r) - 1
  {
  }

  function Ones(n: nat): seq<u64> { seq(n, _ => 1) }

  /** Over every run of one-page requests: the i-th one is served with the i-th page of the list, in order, whatever ranges
      it is made of; so it is refused iff the pages handed out before are all there were. */
  lemma {:induction false} FramesInOrder(st: Pool, n: nat, i: nat)
    requires GoodBlocks(st.ranges) && i < n
    ensures GoodBlocks(Rest(st)) && Serve(st, Ones(n)).1[i] == NthPage(Rest(st), i)
    ensures Serve(st, Ones(n)).1[i].None? <==> i * PAGE_SIZE >= Size(Rest(st))
  {
    RestGood(st);
    NthExists(Rest(st), i);
    if i < n - 1 {
      assert Ones(n)[..n - 1] == Ones(n - 1);
      FramesInOrder(st, n - 1, i);
    } else {
      AfterFrames(st, i, 0);
      assert Ones(n)[..n - 1] == Ones(n - 1);
      NthOne(Serve(st, Ones(i)).0, 0);
    }
  }

  lemma {:induction false} AfterFrames(st: Pool, n: nat, k: nat)
    requires GoodBlocks(st.ranges)
    ensures var st' := Serve(st, Ones(n)).0;
            GoodBlocks(Rest(st)) && GoodBlocks(Rest(st')) && NthPage(Rest(st'), k) == NthPage(Rest(st), n + k)
  {
    hide GoodBlocks, Take;
    RestGood(st);
    if n > 0 {
      assert Ones(n)[..n - 1] == Ones(n - 1);
      AfterFrames(st, n - 1, k + 1);
      NthOne(Serve(st, Ones(n - 1)).0, k);
    }
  }

  lemma {:induction false} NthExists(s: seq<Range>, k: nat)
    requires GoodBlocks(s)
    ensures NthPage(s, k).Some? <==> k * PAGE_SIZE < Size(s)
  {
    if s != [] {
      WholePages(s[0]);
      SizeCons(s[0], s[1..]);
      assert s == [s[0]] + s[1..];
      NonNegative(s[1..]);
      if k >= Pages(s[0]) {
        NthExists(s[1..], k - Pages(s[0]));
      }
    }
  }

  lemma {:induction false} NonNegative(s: seq<Range>)
    requires GoodBlocks(s)
    ensures Size(s) >= 0
  {
    if s != [] {
      NonNegative(s[..|s| - 1]);
    }
  }
}
