/** Sorted lists of half-open address ranges, and the functions that the physical memory
    manager's in-place loops are proved against. */
module Ranges {
  import opened Words

  datatype Range = Range(base: int, end: int)

  // ---- what a list of ranges denotes ----

  ghost predicate Covers(s: seq<Range>, x: int) {
    exists i :: 0 <= i < |s| && s[i].base <= x < s[i].end
  }

  ghost predicate NonEmpty(s: seq<Range>) {
    forall i :: 0 <= i < |s| ==> s[i].base < s[i].end
  }

  /** Non-empty, sorted, and with a gap between any two ranges. */
  ghost predicate Canonical(s: seq<Range>) {
    && NonEmpty(s)
    && forall i, j :: 0 <= i < j < |s| ==> s[i].end < s[j].base
  }

  ghost predicate SortedByBase(s: seq<Range>) {
    forall i, j :: 0 <= i < j < |s| ==> s[i].base <= s[j].base
  }

  ghost predicate Aligned(s: seq<Range>) {
    forall i :: 0 <= i < |s| ==> s[i].base % PAGE_SIZE == 0 && s[i].end % PAGE_SIZE == 0
  }

  ghost predicate Within(s: seq<Range>, lo: int, hi: int) {
    forall i :: 0 <= i < |s| ==> lo <= s[i].base && s[i].end <= hi
  }

  /** Total number of bytes, counting overlaps as often as they occur. */
  function Size(s: seq<Range>): int {
    if s == [] then 0 else Size(s[..|s| - 1]) + (s[|s| - 1].end - s[|s| - 1].base)
  }

  lemma CoversConcat(a: seq<Range>, b: seq<Range>, x: int)
    ensures Covers(a + b, x) <==> Covers(a, x) || Covers(b, x)
  {
    if Covers(a, x) {
      var i :| 0 <= i < |a| && a[i].base <= x < a[i].end;
      assert (a + b)[i] == a[i];
    }
    if Covers(b, x) {
      var i :| 0 <= i < |b| && b[i].base <= x < b[i].end;
      assert (a + b)[|a| + i] == b[i];
    }
  }

  lemma {:induction false} SizeConcat(a: seq<Range>, b: seq<Range>)
    ensures Size(a + b) == Size(a) + Size(b)
  {
    if b == [] {
      assert a + b == a;
    } else {
      assert (a + b)[..|a + b| - 1] == a + b[..|b| - 1];
      SizeConcat(a, b[..|b| - 1]);
    }
  }

  /** A canonical list is a normal form: it is determined by the set of addresses it denotes. */
  lemma {:induction false} CanonicalUnique(s: seq<Range>, t: seq<Range>)
    requires Canonical(s) && Canonical(t)
    requires forall x :: Covers(s, x) <==> Covers(t, x)
    ensures s == t
    decreases |s|
  {
    if s == [] {
      CanonicalEmpty(t);
    } else {
      assert Covers(s, s[0].base);
      assert Covers(t, t[0].base);
      assert s[0].base == t[0].base;
      FirstEnd(s, t);
      FirstEnd(t, s);
      assert s[0] == t[0];
      forall x ensures Covers(s[1..], x) <==> Covers(t[1..], x) {
        TailCovers(s, x);
        TailCovers(t, x);
      }
      CanonicalUnique(s[1..], t[1..]);
      assert s == [s[0]] + s[1..] && t == [t[0]] + t[1..];
    }
  }

  lemma CanonicalEmpty(t: seq<Range>)
    requires Canonical(t) && forall x :: !Covers(t, x)
    ensures t == []
  {
    var start := if t == [] then 0 else t[0].base;
    assert !Covers(t, start);
  }

  lemma FirstEnd(s: seq<Range>, t: seq<Range>)
    requires Canonical(s) && Canonical(t) && s != [] && t != []
    requires forall x :: Covers(s, x) ==> Covers(t, x)
    requires s[0].base == t[0].base
    ensures s[0].end <= t[0].end
  {
    var x := t[0].end;
    assert !Covers(t, x);
    assert x < s[0].end ==> Covers(s, x);
  }

  lemma TailCovers(s: seq<Range>, x: int)
    requires Canonical(s) && s != []
    ensures Covers(s[1..], x) <==> Covers(s, x) && x >= s[0].end
  {
    assert s == [s[0]] + s[1..];
    CoversConcat([s[0]], s[1..], x);
    assert Covers([s[0]], x) <==> s[0].base <= x < s[0].end by {
      assert [s[0]][0] == s[0];
    }
    if Covers(s[1..], x) {
      var i :| 0 <= i < |s[1..]| && s[1..][i].base <= x < s[1..][i].end;
      assert s[1..][i] == s[i + 1];
    }
  }

  /** The bytes of a canonical list fit between its bounds. */
  lemma {:induction false} CanonicalSize(s: seq<Range>, lo: int, hi: int)
    requires Canonical(s) && Within(s, lo, hi) && lo <= hi
    ensures 0 <= Size(s) <= hi - lo
  {
    if s != [] {
      var last := s[|s| - 1];
      assert forall i :: 0 <= i < |s| - 1 ==> s[i].end < last.base;
      CanonicalSize(s[..|s| - 1], lo, last.base);
    }
  }

  // ---- insertion sort ----

  /** Put key after the last element whose base is not larger. */
  function Insert(s: seq<Range>, key: Range): (r: seq<Range>)
    ensures |r| == |s| + 1
  {
    if s == [] || s[|s| - 1].base <= key.base then s + [key]
    else Insert(s[..|s| - 1], key) + [s[|s| - 1]]
  }

  function Sort(s: seq<Range>): (r: seq<Range>)
    ensures |r| == |s|
  {
    if s == [] then [] else Insert(Sort(s[..|s| - 1]), s[|s| - 1])
  }

  lemma {:induction false} InsertAdds(s: seq<Range>, key: Range)
    ensures multiset(Insert(s, key)) == multiset(s) + multiset{key}
  {
    if s != [] && s[|s| - 1].base > key.base {
      InsertAdds(s[..|s| - 1], key);
      assert s == s[..|s| - 1] + [s[|s| - 1]];
    }
  }

  lemma {:induction false} InsertSorted(s: seq<Range>, key: Range)
    requires SortedByBase(s)
    ensures SortedByBase(Insert(s, key))
  {
    if s == [] || s[|s| - 1].base <= key.base {
    } else {
      var front, last := s[..|s| - 1], s[|s| - 1];
      InsertSorted(front, key);
      InsertAdds(front, key);
      var r := Insert(front, key);
      forall i | 0 <= i < |r| ensures r[i].base <= last.base {
        assert r[i] in multiset(r);
        assert r[i] in multiset(front) || r[i] == key;
      }
    }
  }

  lemma {:induction false} SortCorrect(s: seq<Range>)
    ensures SortedByBase(Sort(s))
    ensures multiset(Sort(s)) == multiset(s)
  {
    if s != [] {
      SortCorrect(s[..|s| - 1]);
      InsertSorted(Sort(s[..|s| - 1]), s[|s| - 1]);
      InsertAdds(Sort(s[..|s| - 1]), s[|s| - 1]);
      assert s == s[..|s| - 1] + [s[|s| - 1]];
    }
  }

  /** Permuting a list changes neither its addresses nor its size. */
  lemma {:induction false} InsertKeeps(s: seq<Range>, key: Range)
    ensures Size(Insert(s, key)) == Size(s) + (key.end - key.base)
  {
    if s == [] || s[|s| - 1].base <= key.base {
      assert (s + [key])[..|s|] == s;
    } else {
      var front, last := s[..|s| - 1], s[|s| - 1];
      InsertKeeps(front, key);
      assert (Insert(front, key) + [last])[..|s|] == Insert(front, key);
    }
  }

  lemma {:induction false} SortKeeps(s: seq<Range>)
    ensures Size(Sort(s)) == Size(s)
  {
    if s != [] {
      SortKeeps(s[..|s| - 1]);
      InsertKeeps(Sort(s[..|s| - 1]), s[|s| - 1]);
    }
  }

  lemma SameElementsCover(s: seq<Range>, t: seq<Range>, x: int)
    requires multiset(s) == multiset(t)
    ensures Covers(s, x) ==> Covers(t, x)
  {
    if Covers(s, x) {
      var i :| 0 <= i < |s| && s[i].base <= x < s[i].end;
      assert s[i] in multiset(t);
      var j :| 0 <= j < |t| && t[j] == s[i];
    }
  }

  lemma SortedNonEmpty(s: seq<Range>)
    requires NonEmpty(s)
    ensures NonEmpty(Sort(s))
    ensures Aligned(s) ==> Aligned(Sort(s))
    ensures forall lo, hi :: Within(s, lo, hi) ==> Within(Sort(s), lo, hi)
  {
    SortCorrect(s);
    var t := Sort(s);
    forall i | 0 <= i < |t| ensures t[i] in s {
      assert t[i] in multiset(t);
    }
  }

  // ---- merging overlapping and touching ranges ----

  /** Extend cur over the sorted ranges that start at or before its end; then go on with the next. */
  function MergeInto(cur: Range, s: seq<Range>): (r: seq<Range>)
    ensures 1 <= |r| <= |s| + 1
    decreases |s|
  {
    if s == [] then [cur]
    else if s[0].base <= cur.end then MergeInto(Range(cur.base, Max(cur.end, s[0].end)), s[1..])
    else [cur] + MergeInto(s[0], s[1..])
  }

  function Merge(s: seq<Range>): (r: seq<Range>)
    ensures |r| <= |s|
  {
    if s == [] then [] else MergeInto(s[0], s[1..])
  }

  lemma CoversCons(r: Range, s: seq<Range>, x: int)
    ensures Covers([r] + s, x) <==> r.base <= x < r.end || Covers(s, x)
  {
    CoversConcat([r], s, x);
    assert [r][0] == r;
  }

  lemma SizeCons(r: Range, s: seq<Range>)
    ensures Size([r] + s) == (r.end - r.base) + Size(s)
  {
    SizeConcat([r], s);
    assert [r][..0] == [];
    assert Size([r]) == r.end - r.base;
  }

  lemma {:induction false} MergeIntoCovers(cur: Range, s: seq<Range>, x: int)
    requires cur.base < cur.end && NonEmpty(s) && SortedByBase([cur] + s)
    ensures Covers(MergeInto(cur, s), x) <==> Covers([cur] + s, x)
    decreases |s|
  {
    CoversCons(cur, s, x);
    if s == [] {
      assert [cur] + s == [cur];
    } else {
      var next := MergeNext(cur, s);
      MergeStep(cur, s);
      MergeIntoCovers(next, s[1..], x);
      CoversCons(next, s[1..], x);
      CoversCons(s[0], s[1..], x);
      assert s == [s[0]] + s[1..];
      CoversCons(cur, MergeInto(s[0], s[1..]), x);
    }
  }

  /** The range that the merge carries on with after looking at s[0]. */
  function MergeNext(cur: Range, s: seq<Range>): Range
    requires s != []
  {
    if s[0].base <= cur.end then Range(cur.base, Max(cur.end, s[0].end)) else s[0]
  }

  lemma MergeStep(cur: Range, s: seq<Range>)
    requires s != [] && cur.base < cur.end && NonEmpty(s) && SortedByBase([cur] + s)
    ensures cur.base <= s[0].base && NonEmpty(s[1..])
    ensures MergeNext(cur, s).base < MergeNext(cur, s).end
    ensures SortedByBase([MergeNext(cur, s)] + s[1..])
  {
    var t, next := [cur] + s, MergeNext(cur, s);
    assert t[0] == cur && t[1] == s[0];
    assert forall i :: 0 <= i < |s[1..]| ==> s[1..][i] == s[i + 1];
    var u := [next] + s[1..];
    forall i, j | 0 <= i < j < |u| ensures u[i].base <= u[j].base {
      assert u[j] == t[j + 1];
      assert i > 0 ==> u[i] == t[i + 1];
    }
  }

  lemma {:induction false} MergeIntoCanonical(cur: Range, s: seq<Range>)
    requires cur.base < cur.end && NonEmpty(s) && SortedByBase([cur] + s)
    ensures Canonical(MergeInto(cur, s))
    ensures MergeInto(cur, s)[0].base == cur.base
    decreases |s|
  {
    if s != [] {
      MergeStep(cur, s);
      MergeIntoCanonical(MergeNext(cur, s), s[1..]);
      if cur.end < s[0].base {
        ConsCanonical(cur, MergeInto(s[0], s[1..]));
      }
    }
  }

  lemma ConsCanonical(r: Range, s: seq<Range>)
    requires Canonical(s) && s != [] && r.base < r.end < s[0].base
    ensures Canonical([r] + s)
  {
    forall j | 0 <= j < |s| ensures r.end < s[j].base {
      assert j > 0 ==> s[0].end < s[j].base;
    }
  }

  lemma {:induction false} MergeIntoSize(cur: Range, s: seq<Range>)
    requires cur.base < cur.end && NonEmpty(s) && SortedByBase([cur] + s)
    ensures Size(MergeInto(cur, s)) <= Size([cur] + s)
    decreases |s|
  {
    if s == [] {
      assert [cur] + s == [cur];
    } else {
      MergeStep(cur, s);
      var next := MergeNext(cur, s);
      MergeIntoSize(next, s[1..]);
      SizeCons(cur, s);
      SizeCons(next, s[1..]);
      SizeCons(s[0], s[1..]);
      assert s == [s[0]] + s[1..];
      SizeCons(cur, MergeInto(s[0], s[1..]));
    }
  }

  lemma {:induction false} MergeIntoAligned(cur: Range, s: seq<Range>, lo: int, hi: int)
    requires Aligned([cur] + s) && Within([cur] + s, lo, hi)
    ensures Aligned(MergeInto(cur, s)) && Within(MergeInto(cur, s), lo, hi)
    decreases |s|
  {
    assert ([cur] + s)[0] == cur;
    if s != [] {
      assert ([cur] + s)[1] == s[0];
      var next := if s[0].base <= cur.end then Range(cur.base, Max(cur.end, s[0].end)) else s[0];
      forall i | 0 <= i < |[next] + s[1..]|
        ensures var r := ([next] + s[1..])[i];
                r.base % PAGE_SIZE == 0 && r.end % PAGE_SIZE == 0 && lo <= r.base && r.end <= hi
      {
        assert i > 0 ==> ([next] + s[1..])[i] == ([cur] + s)[i + 1];
      }
      MergeIntoAligned(next, s[1..], lo, hi);
    }
  }

  // ---- removing a reserved interval ----

  function Overlaps(r: Range, b: int, e: int): bool { r.base < e && b < r.end }

  /** What is left of one range: nothing, one piece or two. */
  function Pieces(r: Range, b: int, e: int): (s: seq<Range>)
    ensures |s| <= 2
  {
    if !Overlaps(r, b, e) then [r]
    else if b <= r.base && e >= r.end then []
    else if b <= r.base then [Range(e, r.end)]
    else if e >= r.end then [Range(r.base, b)]
    else [Range(r.base, b), Range(e, r.end)]
  }

  function Subtract(s: seq<Range>, b: int, e: int): seq<Range> {
    if s == [] then [] else Subtract(s[..|s| - 1], b, e) + Pieces(s[|s| - 1], b, e)
  }

  /** The reserved interval lies strictly inside this range, so removing it needs one more slot. */
  predicate Splits(r: Range, b: int, e: int) { r.base < b && e < r.end }

  predicate SplitsOne(s: seq<Range>, b: int, e: int) { exists i :: 0 <= i < |s| && Splits(s[i], b, e) }

  lemma PiecesCorrect(r: Range, b: int, e: int)
    requires r.base < r.end && b < e
    ensures Canonical(Pieces(r, b, e)) && Within(Pieces(r, b, e), r.base, r.end)
    ensures Size(Pieces(r, b, e)) <= r.end - r.base
    ensures forall x :: Covers(Pieces(r, b, e), x) <==> r.base <= x < r.end && !(b <= x < e)
  {
    var p := Pieces(r, b, e);
    if |p| == 1 {
      SizeCons(p[0], []);
      assert p == [p[0]] + [];
    } else if |p| == 2 {
      SizeCons(p[0], [p[1]]);
      SizeCons(p[1], []);
      assert [p[1]] == [p[1]] + [] && p == [p[0]] + [p[1]];
    }
    forall x ensures Covers(p, x) <==> r.base <= x < r.end && !(b <= x < e) {
      assert |p| > 0 && p[0].base <= x < p[0].end ==> Covers(p, x);
      assert |p| > 1 && p[1].base <= x < p[1].end ==> Covers(p, x);
    }
  }

  /** Subtraction keeps exactly the addresses outside the reserved interval. */
  lemma {:induction false} SubtractCovers(s: seq<Range>, b: int, e: int, x: int)
    requires NonEmpty(s) && b < e
    ensures Covers(Subtract(s, b, e), x) <==> Covers(s, x) && !(b <= x < e)
  {
    if s != [] {
      var front, last := s[..|s| - 1], s[|s| - 1];
      SubtractCovers(front, b, e, x);
      CoversConcat(Subtract(front, b, e), Pieces(last, b, e), x);
      PiecesCorrect(last, b, e);
      CoversConcat(front, [last], x);
      assert s == front + [last] && [last][0] == last;
    }
  }

  /** Subtraction keeps the normal form, stays inside the old bounds and never grows the total. */
  lemma {:induction false} SubtractCanonical(s: seq<Range>, b: int, e: int, lo: int, hi: int)
    requires Canonical(s) && b < e && Within(s, lo, hi)
    ensures Canonical(Subtract(s, b, e)) && Within(Subtract(s, b, e), lo, hi)
    ensures Size(Subtract(s, b, e)) <= Size(s)
  {
    if s != [] {
      var front, last := s[..|s| - 1], s[|s| - 1];
      assert forall i :: 0 <= i < |front| ==> s[i].end < last.base;
      var bound := if front == [] then lo else front[|front| - 1].end;
      assert Within(front, lo, bound);
      SubtractCanonical(front, b, e, lo, bound);
      PiecesCorrect(last, b, e);
      SizeConcat(Subtract(front, b, e), Pieces(last, b, e));
      JoinCanonical(Subtract(front, b, e), Pieces(last, b, e), lo, bound, last.base, hi);
    }
  }

  lemma JoinCanonical(s: seq<Range>, t: seq<Range>, lo: int, mid: int, mid': int, hi: int)
    requires Canonical(s) && Canonical(t)
    requires Within(s, lo, mid) && Within(t, mid', hi)
    requires s != [] ==> mid < mid' <= hi
    requires t != [] ==> lo <= mid'
    ensures Canonical(s + t)
    ensures Within(s + t, lo, hi)
  {
    hide Covers, Size, Subtract, Insert, Sort;
  }

  lemma {:induction false} SubtractAligned(s: seq<Range>, b: int, e: int)
    requires Aligned(s) && b % PAGE_SIZE == 0 && e % PAGE_SIZE == 0
    ensures Aligned(Subtract(s, b, e))
  {
    if s != [] {
      SubtractAligned(s[..|s| - 1], b, e);
    }
  }

  lemma {:induction false} SubtractConcat(s: seq<Range>, t: seq<Range>, b: int, e: int)
    ensures Subtract(s + t, b, e) == Subtract(s, b, e) + Subtract(t, b, e)
  {
    hide Pieces;
    if t == [] {
      assert s + t == s;
    } else {
      assert (s + t)[..|s + t| - 1] == s + t[..|t| - 1];
      SubtractConcat(s, t[..|t| - 1], b, e);
    }
  }

  /** Ranges that the interval does not touch are left alone. */
  lemma {:induction false} SubtractDisjoint(s: seq<Range>, b: int, e: int)
    requires forall i :: 0 <= i < |s| ==> !Overlaps(s[i], b, e)
    ensures Subtract(s, b, e) == s
  {
    if s != [] {
      SubtractDisjoint(s[..|s| - 1], b, e);
    }
  }
}
