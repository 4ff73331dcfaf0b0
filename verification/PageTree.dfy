/** The tables of all address spaces form a forest, mapping a page updates one leaf of it and nothing else,
    and the user walk sees exactly the leaves mapped for user mode. */
module PageTree {
  import opened Words
  import opened Ranges
  import opened PageAlloc
  import opened PageTables

  /** For each table frame the way to it: its root, then the index taken at each level. Since a frame has one
      way, frames reached on different ways differ. */
  type Ways = map<int, seq<int>>

  /** Entries outside the direct-map slot. */
  predicate Regular(way: seq<int>, i: int) {
    if |way| == 1 then i != HHDM_SLOT else |way| > 1 && way[1] != HHDM_SLOT
  }

  ghost predicate EntryOk(t: Tables, own: Ways, f: int, i: int) {
    var w := Rd(t, f, i);
    f in own && Present(w) ==>
      var c := FrameOf(w);
      && (w == c + Bits(false, true) || w == c + Bits(true, true))
      && c in own && own[c] == own[f] + [i]
  }

  /** Free frames are physical addresses that an entry can hold, and zero is not among them. */
  ghost predicate PoolOk(p: Pool) {
    GoodBlocks(p.ranges) && Within(p.ranges, PAGE_SIZE, TWO_52)
  }

  ghost predicate FrameOwned(t: Tables, own: Ways, f: int)
    requires f in own
  {
    && f in t && FrameOk(f) && 1 <= |own[f]| <= 4 && (|own[f]| == 1 ==> own[f] == [f])
  }

  ghost predicate Tree(m: Mem, own: Ways) {
    && PoolOk(m.pool)
    && (forall f :: f in m.tables ==> |m.tables[f]| == ENTRIES && !Covers(m.pool.ranges, f))
    && (forall f {:trigger FrameOwned(m.tables, own, f)} :: f in own ==> FrameOwned(m.tables, own, f))
    && (forall f, i {:trigger EntryOk(m.tables, own, f, i)} ::
          f in own && |own[f]| < 4 && 0 <= i < ENTRIES && Regular(own[f], i) ==> EntryOk(m.tables, own, f, i))
  }

  ghost predicate IsRoot(own: Ways, r: int) { r in own && own[r] == [r] }

  /** The tables on the way to an address are those of that way. */
  lemma WalkOwned(m: Mem, own: Ways, r: int, va: int)
    requires Tree(m, own) && IsRoot(own, r) && Idx4(va) != HHDM_SLOT
    ensures var t := m.tables;
            && EntryOk(t, own, r, Idx4(va))
            && (Present(Word4(t, r, va)) ==>
                  var f3 := FrameOf(Word4(t, r, va));
                  && f3 in own && own[f3] == [r, Idx4(va)] && EntryOk(t, own, f3, Idx3(va))
                  && (Present(Word3(t, r, va)) ==>
                        var f2 := FrameOf(Word3(t, r, va));
                        && f2 in own && own[f2] == [r, Idx4(va), Idx3(va)] && EntryOk(t, own, f2, Idx2(va))
                        && (Present(Word2(t, r, va)) ==>
                              var f1 := FrameOf(Word2(t, r, va));
                              f1 in own && own[f1] == [r, Idx4(va), Idx3(va), Idx2(va)])))
  {
    var t := m.tables;
    assert EntryOk(t, own, r, Idx4(va));
    if Present(Word4(t, r, va)) {
      var f3 := FrameOf(Word4(t, r, va));
      assert own[f3] == [r, Idx4(va)];
      assert EntryOk(t, own, f3, Idx3(va));
      if Present(Word3(t, r, va)) {
        var f2 := FrameOf(Word3(t, r, va));
        assert own[f2] == [r, Idx4(va), Idx3(va)];
        assert EntryOk(t, own, f2, Idx2(va));
      }
    }
  }

  /** Known frames keep their ways; the others are new tables. */
  ghost predicate Extended(own: Ways, own': Ways, t: Tables) {
    && (forall g :: g in own ==> g in own' && own'[g] == own[g])
    && (forall g :: g in own' && g !in own ==> g !in t)
  }

  /** New tables are frames that were free, and none of them is a root. */
  ghost predicate NewFrom(m: Mem, own: Ways, m': Mem, own': Ways) {
    && (forall g :: g in m'.tables && g !in m.tables ==> Covers(m.pool.ranges, g))
    && (forall g :: IsRoot(own', g) ==> IsRoot(own, g))
  }

  // ---- one step down ----

  /** Nothing but entry (f, i) reads differently; that entry keeps its table and may gain the user bit, or
      was absent and now leads to an empty table. */
  ghost predicate Grown(t: Tables, t': Tables, f: int, i: int) {
    && (forall g, j :: (g != f || j != i) ==> Rd(t', g, j) == Rd(t, g, j))
    && var (w, w') := (Rd(t, f, i), Rd(t', f, i));
       && Present(w')
       && (Present(w) && User(w) ==> User(w'))
       && (Present(w) ==> FrameOf(w') == FrameOf(w))
       && (!Present(w) ==> FrameOf(w') !in t && f in t)
  }

  lemma RoomForUser(b: int)
    requires 0 <= b < PAGE_SIZE && b % 8 < 4
    ensures b + 4 < PAGE_SIZE && (b + 4) % 8 == b % 8 + 4 && (b + 4) % 2 == b % 2
  {
  }

  lemma AddUserParts(w: int)
    ensures User(AddUser(w)) && (Present(AddUser(w)) <==> Present(w)) && FrameOf(AddUser(w)) == FrameOf(w)
  {
    var q, b := w / PAGE_SIZE, w % PAGE_SIZE;
    assert w == PAGE_SIZE * q + b;
    LowBits(q, b);
    if !User(w) {
      RoomForUser(b);
      LowBits(q, b + 4);
    }
  }

  /** Going down through (f, i) keeps the forest. */
  lemma StepKeeps(m: Mem, own: Ways, f: int, i: int, user: bool) returns (own': Ways)
    requires Tree(m, own) && f in own && |own[f]| < 4 && 0 <= i < ENTRIES && Regular(own[f], i)
    requires GetOrAlloc(m, f, i, user).Some?
    ensures var (m', c) := GetOrAlloc(m, f, i, user).value;
            && Tree(m', own') && Grown(m.tables, m'.tables, f, i)
            && c == FrameOf(Rd(m'.tables, f, i)) && c in own' && own'[c] == own[f] + [i]
            && (user ==> User(Rd(m'.tables, f, i)))
            && Extended(own, own', m.tables) && m.tables.Keys <= m'.tables.Keys
            && (forall x :: Covers(m'.pool.ranges, x) ==> Covers(m.pool.ranges, x))
            && NewFrom(m, own, m', own')
  {
    var t := m.tables;
    var w := Rd(t, f, i);
    assert EntryOk(t, own, f, i) && FrameOwned(t, own, f);
    if Present(w) {
      own' := own;
      AddUserParts(w);
      var m' := GetOrAlloc(m, f, i, user).value.0;
      forall g, j | g in own && |own[g]| < 4 && 0 <= j < ENTRIES && Regular(own[g], j)
        ensures EntryOk(m'.tables, own, g, j)
      {
        assert EntryOk(t, own, g, j);
      }
      forall g | g in own ensures FrameOwned(m'.tables, own, g) {
        assert FrameOwned(t, own, g);
      }
    } else {
      own' := StepAllocates(m, own, f, i, user);
    }
  }

  /** The frame taken for a new table is usable and was in no table before. */
  lemma FreshFrame(m: Mem, own: Ways)
    requires Tree(m, own) && Take(m.pool, 1).1.Some?
    ensures var (pool, got) := Take(m.pool, 1);
            && FrameOk(got.value) && got.value !in m.tables && PoolOk(pool)
            && Covers(m.pool.ranges, got.value)
            && (forall x :: Covers(pool.ranges, x) <==> Covers(m.pool.ranges, x) && !(got.value <= x < got.value + PAGE_SIZE))
  {
    TakeCorrect(m.pool, 1);
    var p := Take(m.pool, 1).1.value;
    assert Covers(m.pool.ranges, p);
    TakeBounds(m.pool, 1, PAGE_SIZE, TWO_52);
  }

  lemma {:induction false} TakeBounds(st: Pool, pages: u64, lo: int, hi: int)
    requires GoodBlocks(st.ranges) && Within(st.ranges, lo, hi)
    ensures Within(Take(st, pages).0.ranges, lo, hi)
    decreases |st.ranges| - st.cursor
  {
    if pages > 0 && st.cursor < |st.ranges| {
      var r := st.ranges[st.cursor];
      var need: u64 := SaturatingMul(pages, PAGE_SIZE);
      if r.base >= r.end || r.end - r.base < need {
        assert Take(st, pages) == Take(st.(cursor := st.cursor + 1), pages);
        TakeBounds(st.(cursor := st.cursor + 1), pages, lo, hi);
      } else {
        assert Take(st, pages).0 == CutFront(st, need);
        assert Within(st.ranges[st.cursor := Range(r.base + need, r.end)], lo, hi);
      }
    }
  }

  lemma StepAllocates(m: Mem, own: Ways, f: int, i: int, user: bool) returns (own': Ways)
    requires Tree(m, own) && f in own && |own[f]| < 4 && 0 <= i < ENTRIES && Regular(own[f], i)
    requires GetOrAlloc(m, f, i, user).Some? && !Present(Rd(m.tables, f, i))
    ensures var (m', c) := GetOrAlloc(m, f, i, user).value;
            && Tree(m', own') && Grown(m.tables, m'.tables, f, i)
            && c == FrameOf(Rd(m'.tables, f, i)) && c in own' && own'[c] == own[f] + [i]
            && (user ==> User(Rd(m'.tables, f, i)))
            && Extended(own, own', m.tables) && m.tables.Keys <= m'.tables.Keys
            && (forall x :: Covers(m'.pool.ranges, x) ==> Covers(m.pool.ranges, x))
            && NewFrom(m, own, m', own')
  {
    var t := m.tables;
    FreshFrame(m, own);
    assert FrameOwned(t, own, f);
    var (m', c) := GetOrAlloc(m, f, i, user).value;
    WordParts(c, user, true);
    var t1 := t[c := ZeroTable()];
    assert m'.tables == Wr(t1, f, i, Link(c, user));
    own' := own[c := own[f] + [i]];
    forall g, j | g != f || j != i ensures Rd(m'.tables, g, j) == Rd(t, g, j) {
    }
    forall g | g in own ensures FrameOwned(m'.tables, own', g) && g != c {
      assert FrameOwned(t, own, g);
    }
    forall g, j | g in own' && |own'[g]| < 4 && 0 <= j < ENTRIES && Regular(own'[g], j)
      ensures EntryOk(m'.tables, own', g, j)
    {
      if g != c {
        assert EntryOk(t, own, g, j);
        assert own'[g] == own[g];
      } else {
        assert Rd(m'.tables, c, j) == Rd(t, c, j) == 0;
      }
    }
    assert forall g :: g in m'.tables ==> |m'.tables[g]| == ENTRIES;
    assert forall g :: g in m'.tables ==> !Covers(m'.pool.ranges, g);
    assert FrameOwned(m'.tables, own', c);
    assert Tree(m', own');
  }

  /** Such a step is invisible to every leaf of every address space. */
  lemma GrownLeaf(m: Mem, own: Ways, t': Tables, f: int, i: int, r: int, va: int)
    requires Tree(m, own) && IsRoot(own, r) && Idx4(va) != HHDM_SLOT
    requires f in own && |own[f]| < 4 && Grown(m.tables, t', f, i)
    ensures Leaf(t', r, va) == Leaf(m.tables, r, va)
    ensures Leaf(m.tables, r, va).Some? ==>
              && (User(Word4(m.tables, r, va)) ==> User(Word4(t', r, va)))
              && (User(Word3(m.tables, r, va)) ==> User(Word3(t', r, va)))
              && (User(Word2(m.tables, r, va)) ==> User(Word2(t', r, va)))
  {
    WalkOwned(m, own, r, va);
    assert FrameOwned(m.tables, own, f);
  }

  /** The user bit is set on the whole way to a leaf that carries it. */
  ghost predicate UserWay(t: Tables, r: int, va: int) {
    Leaf(t, r, va).Some? && User(Leaf(t, r, va).value) ==>
      User(Word4(t, r, va)) && User(Word3(t, r, va)) && User(Word2(t, r, va))
  }

  /** What t' has kept of the address spaces of t. */
  ghost predicate SameLeaves(own: Ways, t: Tables, t': Tables) {
    forall r, va: int {:trigger Leaf(t', r, va)} :: IsRoot(own, r) && Idx4(va) != HHDM_SLOT ==>
      Leaf(t', r, va) == Leaf(t, r, va) && (UserWay(t, r, va) ==> UserWay(t', r, va))
  }

  lemma GrownSame(m: Mem, own: Ways, t': Tables, f: int, i: int)
    requires Tree(m, own) && f in own && |own[f]| < 4 && Grown(m.tables, t', f, i)
    ensures SameLeaves(own, m.tables, t')
  {
    forall r, va: int | IsRoot(own, r) && Idx4(va) != HHDM_SLOT
      ensures Leaf(t', r, va) == Leaf(m.tables, r, va) && (UserWay(m.tables, r, va) ==> UserWay(t', r, va))
    {
      GrownLeaf(m, own, t', f, i, r, va);
    }
  }

  lemma SameTransitive(own: Ways, own': Ways, t: Tables, t1: Tables, t2: Tables)
    requires SameLeaves(own, t, t1) && SameLeaves(own', t1, t2) && Extended(own, own', t)
    ensures SameLeaves(own, t, t2)
  {
    forall r, va: int | IsRoot(own, r) && Idx4(va) != HHDM_SLOT
      ensures Leaf(t2, r, va) == Leaf(t, r, va) && (UserWay(t, r, va) ==> UserWay(t2, r, va))
    {
      assert Leaf(t1, r, va) == Leaf(t, r, va);
      assert IsRoot(own', r);
    }
  }

  /** Everything that changed on the way from m to m' except leaves. */
  ghost predicate Progressed(m: Mem, own: Ways, m': Mem, own': Ways) {
    && Tree(m', own') && Extended(own, own', m.tables) && m.tables.Keys <= m'.tables.Keys
    && (forall x :: Covers(m'.pool.ranges, x) ==> Covers(m.pool.ranges, x))
    && DirectMapKept(own, m.tables, m'.tables) && NewFrom(m, own, m', own')
  }

  /** Tables of the direct map, and the entries that lead to them, are not touched. */
  ghost predicate DirectMapKept(own: Ways, t: Tables, t': Tables) {
    forall g, j :: g in t && (g in own ==> 1 <= |own[g]| && !Regular(own[g], j)) ==> Rd(t', g, j) == Rd(t, g, j)
  }

  lemma StepProgress(m: Mem, own: Ways, f: int, i: int, user: bool) returns (own': Ways)
    requires Tree(m, own) && f in own && |own[f]| < 4 && 0 <= i < ENTRIES && Regular(own[f], i)
    requires GetOrAlloc(m, f, i, user).Some?
    ensures var (m', c) := GetOrAlloc(m, f, i, user).value;
            && Progressed(m, own, m', own') && Grown(m.tables, m'.tables, f, i) && SameLeaves(own, m.tables, m'.tables)
            && c == FrameOf(Rd(m'.tables, f, i)) && c in own' && own'[c] == own[f] + [i]
            && (user ==> User(Rd(m'.tables, f, i)))
  {
    own' := StepKeeps(m, own, f, i, user);
    GrownSame(m, own, GetOrAlloc(m, f, i, user).value.0.tables, f, i);
  }

  lemma ProgressTransitive(m: Mem, own: Ways, m1: Mem, own1: Ways, m2: Mem, own2: Ways)
    requires Tree(m, own) && Progressed(m, own, m1, own1) && Progressed(m1, own1, m2, own2)
    ensures Progressed(m, own, m2, own2)
  {
    forall g, j | g in m.tables && (g in own ==> 1 <= |own[g]| && !Regular(own[g], j))
      ensures Rd(m2.tables, g, j) == Rd(m.tables, g, j)
    {
      assert g in m1.tables;
      assert g in own1 ==> g in own;
    }
  }

  /** The three steps from the root to the table that holds va's leaf. */
  lemma Descend(m: Mem, own: Ways, root: int, va: int, user: bool) returns (m3: Mem, own3: Ways, pt: int)
    requires Tree(m, own) && IsRoot(own, root) && Idx4(va) != HHDM_SLOT
    requires Map4k(m, root, va, 0, user, false).Some?
    ensures Progressed(m, own, m3, own3) && SameLeaves(own, m.tables, m3.tables)
    ensures pt in own3 && own3[pt] == [root, Idx4(va), Idx3(va), Idx2(va)] && pt == FrameOf(Word2(m3.tables, root, va))
    ensures Present(Word4(m3.tables, root, va)) && Present(Word3(m3.tables, root, va)) && Present(Word2(m3.tables, root, va))
    ensures user ==> User(Word4(m3.tables, root, va)) && User(Word3(m3.tables, root, va)) && User(Word2(m3.tables, root, va))
    ensures forall phys: u64, write :: Map4k(m, root, va, phys, user, write) ==
              Some(m3.(tables := Wr(m3.tables, pt, Idx1(va), LeafWord(phys, user, write))))
  {
    assert GoodBlocks(m.pool.ranges);
    hide Tree, SameLeaves, GetOrAlloc, LeafWord, Wr, FrameOf, Present, User, Idx4, Idx3, Idx2, Idx1;
    var (m1, f3) := GetOrAlloc(m, root, Idx4(va), user).value;
    var own1 := StepProgress(m, own, root, Idx4(va), user);
    assert own1[f3] == [root, Idx4(va)];
    var (m2, f2) := GetOrAlloc(m1, f3, Idx3(va), user).value;
    var own2 := StepProgress(m1, own1, f3, Idx3(va), user);
    assert own2[f2] == [root, Idx4(va), Idx3(va)];
    var r3 := GetOrAlloc(m2, f2, Idx2(va), user);
    own3 := StepProgress(m2, own2, f2, Idx2(va), user);
    m3, pt := r3.value.0, r3.value.1;
    assert own3[pt] == [root, Idx4(va), Idx3(va), Idx2(va)];
    DescendSame(m, own, m1, own1, m2, own2, m3, own3);
    assert own2[root] == [root] && own2[f3] == [root, Idx4(va)];
    DescendWords(m.tables, m1.tables, m2.tables, m3.tables, root, va, f3, f2, pt);
  }

  /** What the three steps leave on the way to va. */
  lemma DescendWords(t: Tables, t1: Tables, t2: Tables, t3: Tables, root: int, va: int, f3: int, f2: int, pt: int)
    requires Grown(t, t1, root, Idx4(va)) && f3 == FrameOf(Rd(t1, root, Idx4(va)))
    requires Grown(t1, t2, f3, Idx3(va)) && f2 == FrameOf(Rd(t2, f3, Idx3(va)))
    requires Grown(t2, t3, f2, Idx2(va)) && pt == FrameOf(Rd(t3, f2, Idx2(va)))
    requires root != f3 && root != f2 && f3 != f2
    ensures Word4(t3, root, va) == Rd(t1, root, Idx4(va)) && Word3(t3, root, va) == Rd(t2, f3, Idx3(va))
    ensures Word2(t3, root, va) == Rd(t3, f2, Idx2(va))
    ensures Present(Word4(t3, root, va)) && Present(Word3(t3, root, va)) && Present(Word2(t3, root, va))
  {
  }

  lemma DescendSame(m: Mem, own: Ways, m1: Mem, own1: Ways, m2: Mem, own2: Ways, m3: Mem, own3: Ways)
    requires Tree(m, own)
    requires Progressed(m, own, m1, own1) && SameLeaves(own, m.tables, m1.tables)
    requires Progressed(m1, own1, m2, own2) && SameLeaves(own1, m1.tables, m2.tables)
    requires Progressed(m2, own2, m3, own3) && SameLeaves(own2, m2.tables, m3.tables)
    ensures Progressed(m, own, m3, own3) && SameLeaves(own, m.tables, m3.tables)
  {
    ProgressTransitive(m, own, m1, own1, m2, own2);
    ProgressTransitive(m, own, m2, own2, m3, own3);
    SameTransitive(own, own1, m.tables, m1.tables, m2.tables);
    SameTransitive(own, own2, m.tables, m2.tables, m3.tables);
  }

  // ---- the leaf ----

  /** Writing a leaf changes the walk to that page of that address space and to no other. */
  lemma LeafWritten(m: Mem, own: Ways, root: int, va: int, w: int, r: int, vb: int)
    requires Tree(m, own) && IsRoot(own, root) && IsRoot(own, r) && Idx4(va) != HHDM_SLOT && Idx4(vb) != HHDM_SLOT
    requires Present(Word4(m.tables, root, va)) && Present(Word3(m.tables, root, va)) && Present(Word2(m.tables, root, va))
    requires Present(w)
    ensures var t := m.tables;
            var t' := Wr(t, FrameOf(Word2(t, root, va)), Idx1(va), w);
            && Leaf(t', r, vb) == (if r == root && PageAt(vb) == PageAt(va) then Some(w) else Leaf(t, r, vb))
            && Word4(t', r, vb) == Word4(t, r, vb)
            && (Present(Word4(t, r, vb)) ==> Word3(t', r, vb) == Word3(t, r, vb))
            && (Present(Word4(t, r, vb)) && Present(Word3(t, r, vb)) ==> Word2(t', r, vb) == Word2(t, r, vb))
  {
    WalkOwned(m, own, root, va);
    WalkOwned(m, own, r, vb);
    var t := m.tables;
    var pt := FrameOf(Word2(t, root, va));
    assert FrameOwned(t, own, pt) && |own[pt]| == 4;
    var t' := Wr(t, pt, Idx1(va), w);
    assert forall g, j :: (g != pt || j != Idx1(va)) ==> Rd(t', g, j) == Rd(t, g, j);
    assert Word4(t', r, vb) == Word4(t, r, vb);
    if Present(Word4(t, r, vb)) {
      assert Word3(t', r, vb) == Word3(t, r, vb);
      if Present(Word3(t, r, vb)) {
        assert Word2(t', r, vb) == Word2(t, r, vb);
        if Present(Word2(t, r, vb)) {
          var g := FrameOf(Word2(t, r, vb));
          if g == pt {
            assert own[g] == own[pt];
            assert own[g][0] == r && own[g][1] == Idx4(vb) && own[g][2] == Idx3(vb) && own[g][3] == Idx2(vb);
            assert own[pt][0] == root && own[pt][1] == Idx4(va) && own[pt][2] == Idx3(va) && own[pt][3] == Idx2(va);
          }
        }
      }
    }
  }

  lemma LeafKeepsTree(m: Mem, own: Ways, pt: int, i: int, w: int)
    requires Tree(m, own) && pt in own && |own[pt]| == 4 && Regular(own[pt], i)
    ensures Progressed(m, own, m.(tables := Wr(m.tables, pt, i, w)), own)
  {
    var m' := m.(tables := Wr(m.tables, pt, i, w));
    assert FrameOwned(m.tables, own, pt);
    assert forall f :: f in own ==> FrameOwned(m.tables, own, f);
    forall f, j | f in own && |own[f]| < 4 && 0 <= j < ENTRIES && Regular(own[f], j) ensures EntryOk(m'.tables, own, f, j) {
      assert EntryOk(m.tables, own, f, j);
    }
  }

  /** What mapping (root, page of va) to word w makes of the leaf of (r, vb). */
  ghost predicate LeafAfter(own: Ways, t: Tables, t': Tables, root: int, va: int, w: int, r: int, vb: int) {
    && Leaf(t', r, vb) == (if r == root && PageAt(vb) == PageAt(va) then Some(w) else Leaf(t, r, vb))
    && (UserWay(t, r, vb) || (r == root && PageAt(vb) == PageAt(va)) ==> UserWay(t', r, vb))
  }

  lemma LeafStep(m: Mem, own: Ways, m3: Mem, own3: Ways, root: int, va: int, w: int, r: int, vb: int)
    requires Tree(m3, own3) && IsRoot(own3, root) && IsRoot(own3, r) && Idx4(va) != HHDM_SLOT && Idx4(vb) != HHDM_SLOT
    requires var t3 := m3.tables;
             && Present(Word4(t3, root, va)) && Present(Word3(t3, root, va)) && Present(Word2(t3, root, va)) && Present(w)
             && (User(w) ==> User(Word4(t3, root, va)) && User(Word3(t3, root, va)) && User(Word2(t3, root, va)))
             && Leaf(t3, r, vb) == Leaf(m.tables, r, vb) && (UserWay(m.tables, r, vb) ==> UserWay(t3, r, vb))
    ensures LeafAfter(own, m.tables, Wr(m3.tables, FrameOf(Word2(m3.tables, root, va)), Idx1(va), w), root, va, w, r, vb)
  {
    LeafWritten(m3, own3, root, va, w, r, vb);
  }

  /** Mapping a page: that page of that address space leads to the given frame with the given rights, every
      other page of every address space translates as before, and the tables are still a forest. */
  lemma Map4kCorrect(m: Mem, own: Ways, root: int, va: int, phys: u64, user: bool, write: bool) returns (own': Ways)
    requires Tree(m, own) && IsRoot(own, root) && Idx4(va) != HHDM_SLOT && phys < TWO_52
    requires Map4k(m, root, va, phys, user, write).Some?
    ensures var m' := Map4k(m, root, va, phys, user, write).value;
            && Progressed(m, own, m', own')
            && forall r, vb: int {:trigger LeafAfter(own, m.tables, m'.tables, root, va, LeafWord(phys, user, write), r, vb)} ::
                 IsRoot(own, r) && Idx4(vb) != HHDM_SLOT ==>
                   LeafAfter(own, m.tables, m'.tables, root, va, LeafWord(phys, user, write), r, vb)
  {
    assert GoodBlocks(m.pool.ranges) && Map4k(m, root, va, 0, user, false).Some?;
    hide Map4k, Tree, SameLeaves, Progressed, LeafAfter, Word4, Word3, Word2, FrameOf;
    var m3, own3, pt := Descend(m, own, root, va, user);
    own' := own3;
    var w := LeafWord(phys, user, write);
    WordParts(PageDown(phys), user, write);
    MapEnd(m, own, m3, own3, root, va, w);
    assert Map4k(m, root, va, phys, user, write) == Some(m3.(tables := Wr(m3.tables, pt, Idx1(va), w)));
  }

  lemma MapEnd(m: Mem, own: Ways, m3: Mem, own3: Ways, root: int, va: int, w: int)
    requires Tree(m, own) && IsRoot(own, root) && Idx4(va) != HHDM_SLOT && Present(w)
    requires Progressed(m, own, m3, own3) && SameLeaves(own, m.tables, m3.tables)
    requires var t3 := m3.tables;
             && Present(Word4(t3, root, va)) && Present(Word3(t3, root, va)) && Present(Word2(t3, root, va))
             && (User(w) ==> User(Word4(t3, root, va)) && User(Word3(t3, root, va)) && User(Word2(t3, root, va)))
    ensures var m' := m3.(tables := Wr(m3.tables, FrameOf(Word2(m3.tables, root, va)), Idx1(va), w));
            && Progressed(m, own, m', own3)
            && forall r, vb: int {:trigger LeafAfter(own, m.tables, m'.tables, root, va, w, r, vb)} ::
                 IsRoot(own, r) && Idx4(vb) != HHDM_SLOT ==> LeafAfter(own, m.tables, m'.tables, root, va, w, r, vb)
  {
    var pt := FrameOf(Word2(m3.tables, root, va));
    var m' := m3.(tables := Wr(m3.tables, pt, Idx1(va), w));
    assert IsRoot(own3, root);
    WalkOwned(m3, own3, root, va);
    LeafKeepsTree(m3, own3, pt, Idx1(va), w);
    ProgressTransitive(m, own, m3, own3, m', own3);
    forall r, vb: int | IsRoot(own, r) && Idx4(vb) != HHDM_SLOT
      ensures LeafAfter(own, m.tables, m'.tables, root, va, w, r, vb)
    {
      assert IsRoot(own3, r);
      assert Leaf(m3.tables, r, vb) == Leaf(m.tables, r, vb);
      LeafStep(m, own, m3, own3, root, va, w, r, vb);
    }
  }

  // ---- the user walk ----

  /** The kernel's walk for user pointers, the loader's walk and the processor's walk: on every address outside the
      direct-map slot the first finds something exactly where a page was mapped for user mode, and then the second
      finds the same byte. The third agrees exactly where the address is canonical or nothing is found. */
  lemma WalksAgree(m: Mem, own: Ways, root: int, va: int)
    requires Tree(m, own) && IsRoot(own, root) && Idx4(va) != HHDM_SLOT && UserWay(m.tables, root, va)
    ensures var t := m.tables;
            && (VirtToPhys(t, root, va).Some? <==> Leaf(t, root, va).Some? && User(Leaf(t, root, va).value))
            && (VirtToPhys(t, root, va).Some? ==> VirtToPhys(t, root, va) == Translate4k(t, root, va))
            && (HardwareUserWalk(t, root, va) == VirtToPhys(t, root, va) <==> CanonicalAddress(va) || VirtToPhys(t, root, va).None?)
  {
    WalkOwned(m, own, root, va);
    assert FrameOwned(m.tables, own, root);
    if Present(Word2(m.tables, root, va)) && Present(Word3(m.tables, root, va)) && Present(Word4(m.tables, root, va)) {
      var c := FrameOf(Word2(m.tables, root, va));
      WordParts(c, false, true);
      WordParts(c, true, true);
    }
  }

  /** Both walks in terms of the leaf entry. */
  lemma WalksByLeaf(m: Mem, own: Ways, root: int, va: int)
    requires Tree(m, own) && IsRoot(own, root) && Idx4(va) != HHDM_SLOT && UserWay(m.tables, root, va)
    ensures var (t, leaf) := (m.tables, Leaf(m.tables, root, va));
            && Translate4k(t, root, va) == (if leaf.None? then None else Some(FrameOf(leaf.value) + va % PAGE_SIZE))
            && VirtToPhys(t, root, va) ==
                 if leaf.Some? && User(leaf.value) then Some(FrameOf(leaf.value) + va % PAGE_SIZE) else None
  {
    WalksAgree(m, own, root, va);
  }

  // ---- every sequence of mappings ----

  datatype MapCall = MapCall(root: int, va: int, phys: u64, user: bool, write: bool)

  ghost predicate CallOk(own: Ways, c: MapCall) { IsRoot(own, c.root) && Idx4(c.va) != HHDM_SLOT && c.phys < TWO_52 }

  predicate Names(c: MapCall, r: int, vb: int) { c.root == r && PageAt(c.va) == PageAt(vb) }

  ghost predicate Maps(m: Mem, c: MapCall, m': Mem) {
    GoodBlocks(m.pool.ranges) && Map4k(m, c.root, c.va, c.phys, c.user, c.write) == Some(m')
  }

  /** One call after the other, all of which found the frames for their tables. */
  ghost predicate MapRun(ms: seq<Mem>, cs: seq<MapCall>) {
    |ms| == |cs| + 1 && forall i :: 0 <= i < |cs| ==> Maps(ms[i], cs[i], ms[i + 1])
  }

  /** The last call that named the page of the address. */
  function LastNaming(cs: seq<MapCall>, r: int, vb: int): Option<MapCall> {
    if cs == [] then None
    else if Names(cs[|cs| - 1], r, vb) then Some(cs[|cs| - 1])
    else LastNaming(cs[..|cs| - 1], r, vb)
  }

  /** What the tables say of an address after some calls: the last call that named its page decides alone. */
  ghost predicate Decided(t: Tables, t': Tables, c: Option<MapCall>, r: int, vb: int) {
    match c
    case None =>
      && Leaf(t', r, vb) == Leaf(t, r, vb) && Translate4k(t', r, vb) == Translate4k(t, r, vb)
      && VirtToPhys(t', r, vb) == VirtToPhys(t, r, vb)
    case Some(c) =>
      && Leaf(t', r, vb) == Some(LeafWord(c.phys, c.user, c.write))
      && Translate4k(t', r, vb) == Some(PageDown(c.phys) + vb % PAGE_SIZE)
      && VirtToPhys(t', r, vb) == if c.user then Some(PageDown(c.phys) + vb % PAGE_SIZE) else None
  }

  /** The tables of all address spaces are a flat map from pages to the arguments of the last call: after every sequence
      of mappings, in whatever roots, both walks find at each address what the last call that named its page said, and
      what they found before where no call did. */
  lemma {:induction false} LastMappingDecides(ms: seq<Mem>, own: Ways, cs: seq<MapCall>, r: int, vb: int) returns (own': Ways)
    requires MapRun(ms, cs) && Tree(ms[0], own) && (forall i :: 0 <= i < |cs| ==> CallOk(own, cs[i]))
    requires IsRoot(own, r) && Idx4(vb) != HHDM_SLOT && UserWay(ms[0].tables, r, vb)
    ensures Tree(ms[|cs|], own') && (forall q :: IsRoot(own, q) <==> IsRoot(own', q)) && UserWay(ms[|cs|].tables, r, vb)
    ensures Decided(ms[0].tables, ms[|cs|].tables, LastNaming(cs, r, vb), r, vb)
  {
    hide Maps, Tree, UserWay, Decided, IsRoot, Idx4, Names;
    own' := own;
    if cs == [] {
      NothingDecided(ms[0].tables, r, vb);
    } else {
      var n := |cs| - 1;
      forall i | 0 <= i < n ensures Maps(ms[..n + 1][i], cs[..n][i], ms[..n + 1][i + 1]) {
        assert Maps(ms[i], cs[i], ms[i + 1]);
      }
      own' := LastMappingDecides(ms[..n + 1], own, cs[..n], r, vb);
      assert CallOk(own, cs[n]) && CallOk(own', cs[n]);
      own' := OneMoreCall(ms[0].tables, ms[n], own', cs[n], ms[n + 1], LastNaming(cs[..n], r, vb), r, vb);
    }
  }

  lemma NothingDecided(t: Tables, r: int, vb: int)
    ensures Decided(t, t, None, r, vb)
  {
  }

  lemma OneMoreCall(t: Tables, m: Mem, own: Ways, c: MapCall, m': Mem, before: Option<MapCall>, r: int, vb: int)
    returns (own': Ways)
    requires Maps(m, c, m') && Tree(m, own) && CallOk(own, c) && IsRoot(own, r) && Idx4(vb) != HHDM_SLOT
    requires UserWay(m.tables, r, vb) && Decided(t, m.tables, before, r, vb)
    ensures Tree(m', own') && (forall q :: IsRoot(own, q) <==> IsRoot(own', q)) && UserWay(m'.tables, r, vb)
    ensures Decided(t, m'.tables, if Names(c, r, vb) then Some(c) else before, r, vb)
  {
    hide Map4k, Tree, UserWay, VirtToPhys, Translate4k, Leaf, FrameOf, User, PageAt, Idx4, PageDown, LeafWord;
    own' := OneLeafAfter(m, own, c, r, vb);
    WalksByLeaf(m, own, r, vb);
    WalksByLeaf(m', own', r, vb);
    LeafWordParts(c.phys, c.user, c.write);
  }

  lemma LeafWordParts(phys: u64, user: bool, write: bool)
    requires phys < TWO_52
    ensures var w := LeafWord(phys, user, write); FrameOf(w) == PageDown(phys) && (User(w) <==> user)
  {
    WordParts(PageDown(phys), user, write);
  }

  lemma OneLeafAfter(m: Mem, own: Ways, c: MapCall, r: int, vb: int) returns (own': Ways)
    requires Tree(m, own) && CallOk(own, c) && IsRoot(own, r) && Idx4(vb) != HHDM_SLOT && UserWay(m.tables, r, vb)
    requires GoodBlocks(m.pool.ranges) && Map4k(m, c.root, c.va, c.phys, c.user, c.write).Some?
    ensures var m' := Map4k(m, c.root, c.va, c.phys, c.user, c.write).value;
            && Tree(m', own') && (forall q :: IsRoot(own, q) <==> IsRoot(own', q)) && UserWay(m'.tables, r, vb)
            && Leaf(m'.tables, r, vb) ==
                 if Names(c, r, vb) then Some(LeafWord(c.phys, c.user, c.write)) else Leaf(m.tables, r, vb)
  {
    hide Map4k, Tree, UserWay, Leaf, LeafWord, PageAt, Idx4;
    own' := Map4kCorrect(m, own, c.root, c.va, c.phys, c.user, c.write);
    ghost var m' := Map4k(m, c.root, c.va, c.phys, c.user, c.write).value;
    assert LeafAfter(own, m.tables, m'.tables, c.root, c.va, LeafWord(c.phys, c.user, c.write), r, vb);
  }
}
