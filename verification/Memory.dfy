/** The memory manager: the frame allocator, page-table walks, and creating,
    copying and destroying address spaces. */
module MemoryManager {
  import opened Bytes
  import opened Bitmaps
  import opened PageTables
  import opened FrameCount

  // The frames with a mark are exactly the owned ones.
  ghost predicate Marks(g: Geo, ones: set<nat>, owner: map<nat, Role>) {
    forall f: nat {:trigger f in owner} :: Managed(g, f) ==> (f in owner <==> f - g.base in ones)
  }

  // The directory or a table of address space d.
  ghost predicate TableOf(r: Role, f: nat, d: nat) {
    (r == Dir && f == d) || (r.Tab? && r.d == d)
  }

  // From m0 to m: what was allocated kept its role and, but for the tables of
  // address space d, its bytes; what came is loose or belongs to d.
  ghost predicate Grew(m0: Mem, m: Mem, d: nat, loose: set<nat>) {
    && |m.ram| == |m0.ram|
    && (forall f: nat {:trigger f in m0.owner} :: f in m0.owner ==>
          IsOwned(m, f, m0.owner[f]) && (f < |m.ram| ==> TableOf(m0.owner[f], f, d) || m.ram[f] == m0.ram[f]))
    && (forall f: nat {:trigger f in m.owner} :: f in m.owner && f !in m0.owner ==>
          if f in loose then m.owner[f] == Loose else BelongsTo(m.owner[f], f, d))
  }

  ghost predicate SpacesKept(m: Mem, m': Mem) {
    |m'.ram| == |m.ram| && forall d: nat {:trigger IsOwned(m, d, Dir)} :: IsOwned(m, d, Dir) && d < |m.ram| ==>
      SameSpace(m, m', d)
  }

  ghost predicate EmptySpace(m: Mem, d: nat) {
    d < |m.ram| && forall v {:trigger Space(m, d, v)} :: FIRST_PAGE <= v < LAST_PAGE ==> Space(m, d, v) == 0
  }

  lemma SameRam(m: Mem, m': Mem, d: nat)
    requires m'.ram == m.ram && d < |m.ram|
    ensures SameSpace(m, m', d)
  {
  }

  lemma SpaceTrans(m: Mem, n: Mem, m': Mem, d: nat)
    requires d < |m.ram| == |n.ram| == |m'.ram| && SameSpace(m, n, d) && SameSpace(n, m', d)
    ensures SameSpace(m, m', d)
  {
    hide Space;
    forall v | FIRST_PAGE <= v < LAST_PAGE ensures Space(m', d, v) == Space(m, d, v) {
      assert Space(m', d, v) == Space(n, d, v) && Space(n, d, v) == Space(m, d, v);
    }
  }

  // A fresh address space.
  ghost predicate Created(g: Geo, m: Mem, m': Mem, d: nat) {
    && Inv(g, m') && Managed(g, d) && d !in m.owner && IsOwned(m', d, Dir)
    && Grew(m, m', d, {}) && SpacesKept(m, m') && EmptySpace(m', d)
  }

  lemma DirCreated(g: Geo, m: Mem, d: nat, fr: Frame)
    requires Inv(g, m) && Managed(g, d) && d !in m.owner && IsFreshDir(fr, m.ram[g.kdir])
    ensures d < |m.ram| && Created(g, m, WithDir(Claimed(m, d), d, fr), d)
  {
    hide Word, RoleOk, KernelOk;
    ClaimKeeps(g, m, d);
    DirKeeps(g, Claimed(m, d), d, fr);
    var m' := WithDir(Claimed(m, d), d, fr);
    assert EmptySpace(m', d) by {
      forall v | FIRST_PAGE <= v < LAST_PAGE ensures Space(m', d, v) == 0 {
        assert Word(fr, v / ENTRIES) == 0;
      }
    }
    forall x: nat | IsOwned(m, x, Dir) && x < |m.ram| ensures SameSpace(m, m', x) {
      BytesSpace(g, Claimed(m, d), d, fr, x);
      SameRam(m, Claimed(m, d), x);
      SameRam(WithBytes(Claimed(m, d), d, fr), m', x);
      SpaceTrans(m, Claimed(m, d), WithBytes(Claimed(m, d), d, fr), x);
      SpaceTrans(m, WithBytes(Claimed(m, d), d, fr), m', x);
    }
  }

  // The outcome of looking for the table of entry i of directory d.
  ghost predicate PteFound(g: Geo, m: Mem, m': Mem, d: nat, i: nat, alloc: bool, ok: bool, t: nat)
    requires i < ENTRIES
  {
    && Inv(g, m') && IsOwned(m', d, Dir) && d < |m.ram| && Grew(m, m', d, {}) && SpacesKept(m, m')
    && (ok ==>
          Managed(g, t) && IsOwned(m', t, Tab(d, i)) && Present(Word(m'.ram[d], i)) && FrameOf(Word(m'.ram[d], i)) == t
          && MayWrite(Word(m'.ram[d], i)) && MayUse(Word(m'.ram[d], i)))
    && (!ok ==> m' == m && !Present(Word(m.ram[d], i)) && (alloc ==> Full(g, m)))
    && (!alloc ==> m' == m)
  }

  lemma PteThere(g: Geo, m: Mem, d: nat, i: nat, alloc: bool)
    requires Inv(g, m) && IsOwned(m, d, Dir) && USER <= i < ENTRIES
    requires d < |m.ram| && (Present(Word(m.ram[d], i)) || !alloc || Full(g, m))
    ensures PteFound(g, m, m, d, i, alloc, Present(Word(m.ram[d], i)), FrameOf(Word(m.ram[d], i)))
  {
    hide Word, KernelOk;
    assert Managed(g, d) && RoleOk(g, m, d);
    if Present(Word(m.ram[d], i)) {
      assert IsOwned(m, FrameOf(Word(m.ram[d], i)), Tab(d, i));
      assert Managed(g, FrameOf(Word(m.ram[d], i))) && RoleOk(g, m, FrameOf(Word(m.ram[d], i)));
    }
  }

  lemma PteMade(g: Geo, m: Mem, d: nat, i: nat, t: nat)
    requires Inv(g, m) && IsOwned(m, d, Dir) && USER <= i < ENTRIES
    requires d < |m.ram| && !Present(Word(m.ram[d], i)) && Managed(g, t) && t !in m.owner
    ensures PteFound(g, m, WithTab(Claimed(m, t), d, i, t), d, i, true, true, t)
  {
    hide Word, RoleOk, KernelOk;
    assert Managed(g, d);
    var c := Claimed(m, t);
    ClaimKeeps(g, m, t);
    TabKeeps(g, c, d, i, t);
    EntryFields(t, TABLE_PERM);
    EntryBits(t, TABLE_PERM);
    var m' := WithTab(c, d, i, t);
    forall x: nat | IsOwned(m, x, Dir) && x < |m.ram| ensures SameSpace(m, m', x) {
      TabSpace(g, c, d, i, t, x);
      SameRam(m, c, x);
      SpaceTrans(m, c, m', x);
    }
  }

  // What it costs: one frame when the table is new.
  ghost predicate PteCounted(m: Mem, m': Mem, d: nat, i: nat, ok: bool)
    requires i < ENTRIES
  {
    && d < |m.ram| == |m'.ram| && |m'.owner| == |m.owner| + (if ok then TableFor(m, d, i) else 0)
    && forall k: nat {:trigger HasTable(m', d, k)} :: k < ENTRIES ==>
         (HasTable(m', d, k) <==> HasTable(m, d, k) || (ok && k == i))
  }

  lemma PteThereCounts(m: Mem, d: nat, i: nat)
    requires d < |m.ram| && i < ENTRIES
    ensures PteCounted(m, m, d, i, HasTable(m, d, i))
  {
  }

  lemma PteMadeCounts(g: Geo, m: Mem, d: nat, i: nat, t: nat)
    requires i < ENTRIES && d < |m.ram| && t < |m.ram| <= 0x10_0000 && t != d && !HasTable(m, d, i) && t !in m.owner
    ensures PteCounted(m, WithTab(Claimed(m, t), d, i, t), d, i, true)
  {
    hide Word;
    EntryFields(t, TABLE_PERM);
    ClaimCounts(g, m, t);
    RoleCounts(Claimed(m, t).owner, t, Tab(d, i));
  }

  // Pages v0 .. v0 + n of address space d now map the frames p .. p + n; every
  // other page, role and byte is as it was, but for tables that d has gained.
  ghost predicate MapDone(g: Geo, m: Mem, m': Mem, d: nat, v0: nat, p: nat, perm: nat, n: nat)
    requires perm < 0x1000
  {
    && Inv(g, m') && |m'.ram| == |m.ram|
    && (forall x: nat {:trigger IsOwned(m, x, Dir)} :: IsOwned(m, x, Dir) && x < |m.ram| ==>
          IsOwned(m', x, Dir) && SpaceAfter(m, m', x, d, v0, p, perm, n))
    && (forall f: nat {:trigger f in m.owner} :: f in m.owner ==>
          && (if p <= f < p + n then f in m'.owner && m'.owner[f].Leaf? else IsOwned(m', f, m.owner[f]))
          && (f < |m.ram| ==> TableOf(m.owner[f], f, d) || m'.ram[f] == m.ram[f]))
    && (forall f: nat {:trigger f in m'.owner} :: f in m'.owner && (f !in m.owner || p <= f < p + n) ==>
          BelongsTo(m'.owner[f], f, d))
  }

  ghost predicate SpaceAfter(m: Mem, m': Mem, x: nat, d: nat, v0: nat, p: nat, perm: nat, n: nat)
    requires perm < 0x1000 && x < |m.ram| == |m'.ram|
  {
    forall v {:trigger Space(m', x, v)} :: FIRST_PAGE <= v < LAST_PAGE ==>
      Space(m', x, v) == if x == d && v0 <= v < v0 + n then Entry(p + v - v0, perm) else Space(m, x, v)
  }

  lemma MapNone(g: Geo, m: Mem, d: nat, v0: nat, p: nat, perm: nat)
    requires Inv(g, m) && perm < 0x1000
    ensures MapDone(g, m, m, d, v0, p, perm, 0)
  {
    hide Inv, Space;
  }

  // The entry of page v set in table t.
  ghost predicate OneMapped(g: Geo, c: Mem, m': Mem, d: nat, v: nat, p: nat, perm: nat)
    requires perm < 0x1000
  {
    && Inv(g, m') && |m'.ram| == |c.ram| && Managed(g, p)
    && (forall x: nat {:trigger IsOwned(c, x, Dir)} :: IsOwned(c, x, Dir) && x < |c.ram| ==>
          SpaceAfter(c, m', x, d, v, p, perm, 1))
    && m'.owner == c.owner[p := Leaf(d, v / ENTRIES, v % ENTRIES)]
    && (forall f: nat {:trigger f in c.owner} :: f in c.owner && f < |c.ram| ==>
          TableOf(c.owner[f], f, d) || m'.ram[f] == c.ram[f])
  }

  lemma LeafIsMapped(g: Geo, c: Mem, d: nat, v: nat, t: nat, p: nat, perm: nat)
    requires Inv(g, c) && IsOwned(c, d, Dir) && d < |c.ram| && FIRST_PAGE <= v < LAST_PAGE && perm < 0x1000
    requires Managed(g, t) && IsOwned(c, t, Tab(d, v / ENTRIES)) && Present(Word(c.ram[d], v / ENTRIES))
    requires FrameOf(Word(c.ram[d], v / ENTRIES)) == t
    requires IsOwned(c, p, Loose) && !Present(Space(c, d, v))
    ensures t < |c.ram| && p < 0x10_0000 && Space(c, d, v) == Word(c.ram[t], v % ENTRIES)
    ensures OneMapped(g, c, WithLeaf(c, d, v / ENTRIES, v % ENTRIES, t, p, perm), d, v, p, perm)
  {
    hide Word, RoleOk, KernelOk;
    assert Managed(g, p);
    var i, j := v / ENTRIES, v % ENTRIES;
    LeafKeeps(g, c, d, i, j, t, p, perm);
    var m' := WithLeaf(c, d, i, j, t, p, perm);
    forall x: nat | IsOwned(c, x, Dir) && x < |c.ram| ensures SpaceAfter(c, m', x, d, v, p, perm, 1) {
      LeafSpace(g, c, d, i, j, t, p, perm, x);
      hide Space, Inv;
    }
  }

  // One more page: find_pte has gone from n to c, and c's entry is then set.
  lemma MapOneMore(g: Geo, m: Mem, n: Mem, c: Mem, m': Mem, d: nat, v0: nat, p: nat, perm: nat, k: nat, t: nat)
    requires perm < 0x1000 && MapDone(g, m, n, d, v0, p, perm, k) && IsOwned(m, d, Dir)
    requires FIRST_PAGE <= v0 && v0 + k < LAST_PAGE && d < |m.ram|
    requires PteFound(g, n, c, d, (v0 + k) / ENTRIES, true, true, t)
    requires IsOwned(m, p + k, Loose) && p + k < |m.ram| && OneMapped(g, c, m', d, v0 + k, p + k, perm)
    ensures MapDone(g, m, m', d, v0, p, perm, k + 1)
  {
    hide Inv, Space, Word;
    forall x: nat | IsOwned(m, x, Dir) && x < |m.ram|
      ensures IsOwned(m', x, Dir) && SpaceAfter(m, m', x, d, v0, p, perm, k + 1)
    {
      assert IsOwned(n, x, Dir) && SpaceAfter(m, n, x, d, v0, p, perm, k);
      assert x in n.owner && IsOwned(c, x, Dir) && SameSpace(n, c, x)
        && SpaceAfter(c, m', x, d, v0 + k, p + k, perm, 1);
      forall v | FIRST_PAGE <= v < LAST_PAGE
        ensures Space(m', x, v) == if x == d && v0 <= v < v0 + k + 1 then Entry(p + v - v0, perm) else Space(m, x, v)
      {
        assert Space(c, x, v) == Space(n, x, v);
      }
    }
    hide SpaceAfter, SameSpace;
    forall f: nat | f in m.owner
      ensures if p <= f < p + k + 1 then f in m'.owner && m'.owner[f].Leaf? else IsOwned(m', f, m.owner[f])
      ensures f < |m.ram| ==> TableOf(m.owner[f], f, d) || m'.ram[f] == m.ram[f]
    {
      assert f in n.owner && f in c.owner;
    }
    forall f: nat | f in m'.owner && (f !in m.owner || p <= f < p + k + 1) ensures BelongsTo(m'.owner[f], f, d) {
      if f != p + k {
        assert f in c.owner;
        if f in n.owner { assert IsOwned(c, f, n.owner[f]); }
      }
    }
  }

  // What find_pte leaves for the frame and the page about to be mapped.
  lemma MapReady(g: Geo, m: Mem, n: Mem, c: Mem, d: nat, v0: nat, p: nat, perm: nat, k: nat, t: nat)
    requires perm < 0x1000 && MapDone(g, m, n, d, v0, p, perm, k) && IsOwned(m, d, Dir)
    requires FIRST_PAGE <= v0 && v0 + k < LAST_PAGE && d < |m.ram|
    requires PteFound(g, n, c, d, (v0 + k) / ENTRIES, true, true, t)
    requires IsOwned(m, p + k, Loose) && p + k < |m.ram| && !Present(Space(m, d, v0 + k))
    ensures IsOwned(c, p + k, Loose) && !Present(Space(c, d, v0 + k)) && Inv(g, c) && IsOwned(c, d, Dir)
    ensures |c.ram| == |m.ram| && Managed(g, t) && IsOwned(c, t, Tab(d, (v0 + k) / ENTRIES))
    ensures Present(Word(c.ram[d], (v0 + k) / ENTRIES)) && FrameOf(Word(c.ram[d], (v0 + k) / ENTRIES)) == t
  {
    hide Inv, Space, Word;
    assert IsOwned(n, d, Dir) && SpaceAfter(m, n, d, d, v0, p, perm, k) && SameSpace(n, c, d);
    assert Space(c, d, v0 + k) == Space(n, d, v0 + k) == Space(m, d, v0 + k);
    assert p + k in m.owner && IsOwned(n, p + k, Loose);
  }

  lemma PteNotFound(g: Geo, n: Mem, c: Mem, d: nat, i: nat, t: nat)
    requires i < ENTRIES && PteFound(g, n, c, d, i, true, false, t)
    ensures c == n && Full(g, n) && d < |n.ram| && !HasTable(n, d, i)
  {
  }

  lemma MapCounts(m: Mem, n: Mem, c: Mem, d: nat, v0: nat, k: nat)
    requires d < |m.ram| && v0 + k < LAST_PAGE && Counted(m, n, d, v0, k, 0)
    requires PteCounted(n, c, d, (v0 + k) / ENTRIES, true)
    ensures Counted(m, c, d, v0, k + 1, 0)
  {
    hide HasTable, Missing;
    CountOneMore(m, n, c, d, v0, k, 0);
  }

  lemma LeafCounts(m: Mem, c: Mem, d: nat, v0: nat, k: nat, i: nat, j: nat, t: nat, p: nat, perm: nat)
    requires d < |m.ram| && v0 + k <= LAST_PAGE && Counted(m, c, d, v0, k, 0)
    requires t < |c.ram| && p < 0x10_0000 && j < ENTRIES && perm < 0x1000 && IsOwned(c, t, Tab(d, i))
      && IsOwned(c, d, Dir)
    requires p in c.owner
    ensures Counted(m, WithLeaf(c, d, i, j, t, p, perm), d, v0, k, 0)
  {
    hide Word, PutWord, Missing, HasTable, Counted;
    RoleCounts(c.owner, p, Leaf(d, i, j));
    CountRam(m, c, d, v0, k, 0);
    CountKept(m, c, WithLeaf(c, d, i, j, t, p, perm), d, v0, k, 0, 0);
  }

  lemma CountRam(m: Mem, c: Mem, d: nat, v0: nat, k: nat, more: nat)
    requires d < |m.ram| && v0 + k <= LAST_PAGE && Counted(m, c, d, v0, k, more)
    ensures |c.ram| == |m.ram|
  {
  }

  // The frames did not reach for a table.
  lemma MapTooBig(g: Geo, m: Mem, c: Mem, d: nat, v0: nat, n: nat, count: nat)
    requires d < |m.ram| && n < count && v0 + count <= LAST_PAGE && Counted(m, c, d, v0, n, 0)
    requires GeoOk(g, c) && Full(g, c) && d < |c.ram| && !HasTable(c, d, (v0 + n) / ENTRIES)
    ensures Free(g, m) < |Missing(m, d, v0, count)|
  {
    hide HasTable, Missing, Full;
    FullIsNoneFree(g, c);
    MissingOneMore(m, c, d, v0, n, 0);
    MissingMonotone(m, d, v0, n + 1, count);
  }

  lemma MapFits(g: Geo, m: Mem, c: Mem, d: nat, v0: nat, n: nat)
    requires d < |m.ram| && v0 + n <= LAST_PAGE && Counted(m, c, d, v0, n, 0) && GeoOk(g, c)
    ensures |Missing(m, d, v0, n)| <= Free(g, m)
  {
    hide HasTable, Missing;
    FullIsNoneFree(g, c);
  }

  // A frame that changes its role keeps its mark.
  lemma AllMarked(g: Geo, ones: set<nat>, owner: map<nat, Role>)
    requires Marks(g, ones, owner) && forall k {:trigger k in ones} :: 0 <= k < g.count ==> k in ones
    ensures forall f: nat :: Managed(g, f) ==> f in owner
  {
    forall f: nat | Managed(g, f) ensures f in owner { assert f - g.base in ones; }
  }

  // The lowest index without a mark is the lowest free frame.
  lemma MarkedOne(g: Geo, ones: set<nat>, ones': set<nat>, owner: map<nat, Role>, k: nat)
    requires Marks(g, ones, owner) && k < g.count && k !in ones && ones' == ones + {k}
    requires forall i {:trigger i in ones} :: 0 <= i < k ==> i in ones
    ensures Managed(g, g.base + k) && g.base + k !in owner && Marks(g, ones', owner[g.base + k := Loose])
    ensures forall x: nat {:trigger x in owner} :: Managed(g, x) && x < g.base + k ==> x in owner
  {
    assert Managed(g, g.base + k);
    forall x: nat | Managed(g, x) && x < g.base + k ensures x in owner { assert x - g.base in ones; }
  }

  lemma RoleChangeKeepsMarks(g: Geo, ones: set<nat>, owner: map<nat, Role>, f: nat, r: Role)
    requires Marks(g, ones, owner) && f in owner
    ensures Marks(g, ones, owner[f := r])
  {
  }

  // While address space d is destroyed: its pages below n and its tables of
  // entries below i have lost their marks.
  ghost predicate Gone(r: Role, d: nat, n: nat, i: nat) {
    (r.Leaf? && r.d == d && r.i * ENTRIES + r.j < n) || (r.Tab? && r.d == d && r.i < i)
  }

  ghost predicate MarksLess(g: Geo, ones: set<nat>, m: Mem, d: nat, n: nat, i: nat) {
    forall f: nat {:trigger f in m.owner} :: Managed(g, f) ==>
      (f - g.base in ones <==> f in m.owner && !Gone(m.owner[f], d, n, i))
  }

  lemma DestroyBegins(g: Geo, m: Mem, ones: set<nat>, d: nat)
    requires Inv(g, m) && Marks(g, ones, m.owner)
    ensures MarksLess(g, ones, m, d, FIRST_PAGE, USER)
  {
    hide Word;
    forall f: nat | Managed(g, f)
      ensures f - g.base in ones <==> f in m.owner && !Gone(m.owner[f], d, FIRST_PAGE, USER)
    {
      if f in m.owner { assert RoleOk(g, m, f); }
    }
  }

  lemma DestroyEnds(g: Geo, m: Mem, ones: set<nat>, ones': set<nat>, d: nat)
    requires Inv(g, m) && IsOwned(m, d, Dir) && MarksLess(g, ones, m, d, LAST_PAGE, ENTRIES) && g.base <= d
    requires forall k {:trigger k in ones'} :: k in ones' <==> k in ones && k != d - g.base
    ensures Marks(g, ones', WithoutDir(m, d).owner)
  {
    hide Word;
    forall f: nat | Managed(g, f) ensures f in WithoutDir(m, d).owner <==> f - g.base in ones' {
      assert f - g.base in ones' <==> f - g.base in ones && f - g.base != d - g.base;
      if f in m.owner { assert RoleOk(g, m, f); }
    }
  }

  lemma NoTable(g: Geo, m: Mem, ones: set<nat>, d: nat, i: nat)
    requires Inv(g, m) && IsOwned(m, d, Dir) && USER <= i < ENTRIES && d < |m.ram| && !Present(Word(m.ram[d], i))
    requires MarksLess(g, ones, m, d, i * ENTRIES, i)
    ensures MarksLess(g, ones, m, d, (i + 1) * ENTRIES, i + 1)
  {
    hide Word;
    forall f: nat | Managed(g, f)
      ensures f - g.base in ones <==> f in m.owner && !Gone(m.owner[f], d, (i + 1) * ENTRIES, i + 1)
    {
      if f in m.owner { assert RoleOk(g, m, f); }
    }
  }

  lemma TableIsThere(g: Geo, m: Mem, d: nat, i: nat, t: nat, j: nat)
    requires Inv(g, m) && IsOwned(m, d, Dir) && Managed(g, d) && USER <= i < ENTRIES && j < ENTRIES
    requires Present(Word(m.ram[d], i)) && t == FrameOf(Word(m.ram[d], i))
    ensures Managed(g, t) && IsOwned(m, t, Tab(d, i))
    ensures Present(Word(m.ram[t], j)) ==>
      Managed(g, FrameOf(Word(m.ram[t], j))) && IsOwned(m, FrameOf(Word(m.ram[t], j)), Leaf(d, i, j))
  {
    hide Word;
    assert RoleOk(g, m, d);
    assert t in m.owner && Managed(g, t) && RoleOk(g, m, t);
    if Present(Word(m.ram[t], j)) { assert FrameOf(Word(m.ram[t], j)) in m.owner; }
  }

  lemma PageGone(g: Geo, m: Mem, ones: set<nat>, ones': set<nat>, d: nat, i: nat, t: nat, j: nat)
    requires Inv(g, m) && IsOwned(m, t, Tab(d, i)) && Managed(g, t) && USER <= i < ENTRIES && j < ENTRIES
    requires MarksLess(g, ones, m, d, i * ENTRIES + j, i)
    requires var w := Word(m.ram[t], j);
      if Present(w) then
        Managed(g, FrameOf(w)) && forall k {:trigger k in ones'} :: k in ones' <==>
          k in ones && k != FrameOf(w) - g.base
      else ones' == ones
    ensures MarksLess(g, ones', m, d, i * ENTRIES + j + 1, i)
  {
    hide Word;
    assert RoleOk(g, m, t);
    var w := Word(m.ram[t], j);
    forall f: nat | Managed(g, f)
      ensures f - g.base in ones' <==> f in m.owner && !Gone(m.owner[f], d, i * ENTRIES + j + 1, i)
    {
      assert Present(w) ==> (f - g.base in ones' <==> f - g.base in ones && f - g.base != FrameOf(w) - g.base);
      if f in m.owner { assert RoleOk(g, m, f); }
    }
  }

  lemma TableGone(g: Geo, m: Mem, ones: set<nat>, ones': set<nat>, d: nat, i: nat, t: nat)
    requires Inv(g, m) && IsOwned(m, t, Tab(d, i)) && Managed(g, t) && USER <= i < ENTRIES
    requires MarksLess(g, ones, m, d, (i + 1) * ENTRIES, i)
    requires forall k {:trigger k in ones'} :: k in ones' <==> k in ones && k != t - g.base
    ensures MarksLess(g, ones', m, d, (i + 1) * ENTRIES, i + 1)
  {
    hide Word;
    assert RoleOk(g, m, t);
    forall f: nat | Managed(g, f)
      ensures f - g.base in ones' <==> f in m.owner && !Gone(m.owner[f], d, (i + 1) * ENTRIES, i + 1)
    {
      assert f - g.base in ones' <==> f - g.base in ones && f - g.base != t - g.base;
      if f in m.owner { assert RoleOk(g, m, f); }
    }
  }

  lemma MapInv(g: Geo, m: Mem, m': Mem, d: nat, v0: nat, p: nat, perm: nat, n: nat)
    requires perm < 0x1000 && MapDone(g, m, m', d, v0, p, perm, n)
    ensures Inv(g, m')
  {
  }

  lemma MapAccess(g: Geo, m: Mem, m': Mem, d: nat, v0: nat, p: nat, perm: nat, n: nat)
    requires perm < 0x1000 && MapDone(g, m, m', d, v0, p, perm, n) && IsOwned(m, d, Dir) && d < |m.ram|
    ensures d < |m'.ram| && AccessIs(m', d, v0, n, perm)
  {
    hide Inv, Space, Entry, AccessIs, FrameOf;
    assert IsOwned(m', d, Dir) && SpaceAfter(m, m', d, d, v0, p, perm, n);
    forall v | FIRST_PAGE <= v < LAST_PAGE && v0 <= v < v0 + n
      ensures Space(m', d, v) == Entry(FrameOf(Space(m', d, v)), perm)
    {
      EntryFields(p + v - v0, perm);
    }
    EntriesAccess(g, m', d, v0, n, perm);
  }

  lemma MapDir(g: Geo, m: Mem, m': Mem, d: nat, v0: nat, p: nat, perm: nat, n: nat)
    requires perm < 0x1000 && MapDone(g, m, m', d, v0, p, perm, n) && IsOwned(m, d, Dir) && d < |m.ram|
    ensures IsOwned(m', d, Dir) && |m'.ram| == |m.ram|
  {
    hide Inv, SpaceAfter;
  }

  lemma CreatedInv(g: Geo, m: Mem, m': Mem, d: nat)
    requires Created(g, m, m', d)
    ensures Inv(g, m')
  {
  }

  lemma CreatedCounts(g: Geo, m: Mem, d: nat, fr: Frame)
    requires d < |m.ram| && d !in m.owner && g.kdir < |m.ram| && IsFreshDir(fr, m.ram[g.kdir])
    ensures var m' := WithDir(Claimed(m, d), d, fr);
      && |m'.owner| == |m.owner| + 1
      && forall i: nat {:trigger HasTable(m', d, i)} :: USER <= i < ENTRIES ==> !HasTable(m', d, i)
  {
    hide Word;
    ClaimCounts(g, m, d);
    RoleCounts(Claimed(m, d).owner, d, Dir);
  }

  lemma PteInv(g: Geo, m: Mem, m': Mem, d: nat, i: nat, alloc: bool, ok: bool, t: nat)
    requires i < ENTRIES && PteFound(g, m, m', d, i, alloc, ok, t)
    ensures Inv(g, m')
  {
  }

  // ------------------------------------------------------------ copying an address space

  // Page v of the copy: mapped exactly when the original is, with the same
  // permission bits and the same bytes, in a frame that was free before.
  ghost predicate PageCopied(m0: Mem, m: Mem, d: nat, to: nat, v: nat)
    requires d < |m0.ram| == |m.ram| && to < |m.ram| && v < LAST_PAGE
  {
    var w, w' := Space(m0, d, v), Space(m, to, v);
    && (Present(w) <==> Present(w'))
    && (Present(w) ==>
          && Perm(w') == Perm(w) && FrameOf(w') !in m0.owner
          && FrameOf(w) < |m0.ram| && FrameOf(w') < |m.ram| && m.ram[FrameOf(w')] == m0.ram[FrameOf(w)])
  }

  // The pages below n are copied and the others are still unmapped.
  ghost predicate Copied(m0: Mem, m: Mem, d: nat, to: nat, n: nat)
    requires d < |m0.ram| == |m.ram| && to < |m.ram|
  {
    forall v {:trigger Space(m, to, v)} :: FIRST_PAGE <= v < LAST_PAGE ==>
      if v < n then PageCopied(m0, m, d, to, v) else Space(m, to, v) == 0
  }

  ghost predicate Copying(g: Geo, m0: Mem, m: Mem, d: nat, to: nat, n: nat) {
    && Inv(g, m0) && Inv(g, m) && IsOwned(m0, d, Dir) && Managed(g, d)
    && to !in m0.owner && IsOwned(m, to, Dir) && Managed(g, to)
    && Grew(m0, m, to, {}) && SpacesKept(m0, m) && d < |m0.ram| && to < |m.ram| && Copied(m0, m, d, to, n)
  }

  lemma CopyBegins(g: Geo, m0: Mem, m: Mem, d: nat, to: nat)
    requires Inv(g, m0) && IsOwned(m0, d, Dir) && Created(g, m0, m, to)
    ensures Copying(g, m0, m, d, to, FIRST_PAGE)
  {
    hide Space, RoleOk, KernelOk;
    assert Managed(g, d);
  }

  // User code may do with the pages of the copy what it may do with the original's:
  // the low nine bits of the entries are the same.
  ghost predicate SameAccess(m0: Mem, m: Mem, d: nat, to: nat)
    requires d < |m0.ram| && to < |m.ram|
  {
    forall v {:trigger UserReads(m, to, v)} {:trigger UserWrites(m, to, v)} :: FIRST_PAGE <= v < LAST_PAGE ==>
      && (UserReads(m, to, v) <==> UserReads(m0, d, v))
      && (UserWrites(m, to, v) <==> UserWrites(m0, d, v))
      && (UserReads(m, to, v) ==> Space(m, to, v) % 0x200 == Space(m0, d, v) % 0x200)
  }

  lemma CopyAccess(g: Geo, m0: Mem, m: Mem, d: nat, to: nat)
    requires Copying(g, m0, m, d, to, LAST_PAGE)
    ensures d < |m0.ram| && to < |m.ram| && SameAccess(m0, m, d, to)
  {
    hide Inv, Space, SpacesKept, MayUse, MayWrite, UserReads, UserWrites;
    forall v | FIRST_PAGE <= v < LAST_PAGE
      ensures UserReads(m, to, v) <==> UserReads(m0, d, v)
      ensures UserWrites(m, to, v) <==> UserWrites(m0, d, v)
      ensures UserReads(m, to, v) ==> Space(m, to, v) % 0x200 == Space(m0, d, v) % 0x200
    {
      assert |m.ram| == |m0.ram| && Space(m, to, v) >= 0 && PageCopied(m0, m, d, to, v);
      UserAccess(g, m0, d, v);
      UserAccess(g, m, to, v);
      PermBits(Space(m0, d, v));
      PermBits(Space(m, to, v));
    }
  }

  // A stretch of unmapped pages is copied by doing nothing.
  lemma CopySkips(g: Geo, m0: Mem, m: Mem, d: nat, to: nat, n: nat, n': nat)
    requires Copying(g, m0, m, d, to, n) && FIRST_PAGE <= n <= n' <= LAST_PAGE
    requires forall v {:trigger Space(m0, d, v)} :: n <= v < n' ==> !Present(Space(m0, d, v))
    ensures Copying(g, m0, m, d, to, n')
  {
    hide Space, Inv;
    forall v | FIRST_PAGE <= v < LAST_PAGE
      ensures if v < n' then PageCopied(m0, m, d, to, v) else Space(m, to, v) == 0
    {
      if n <= v < n' { assert !Present(Space(m0, d, v)) && Space(m, to, v) == 0; }
    }
  }

  // What was allocated before keeps its bytes, the tables of d too.
  lemma OldBytesKept(g: Geo, m0: Mem, m: Mem, to: nat, loose: set<nat>, f: nat)
    requires Inv(g, m0) && to !in m0.owner && Grew(m0, m, to, loose) && f in m0.owner
    ensures f < |m0.ram| == |m.ram| && m.ram[f] == m0.ram[f] && IsOwned(m, f, m0.owner[f])
  {
    hide Word;
    assert Managed(g, f) && RoleOk(g, m0, f);
  }

  // m0 has grown to m, a frame p was claimed in q, mapped in c and filled in m'.
  ghost predicate PageSteps(g: Geo, m0: Mem, m: Mem, q: Mem, c: Mem, m': Mem, d: nat, to: nat, v: nat, p: nat,
                            perm: nat, src: nat) {
    && Copying(g, m0, m, d, to, v) && FIRST_PAGE <= v < LAST_PAGE && perm < 0x1000
    && Managed(g, p) && p !in m.owner && q == Claimed(m, p)
    && MapDone(g, q, c, to, v, p, perm, 1)
    && src < |c.ram| && p < |c.ram| && m' == WithBytes(c, p, c.ram[src])
  }

  lemma CopyGrew(g: Geo, m0: Mem, m: Mem, q: Mem, c: Mem, m': Mem, d: nat, to: nat, v: nat, p: nat, perm: nat, src: nat)
    requires PageSteps(g, m0, m, q, c, m', d, to, v, p, perm, src)
    ensures Grew(m0, m', to, {})
  {
    hide Inv, Space, SpacesKept, Copied, SpaceAfter;
    forall f: nat | f in m0.owner
      ensures IsOwned(m', f, m0.owner[f]) && (f < |m'.ram| ==> TableOf(m0.owner[f], f, to) || m'.ram[f] == m0.ram[f])
    {
      assert f in m.owner && f in q.owner && IsOwned(c, f, q.owner[f]);
    }
    forall f: nat | f in m'.owner && f !in m0.owner ensures BelongsTo(m'.owner[f], f, to) {
      assert f in c.owner;
      if f != p && f in m.owner { assert f in q.owner && IsOwned(c, f, q.owner[f]); }
    }
  }

  lemma CopySpaces(g: Geo, m0: Mem, m: Mem, q: Mem, c: Mem, m': Mem, d: nat, to: nat, v: nat, p: nat, perm: nat,
                   src: nat)
    requires PageSteps(g, m0, m, q, c, m', d, to, v, p, perm, src) && Inv(g, c)
    requires IsOwned(c, p, Leaf(to, v / ENTRIES, v % ENTRIES))
    ensures SpacesKept(m0, m')
  {
    hide Inv, Space, Copied, Word;
    forall x: nat | IsOwned(m0, x, Dir) && x < |m0.ram| ensures SameSpace(m0, m', x) {
      assert x in m0.owner && IsOwned(m, x, Dir) && IsOwned(q, x, Dir) && x != to && x != p;
      assert IsOwned(c, x, Dir) && SpaceAfter(q, c, x, to, v, p, perm, 1);
      assert SameSpace(m0, m, x);
      SameRam(m, q, x);
      BytesSpace(g, c, p, c.ram[src], x);
      SpaceTrans(m0, m, q, x);
      assert SameSpace(q, c, x);
      SpaceTrans(m0, q, c, x);
      SpaceTrans(m0, c, m', x);
    }
  }

  lemma StillCopied(m0: Mem, m: Mem, m': Mem, d: nat, to: nat, v: nat)
    requires d < |m0.ram| == |m.ram| == |m'.ram| && to < |m.ram| && v < LAST_PAGE
    requires PageCopied(m0, m, d, to, v) && Space(m', to, v) == Space(m, to, v)
    requires var f := FrameOf(Space(m, to, v)); Present(Space(m, to, v)) && f < |m.ram| ==> m'.ram[f] == m.ram[f]
    ensures PageCopied(m0, m', d, to, v)
  {
    hide Space;
  }

  lemma CopyPages(g: Geo, m0: Mem, m: Mem, q: Mem, c: Mem, m': Mem, d: nat, to: nat, v: nat, p: nat, perm: nat,
                  src: nat)
    requires PageSteps(g, m0, m, q, c, m', d, to, v, p, perm, src) && Inv(g, c)
    requires IsOwned(c, p, Leaf(to, v / ENTRIES, v % ENTRIES)) && IsOwned(c, to, Dir)
    requires Present(Space(m0, d, v)) && src == FrameOf(Space(m0, d, v)) && perm == Perm(Space(m0, d, v))
    requires c.ram[src] == m0.ram[src]
    ensures Copied(m0, m', d, to, v + 1)
  {
    hide Word, Space, Inv;
    SameRam(m, q, to);
    assert IsOwned(q, to, Dir) && SpaceAfter(q, c, to, to, v, p, perm, 1);
    BytesSpace(g, c, p, c.ram[src], to);
    EntryFields(p, perm);
    assert Copied(m0, m, d, to, v);
    forall v' | FIRST_PAGE <= v' < LAST_PAGE
      ensures if v' < v + 1 then PageCopied(m0, m', d, to, v') else Space(m', to, v') == 0
    {
      PageIsOwned(g, m, to, v');
      assert Space(m', to, v') == Space(c, to, v');
      assert Space(q, to, v') == Space(m, to, v');
      if v' < v {
        assert PageCopied(m0, m, d, to, v');
        var f := FrameOf(Space(m, to, v'));
        if Present(Space(m, to, v')) { assert f in q.owner && f != p && m'.ram[f] == m.ram[f]; }
        StillCopied(m0, m, m', d, to, v');
      }
    }
  }

  // One page: a claimed frame p mapped at v, then filled from the original.
  lemma CopyOnePage(g: Geo, m0: Mem, m: Mem, c: Mem, d: nat, to: nat, v: nat, p: nat)
    requires Copying(g, m0, m, d, to, v) && FIRST_PAGE <= v < LAST_PAGE && Managed(g, p) && p !in m.owner
    requires Present(Space(m0, d, v))
    requires MapDone(g, Claimed(m, p), c, to, v, p, Perm(Space(m0, d, v)), 1)
    ensures FrameOf(Space(m0, d, v)) < |c.ram| && p < |c.ram| && IsOwned(c, p, Leaf(to, v / ENTRIES, v % ENTRIES))
    ensures Copying(g, m0, WithBytes(c, p, c.ram[FrameOf(Space(m0, d, v))]), d, to, v + 1)
  {
    hide RoleOk, KernelOk, Word;
    var w := Space(m0, d, v);
    var src := FrameOf(w);
    var q := Claimed(m, p);
    PageIsOwned(g, m0, d, v);
    OldBytesKept(g, m0, m, to, {}, src);
    SameRam(m, q, to);
    assert IsOwned(q, to, Dir) && SpaceAfter(q, c, to, to, v, p, Perm(w), 1) && IsOwned(c, to, Dir);
    EntryFields(p, Perm(w));
    PageIsOwned(g, c, to, v);
    BytesKeep(g, c, p, c.ram[src]);
    var m' := WithBytes(c, p, c.ram[src]);
    assert src in q.owner && src != p;
    CopyGrew(g, m0, m, q, c, m', d, to, v, p, Perm(w), src);
    CopySpaces(g, m0, m, q, c, m', d, to, v, p, Perm(w), src);
    CopyPages(g, m0, m, q, c, m', d, to, v, p, Perm(w), src);
  }

  // When there is no frame left for a table, the page just claimed is lost.
  lemma CopyLosesOne(g: Geo, m0: Mem, m: Mem, c: Mem, d: nat, to: nat, v: nat, p: nat, perm: nat)
    requires Copying(g, m0, m, d, to, v) && Managed(g, p) && p !in m.owner && perm < 0x1000
    requires MapDone(g, Claimed(m, p), c, to, v, p, perm, 0)
    ensures Grew(m0, c, to, {p}) && IsOwned(c, p, Loose) && IsOwned(c, to, Dir)
  {
    hide Inv, Space, SpacesKept, Copied, SpaceAfter;
    var q := Claimed(m, p);
    assert p in q.owner && to in q.owner && IsOwned(c, to, Dir);
    forall f: nat | f in m0.owner
      ensures IsOwned(c, f, m0.owner[f]) && (f < |c.ram| ==> TableOf(m0.owner[f], f, to) || c.ram[f] == m0.ram[f])
    {
      assert f in m.owner && f in q.owner && IsOwned(c, f, q.owner[f]);
    }
    forall f: nat | f in c.owner && f !in m0.owner
      ensures if f == p then c.owner[f] == Loose else BelongsTo(c.owner[f], f, to)
    {
      if f in m.owner { assert f in q.owner && IsOwned(c, f, q.owner[f]); }
    }
  }

  // Destroying what has grown gives back every frame, but for those lost.
  lemma DestroyUndoes(g: Geo, m0: Mem, m: Mem, to: nat, lost: set<nat>)
    requires Inv(g, m0) && Inv(g, m) && to !in m0.owner && Grew(m0, m, to, lost)
    requires forall f :: f in lost ==> IsOwned(m, f, Loose) && f !in m0.owner
    ensures WithoutDir(m, to).owner == m0.owner + map f | f in lost :: Loose
  {
    hide Word;
    var l, r := WithoutDir(m, to).owner, m0.owner + map f | f in lost :: Loose;
    forall f: nat ensures f in l <==> f in r
    ensures f in l ==> l[f] == r[f] {
      if f in m0.owner { assert Managed(g, f) && RoleOk(g, m0, f) && IsOwned(m, f, m0.owner[f]); }
      assert f in lost ==> IsOwned(m, f, Loose);
      assert f in m.owner || f !in m.owner;
    }
  }


  ghost predicate BytesKept(m0: Mem, m: Mem) {
    forall f: nat {:trigger f in m0.owner} :: f in m0.owner ==> f < |m0.ram| == |m.ram| && m.ram[f] == m0.ram[f]
  }

  lemma AllOldBytes(g: Geo, m0: Mem, m: Mem, to: nat, lost: set<nat>)
    requires Inv(g, m0) && to !in m0.owner && Grew(m0, m, to, lost)
    ensures BytesKept(m0, m)
  {
    forall f: nat | f in m0.owner ensures f < |m0.ram| == |m.ram| && m.ram[f] == m0.ram[f] {
      OldBytesKept(g, m0, m, to, lost, f);
    }
  }

  // What a failed copy leaves: everything that came belongs to the copy, or is lost.
  ghost predicate CopyFailed(g: Geo, m0: Mem, m: Mem, to: nat, lost: set<nat>) {
    && Inv(g, m0) && Inv(g, m) && to !in m0.owner && IsOwned(m, to, Dir) && Grew(m0, m, to, lost) && |lost| <= 1
    && forall f: nat {:trigger f in lost} :: f in lost ==> IsOwned(m, f, Loose) && f !in m0.owner
  }

  lemma CopyStops(g: Geo, m0: Mem, m: Mem, d: nat, to: nat, n: nat)
    requires Copying(g, m0, m, d, to, n)
    ensures CopyFailed(g, m0, m, to, {})
  {
    hide Inv, Copied, SpacesKept;
  }

  lemma CopyStopsShort(g: Geo, m0: Mem, m: Mem, c: Mem, d: nat, to: nat, v: nat, p: nat, perm: nat)
    requires Copying(g, m0, m, d, to, v) && Managed(g, p) && p !in m.owner && perm < 0x1000
    requires MapDone(g, Claimed(m, p), c, to, v, p, perm, 0)
    ensures CopyFailed(g, m0, c, to, {p})
  {
    hide Space, Copied, SpacesKept, SpaceAfter, RoleOk, KernelOk;
    CopyLosesOne(g, m0, m, c, d, to, v, p, perm);
    assert p in m0.owner ==> p in m.owner;
  }

  // What the copier reads is what the original held at the start.
  lemma CopyReads(g: Geo, m0: Mem, m: Mem, d: nat, to: nat, n: nat, i: nat, j: nat)
    requires Copying(g, m0, m, d, to, n) && USER <= i < ENTRIES && j < ENTRIES
    ensures d < |m.ram| && Word(m.ram[d], i) == Word(m0.ram[d], i)
    ensures !Present(Word(m.ram[d], i)) ==> !Present(Space(m0, d, i * ENTRIES + j))
    ensures Present(Word(m.ram[d], i)) ==>
      FrameOf(Word(m.ram[d], i)) < |m.ram|
      && Word(m.ram[FrameOf(Word(m.ram[d], i))], j) == Space(m0, d, i * ENTRIES + j)
  {
    hide Word, KernelOk, Copied, SpacesKept;
    OldBytesKept(g, m0, m, to, {}, d);
    assert RoleOk(g, m0, d);
    var w := Word(m0.ram[d], i);
    if Present(w) {
      assert FrameOf(w) in m0.owner;
      OldBytesKept(g, m0, m, to, {}, FrameOf(w));
    }
  }

  lemma CopyFacts(g: Geo, m0: Mem, m: Mem, d: nat, to: nat, v: nat)
    requires Copying(g, m0, m, d, to, v) && FIRST_PAGE <= v < LAST_PAGE
    ensures Inv(g, m) && IsOwned(m, to, Dir) && to < |m.ram| && Space(m, to, v) == 0 && |m.ram| == |m0.ram|
  {
    hide Inv, Space;
  }

  lemma CopyInv(g: Geo, m0: Mem, m: Mem, d: nat, to: nat, n: nat)
    requires Copying(g, m0, m, d, to, n)
    ensures Inv(g, m0) && Inv(g, m) && to !in m0.owner && Grew(m0, m, to, {})
  {
  }

  // No frame for page v, or none for its table, after page p was claimed.
  lemma NoFrame(g: Geo, m0: Mem, m: Mem, d: nat, to: nat, v: nat)
    requires d < |m0.ram| && FIRST_PAGE <= v < LAST_PAGE && CopyCounted(m0, m, d, to, v) && Present(Space(m0, d, v))
    requires Inv(g, m) && Full(g, m)
    ensures Free(g, m0) < CopyNeeds(m0, d)
  {
    hide Space, HasTable, CopyCounted, CopyNeeds;
    CountedRam(m0, m, d, to, v);
    FullIsNoneFree(g, m);
    CopyTooBig(g, m0, m, d, to, v);
  }

  lemma CountedRam(m0: Mem, m: Mem, d: nat, to: nat, v: nat)
    requires d < |m0.ram| && v <= LAST_PAGE && CopyCounted(m0, m, d, to, v)
    ensures to < |m.ram|
  {
  }

  lemma OneTable(m: Mem, d: nat, v: nat)
    requires d < |m.ram| && v < LAST_PAGE
    ensures |Missing(m, d, v, 1)| == TableFor(m, d, v / ENTRIES)
  {
    CountNone(m, d, v);
    MissingOneMore(m, m, d, v, 0, 0);
    assert Missing(m, d, v, 0) == {};
  }

  lemma NoFrameForTable(g: Geo, m0: Mem, m: Mem, p: nat, d: nat, to: nat, v: nat)
    requires d < |m0.ram| && FIRST_PAGE <= v < LAST_PAGE && CopyCounted(m0, m, d, to, v) && Present(Space(m0, d, v))
    requires p !in m.owner && to < |m.ram| && Free(g, Claimed(m, p)) < |Missing(Claimed(m, p), to, v, 1)|
    ensures Free(g, m0) < CopyNeeds(m0, d)
  {
    hide Space, HasTable, CopyCounted, CopyNeeds, Missing;
    ClaimCounts(g, m, p);
    OneTable(Claimed(m, p), to, v);
    SameTables(m, Claimed(m, p), to, v / ENTRIES);
    CopyTooBig(g, m0, m, d, to, v);
  }

  lemma SameTables(m: Mem, m': Mem, d: nat, i: nat)
    requires d < |m.ram| == |m'.ram| && m'.ram[d] == m.ram[d] && i < ENTRIES
    ensures HasTable(m', d, i) <==> HasTable(m, d, i)
  {
  }

  // A page claimed, mapped and filled counts for itself and its table.
  lemma PageCounts(g: Geo, m0: Mem, m: Mem, p: nat, c: Mem, fr: Frame, d: nat, to: nat, v: nat)
    requires d < |m0.ram| && FIRST_PAGE <= v < LAST_PAGE && CopyCounted(m0, m, d, to, v) && Present(Space(m0, d, v))
    requires p !in m.owner && to < |m.ram| && p < |c.ram| && p != to && Counted(Claimed(m, p), c, to, v, 1, 0)
    ensures CopyCounted(m0, WithBytes(c, p, fr), d, to, v + 1)
  {
    hide Space, HasTable, CopyCounted, Missing, Word;
    var q, m' := Claimed(m, p), WithBytes(c, p, fr);
    ClaimCounts(g, m, p);
    OneTable(q, to, v);
    forall i: nat | USER <= i < ENTRIES ensures HasTable(m', to, i) <==> HasTable(m, to, i) || i == v / ENTRIES {
      SameTables(m, q, to, i);
      SameTables(c, m', to, i);
      SpansOneMore(v, 0, i);
    }
    SameTables(m, q, to, v / ENTRIES);
    CopyCountOneMore(m0, m, m', d, to, v);
  }

  lemma CopyFits(g: Geo, m0: Mem, m: Mem, d: nat, to: nat)
    requires d < |m0.ram| && CopyCounted(m0, m, d, to, LAST_PAGE) && GeoOk(g, m)
    ensures CopyNeeds(m0, d) <= Free(g, m0)
  {
    hide Space, HasTable, Pages, Tables;
    FullIsNoneFree(g, m);
  }

  lemma LeafReached(g: Geo, m: Mem, c: Mem, d: nat, i: nat, j: nat, t: nat, p: nat, perm: nat)
    requires Inv(g, c) && Reaches(g, m, c) && IsOwned(c, t, Tab(d, i)) && IsOwned(c, p, Loose) && Managed(g, t)
    requires j < ENTRIES && perm < 0x1000 && !Present(Word(c.ram[t], j))
    ensures p < 0x10_0000 && Reaches(g, m, WithLeaf(c, d, i, j, t, p, perm))
  {
    hide Reaches, Word;
    assert Managed(g, p);
    OneEvent(g, m, c, Map(d, i, j, t, p, perm), WithLeaf(c, d, i, j, t, p, perm));
  }

  lemma BytesReached(g: Geo, m: Mem, c: Mem, p: nat, fr: Frame)
    requires Inv(g, c) && Reaches(g, m, c) && p in c.owner && (c.owner[p] == Loose || c.owner[p].Leaf?)
    ensures p < |c.ram| && Reaches(g, m, WithBytes(c, p, fr))
  {
    hide Reaches;
    assert Managed(g, p);
    OneEvent(g, m, c, Write(p, fr), WithBytes(c, p, fr));
  }

  // One more of the elementary changes.
  lemma OneEvent(g: Geo, m: Mem, n: Mem, e: Event, m': Mem)
    requires Inv(g, n) && Reaches(g, m, n) && Step(g, n, e, m')
    ensures Reaches(g, m, m')
  {
    hide Reaches, Step;
    ReachesOn(g, m, n, e, m');
  }

  lemma BaseIsNotNull(g: Geo, m: Mem)
    requires Inv(g, m)
    ensures 0 < g.base
  {
  }

  lemma ClaimReached(g: Geo, m: Mem, f: nat)
    requires Inv(g, m) && Managed(g, f) && f !in m.owner
    ensures Reaches(g, m, Claimed(m, f))
  {
    hide Reaches;
    ReachesItself(g, m);
    OneEvent(g, m, m, Claim(f), Claimed(m, f));
  }

  class Memory {
    const g: Geo
    const bitmap: Bitmap
    var ram: Ram
    ghost var owner: map<nat, Role>

    ghost function M(): Mem
      reads this
    {
      Mem(ram, owner)
    }

    ghost predicate Valid()
      reads this, bitmap, bitmap.bits
    {
      && bitmap.Valid() && bitmap.bitCount == g.count
      && Inv(g, M()) && Marks(g, bitmap.ones, owner)
    }

    // The state that memory_init has left.
    constructor (g: Geo, bitmap: Bitmap, ram: Ram, ghost owner: map<nat, Role>)
      requires bitmap.Valid() && bitmap.bitCount == g.count
      requires Inv(g, Mem(ram, owner)) && Marks(g, bitmap.ones, owner)
      ensures Valid() && this.g == g && this.bitmap == bitmap && M() == Mem(ram, owner)
    {
      this.g, this.bitmap, this.ram, this.owner := g, bitmap, ram, owner;
    }

    // ---------------------------------------------------------- frames

    // The lowest free frame, or 0 when there is none.
    method AddrAllocPage() returns (f: nat)
      requires Valid()
      modifies this`owner, bitmap, bitmap.bits
      ensures Valid()
      ensures f == 0 ==> M() == old(M()) && Full(g, M())
      ensures f != 0 ==> Managed(g, f) && f !in old(owner) && M() == Claimed(old(M()), f)
      ensures Reaches(g, old(M()), M())
      ensures f != 0 ==> forall x: nat {:trigger x in old(owner)} :: Managed(g, x) && x < f ==> x in old(owner)
    {
      hide Inv, Reaches, Marks, Bitmap.Valid, Step;
      BaseIsNotNull(g, M());
      ReachesItself(g, M());
      ghost var ones := bitmap.ones;
      var index := bitmap.AllocClear(1);
      if index < 0 {
        AllMarked(g, ones, owner);
        return 0;
      }
      MarkedOne(g, ones, bitmap.ones, owner, index);
      f := g.base + index;
      ClaimKeeps(g, M(), f);
      ClaimReached(g, M(), f);
      owner := owner[f := Loose];
    }

    // Clears the mark of a frame; the caller settles who owns what.
    method ClearMark(f: nat)
      requires bitmap.Valid() && Managed(g, f)
      modifies bitmap, bitmap.bits
      ensures bitmap.Valid()
      ensures forall k {:trigger k in bitmap.ones} :: k in bitmap.ones <==> k in old(bitmap.ones) && k != f - g.base
    {
      bitmap.SetBit(f - g.base, 1, false);
    }

    method AddrFreePage(f: nat)
      requires Valid() && IsOwned(M(), f, Loose)
      modifies this`owner, bitmap, bitmap.bits
      ensures Valid() && M() == Released(old(M()), f) && Reaches(g, old(M()), M())
    {
      hide Reaches;
      assert Managed(g, f);
      ClearMark(f);
      ReleaseKeeps(g, M(), f);
      ReachesItself(g, M());
      OneEvent(g, M(), M(), Release(f), Released(M(), f));
      owner := owner - {f};
    }

    // ---------------------------------------------------------- tables

    // An empty address space that shares the kernel's half; 0 without memory.
    method MemoryCreateUvm() returns (d: nat)
      requires Valid()
      modifies this, bitmap, bitmap.bits
      ensures Valid()
      ensures if d == 0 then M() == old(M()) && Full(g, M()) else Created(g, old(M()), M(), d)
      ensures Reaches(g, old(M()), M())
      ensures d != 0 ==> d < |ram| && |owner| == |old(owner)| + 1
      ensures forall i: nat {:trigger HasTable(M(), d, i)} :: d != 0 && USER <= i < ENTRIES ==> !HasTable(M(), d, i)
    {
      hide Created, RoleOk, KernelOk, Word, PutWord, Marks, Reaches;
      d := AddrAllocPage();
      if d == 0 {
        return;
      }
      var fr := ZeroFrame();
      ZeroWords();
      for i := 0 to USER
        invariant forall k {:trigger Word(fr, k)} :: 0 <= k < ENTRIES ==>
          Word(fr, k) == if k < i then Word(ram[g.kdir], k) else 0
      {
        fr := PutWord(fr, i, Word(ram[g.kdir], i));
      }
      DirCreated(g, old(M()), d, fr);
      OneEvent(g, old(M()), M(), MakeDir(d, fr), WithDir(M(), d, fr));
      RoleChangeKeepsMarks(g, bitmap.ones, owner, d, Dir);
      ram := ram[d := fr];
      owner := owner[d := Dir];
      assert M() == WithDir(Claimed(old(M()), d), d, fr);
      CreatedInv(g, old(M()), M(), d);
      CreatedCounts(g, old(M()), d, fr);
    }

    // The table and index of the entry for a user address, building the table
    // if asked to.
    method FindPte(d: nat, vaddr: nat, alloc: bool) returns (ok: bool, t: nat, j: nat)
      requires Valid() && IsOwned(M(), d, Dir) && FIRST_PAGE <= vaddr / FRAME < LAST_PAGE
      modifies this, bitmap, bitmap.bits
      ensures Valid() && j == PteIndex(vaddr) && PdeIndex(vaddr) < ENTRIES
      ensures PteFound(g, old(M()), M(), d, PdeIndex(vaddr), alloc, ok, t)
      ensures PteCounted(old(M()), M(), d, PdeIndex(vaddr), ok) && Reaches(g, old(M()), M())
    {
      hide PteFound, PteCounted, Reaches, RoleOk, KernelOk, Word, PutWord, Marks;
      j := PteIndex(vaddr);
      var i := PdeIndex(vaddr);
      assert Managed(g, d);
      var pde := Word(ram[d], i);
      PteThereCounts(M(), d, i);
      ReachesItself(g, M());
      if Present(pde) {
        PteThere(g, M(), d, i, alloc);
        return true, FrameOf(pde), j;
      }
      if !alloc {
        PteThere(g, M(), d, i, alloc);
        return false, FrameOf(pde), j;
      }
      t := AddrAllocPage();
      if t == 0 {
        PteThere(g, M(), d, i, alloc);
        return false, FrameOf(pde), j;
      }
      PteMade(g, old(M()), d, i, t);
      PteMadeCounts(g, old(M()), d, i, t);
      OneEvent(g, old(M()), M(), MakeTab(d, i, t), WithTab(M(), d, i, t));
      PteInv(g, old(M()), WithTab(Claimed(old(M()), t), d, i, t), d, i, true, true, t);
      EntryFields(t, TABLE_PERM);
      RoleChangeKeepsMarks(g, bitmap.ones, owner, t, Tab(d, i));
      ram := ram[t := ZeroFrame()][d := PutWord(ram[d], i, Entry(t, TABLE_PERM))];
      owner := owner[t := Tab(d, i)];
      assert M() == WithTab(Claimed(old(M()), t), d, i, t);
      return true, t, j;
    }

    // Maps `count` frames from p on at vaddr, which must not be mapped yet. It
    // succeeds exactly when the free frames suffice for the tables that are
    // missing; if not, it stops with no free frame.
    method MemoryCreateMap(d: nat, vaddr0: nat, p0: nat, count: nat, perm: nat) returns (err: int, ghost n: nat)
      requires Valid() && IsOwned(M(), d, Dir) && d < |ram| && perm < 0x1000
      requires FIRST_PAGE <= vaddr0 / FRAME && vaddr0 / FRAME + count <= LAST_PAGE
      requires forall f: nat {:trigger IsOwned(M(), f, Loose)} :: p0 <= f < p0 + count ==>
        Managed(g, f) && IsOwned(M(), f, Loose)
      requires forall v {:trigger Space(M(), d, v)} :: vaddr0 / FRAME <= v < vaddr0 / FRAME + count ==>
        !Present(Space(M(), d, v))
      modifies this, bitmap, bitmap.bits
      ensures Valid() && n <= count
      ensures MapDone(g, old(M()), M(), d, vaddr0 / FRAME, p0, perm, n)
      ensures err == (if n == count then 0 else -1) && (err < 0 ==> Full(g, M()))
      ensures Counted(old(M()), M(), d, vaddr0 / FRAME, n, 0) && Reaches(g, old(M()), M())
      ensures err == 0 <==> |Missing(old(M()), d, vaddr0 / FRAME, count)| <= Free(g, old(M()))
      ensures d < |ram| && AccessIs(M(), d, vaddr0 / FRAME, n, perm)
    {
      hide MapDone, PteFound, RoleOk, KernelOk, Word, PutWord, Space, OneMapped, Full, Counted, HasTable, Missing,
           Free, Reaches, AccessIs;
      var vaddr, p := vaddr0, p0;
      n := 0;
      ghost var m, v0 := M(), vaddr0 / FRAME;
      MapNone(g, m, d, v0, p0, perm);
      CountNone(m, d, v0);
      ReachesItself(g, m);
      var i := 0;
      while i < count
        invariant i == n <= count && vaddr == vaddr0 + n * FRAME && p == p0 + n
        invariant Valid() && MapDone(g, m, M(), d, v0, p0, perm, n) && Counted(m, M(), d, v0, n, 0)
        invariant Reaches(g, m, M())
      {
        assert IsOwned(m, p0 + n, Loose) && !Present(Space(m, d, v0 + n));
        err := MapPage(d, vaddr, p, perm, m, v0, p0, n);
        if err < 0 {
          MapTooBig(g, m, M(), d, v0, n, count);
          MapAccess(g, m, M(), d, v0, p0, perm, n);
          return -1, n;
        }
        vaddr, p, n, i := vaddr + FRAME, p + 1, n + 1, i + 1;
      }
      MapFits(g, m, M(), d, v0, n);
      MapAccess(g, m, M(), d, v0, p0, perm, n);
      return 0, n;
    }

    // The body of the mapping loop, for page n of the range.
    method MapPage(d: nat, vaddr: nat, p: nat, perm: nat, ghost m: Mem, ghost v0: nat, ghost p0: nat, ghost n: nat)
      returns (err: int)
      requires Valid() && perm < 0x1000 && MapDone(g, m, M(), d, v0, p0, perm, n)
      requires IsOwned(m, d, Dir) && d < |m.ram| && FIRST_PAGE <= v0 && v0 + n < LAST_PAGE && vaddr / FRAME == v0 + n
      requires p == p0 + n && p < |m.ram| && IsOwned(m, p, Loose) && !Present(Space(m, d, v0 + n))
      requires Counted(m, M(), d, v0, n, 0) && Reaches(g, m, M())
      modifies this, bitmap, bitmap.bits
      ensures Valid()
      ensures Reaches(g, m, M())
      ensures if err == 0 then MapDone(g, m, M(), d, v0, p0, perm, n + 1) && Counted(m, M(), d, v0, n + 1, 0)
              else err == -1 && M() == old(M()) && Full(g, M()) && d < |ram| && !HasTable(M(), d, (v0 + n) / ENTRIES)
    {
      hide MapDone, PteFound, PteCounted, RoleOk, KernelOk, Word, PutWord, Space, OneMapped, Full, Marks, Counted,
           HasTable, Reaches;
      ghost var before := M();
      MapDir(g, m, before, d, v0, p0, perm, n);
      assert PdeIndex(vaddr) == (v0 + n) / ENTRIES && PteIndex(vaddr) == (v0 + n) % ENTRIES;
      var ok, t, j := FindPte(d, vaddr, true);
      ReachesThrough(g, m, before, M());
      if !ok {
        PteNotFound(g, before, M(), d, PdeIndex(vaddr), t);
        return -1;
      }
      ghost var c := M();
      MapCounts(m, before, c, d, v0, n);
      MapReady(g, m, before, c, d, v0, p0, perm, n, t);
      LeafIsMapped(g, c, d, v0 + n, t, p, perm);
      LeafReached(g, m, c, d, (v0 + n) / ENTRIES, (v0 + n) % ENTRIES, t, p, perm);
      assert !Present(Word(ram[t], j));
      EntryFields(p, perm);
      RoleChangeKeepsMarks(g, bitmap.ones, owner, p, Leaf(d, (v0 + n) / ENTRIES, (v0 + n) % ENTRIES));
      ram := ram[t := PutWord(ram[t], j, Entry(p, perm))];
      owner := owner[p := Leaf(d, (v0 + n) / ENTRIES, (v0 + n) % ENTRIES)];
      assert M() == WithLeaf(c, d, (v0 + n) / ENTRIES, (v0 + n) % ENTRIES, t, p, perm);
      MapOneMore(g, m, before, c, M(), d, v0, p0, perm, n, t);
      MapInv(g, m, M(), d, v0, p0, perm, n + 1);
      LeafCounts(m, c, d, v0, n + 1, (v0 + n) / ENTRIES, (v0 + n) % ENTRIES, t, p, perm);
      return 0;
    }

    // Frees every page and table of the user half, and then the directory.
    method MemoryDestroyUvm(d: nat)
      requires Valid() && IsOwned(M(), d, Dir)
      modifies this`owner, bitmap, bitmap.bits
      ensures Valid() && M() == WithoutDir(old(M()), d) && Reaches(g, old(M()), M())
    {
      hide Reaches, RoleOk, KernelOk, Word, Marks, MarksLess;
      assert Managed(g, d);
      DestroyBegins(g, M(), bitmap.ones, d);
      var i := USER;
      while i < ENTRIES
        invariant USER <= i <= ENTRIES && bitmap.Valid() && M() == old(M())
        invariant MarksLess(g, bitmap.ones, M(), d, i * ENTRIES, i)
      {
        DestroyTable(d, i);
        i := i + 1;
      }
      ghost var ones := bitmap.ones;
      ClearMark(d);
      DestroyEnds(g, M(), ones, bitmap.ones, d);
      UndirKeeps(g, M(), d);
      ReachesItself(g, M());
      OneEvent(g, M(), M(), Drop(d), WithoutDir(M(), d));
      owner := map f | f in owner && !BelongsTo(owner[f], f, d) :: owner[f];
    }

    // One entry of the directory: its pages and then its table.
    method DestroyTable(d: nat, i: nat)
      requires bitmap.Valid() && bitmap.bitCount == g.count && Inv(g, M())
      requires IsOwned(M(), d, Dir) && Managed(g, d) && USER <= i < ENTRIES
      requires MarksLess(g, bitmap.ones, M(), d, i * ENTRIES, i)
      modifies bitmap, bitmap.bits
      ensures bitmap.Valid() && MarksLess(g, bitmap.ones, M(), d, (i + 1) * ENTRIES, i + 1)
    {
      hide RoleOk, KernelOk, Word, MarksLess;
      var pde := Word(ram[d], i);
      if !Present(pde) {
        NoTable(g, M(), bitmap.ones, d, i);
        return;
      }
      var t := FrameOf(pde);
      var j := 0;
      while j < ENTRIES
        invariant 0 <= j <= ENTRIES && bitmap.Valid()
        invariant MarksLess(g, bitmap.ones, M(), d, i * ENTRIES + j, i)
      {
        ghost var ones := bitmap.ones;
        TableIsThere(g, M(), d, i, t, j);
        var pte := Word(ram[t], j);
        if Present(pte) {
          ClearMark(FrameOf(pte));
        }
        PageGone(g, M(), ones, bitmap.ones, d, i, t, j);
        j := j + 1;
      }
      ghost var ones := bitmap.ones;
      TableIsThere(g, M(), d, i, t, 0);
      ClearMark(t);
      TableGone(g, M(), ones, bitmap.ones, d, i, t);
    }

    // Page v of the copy: a frame, an entry, and the bytes read through the
    // active address space.
    method CopyPage(d: nat, to: nat, v: nat, pte: nat, ghost m0: Mem) returns (err: int, ghost lost: set<nat>)
      requires Valid() && Copying(g, m0, M(), d, to, v) && FIRST_PAGE <= v < LAST_PAGE
      requires d < |m0.ram| && pte == Space(m0, d, v) && Present(pte) && CopyCounted(m0, M(), d, to, v)
      requires Reaches(g, m0, M())
      modifies this, bitmap, bitmap.bits
      ensures Valid() && Reaches(g, m0, M())
      ensures if err == 0 then Copying(g, m0, M(), d, to, v + 1) && CopyCounted(m0, M(), d, to, v + 1)
              else err == -1 && CopyFailed(g, m0, M(), to, lost) && Free(g, m0) < CopyNeeds(m0, d)
    {
      hide Copying, MapDone, CopyFailed, Word, RoleOk, KernelOk, Marks, Space, PageCopied, Full, Counted, CopyCounted,
           CopyNeeds, Missing, HasTable, Free, Reaches;
      ghost var m := M();
      CopyFacts(g, m0, m, d, to, v);
      var page := AddrAllocPage();
      ReachesThrough(g, m0, m, M());
      if page == 0 {
        CopyStops(g, m0, m, d, to, v);
        NoFrame(g, m0, m, d, to, v);
        return -1, {};
      }
      SameRam(m, M(), to);
      assert v * FRAME / FRAME == v && Space(M(), to, v) == Space(m, to, v) == 0;
      ghost var n;
      ghost var q := M();
      err, n := MemoryCreateMap(to, v * FRAME, page, 1, Perm(pte));
      ReachesThrough(g, m0, q, M());
      if err < 0 {
        CopyStopsShort(g, m0, m, M(), d, to, v, page, Perm(pte));
        NoFrameForTable(g, m0, m, page, d, to, v);
        return -1, {page};
      }
      ghost var c := M();
      CopyOnePage(g, m0, m, c, d, to, v, page);
      PageCounts(g, m0, m, page, c, c.ram[FrameOf(pte)], d, to, v);
      BytesReached(g, m0, c, page, c.ram[FrameOf(pte)]);
      ram := ram[page := ram[FrameOf(pte)]];
      assert M() == WithBytes(c, page, c.ram[FrameOf(Space(m0, d, v))]);
      CopyInv(g, m0, M(), d, to, v + 1);
      return 0, {};
    }

    // The pages of one directory entry.
    method CopyTable(d: nat, to: nat, i: nat, ghost m0: Mem) returns (err: int, ghost lost: set<nat>)
      requires Valid() && Copying(g, m0, M(), d, to, i * ENTRIES) && USER <= i < ENTRIES && d < |m0.ram|
      requires CopyCounted(m0, M(), d, to, i * ENTRIES) && Reaches(g, m0, M())
      modifies this, bitmap, bitmap.bits
      ensures Valid() && Reaches(g, m0, M())
      ensures if err == 0 then Copying(g, m0, M(), d, to, (i + 1) * ENTRIES)
        && CopyCounted(m0, M(), d, to, (i + 1) * ENTRIES)
              else err == -1 && CopyFailed(g, m0, M(), to, lost) && Free(g, m0) < CopyNeeds(m0, d)
    {
      hide Copying, CopyFailed, Word, RoleOk, KernelOk, Marks, Space, Inv, CopyCounted, CopyNeeds, Free, Reaches;
      lost := {};
      CopyReads(g, m0, M(), d, to, i * ENTRIES, i, 0);
      ghost var w := Word(m0.ram[d], i);
      if !Present(Word(ram[d], i)) {
        forall v | i * ENTRIES <= v < (i + 1) * ENTRIES ensures !Present(Space(m0, d, v)) {
          CopyReads(g, m0, M(), d, to, i * ENTRIES, i, v - i * ENTRIES);
        }
        CopySkips(g, m0, M(), d, to, i * ENTRIES, (i + 1) * ENTRIES);
        CopyCountSkips(m0, M(), d, to, i * ENTRIES, (i + 1) * ENTRIES);
        return 0, lost;
      }
      var j := 0;
      while j < ENTRIES
        invariant 0 <= j <= ENTRIES && Valid() && Copying(g, m0, M(), d, to, i * ENTRIES + j)
        invariant CopyCounted(m0, M(), d, to, i * ENTRIES + j) && Reaches(g, m0, M())
        invariant d < |ram| && Word(ram[d], i) == w
      {
        CopyReads(g, m0, M(), d, to, i * ENTRIES + j, i, j);
        var pte := Word(ram[FrameOf(Word(ram[d], i))], j);
        if Present(pte) {
          err, lost := CopyPage(d, to, i * ENTRIES + j, pte, m0);
          if err < 0 {
            return -1, lost;
          }
        } else {
          CopySkips(g, m0, M(), d, to, i * ENTRIES + j, i * ENTRIES + j + 1);
          CopyCountSkips(m0, M(), d, to, i * ENTRIES + j, i * ENTRIES + j + 1);
        }
        CopyReads(g, m0, M(), d, to, i * ENTRIES + j + 1, i, j);
        j := j + 1;
      }
      return 0, {};
    }

    // A copy of the active address space d in fresh frames, or -1. It succeeds
    // exactly when the free frames suffice for the directory, the pages and the
    // tables with a page. What a failed copy took is given back, but for one frame
    // when a table could not be had.
    method MemoryCopyUvm(d: nat) returns (r: int, ghost lost: set<nat>)
      requires Valid() && IsOwned(M(), d, Dir) && d < |ram|
      modifies this, bitmap, bitmap.bits
      ensures Valid() && |lost| <= 1 && BytesKept(old(M()), M())
      ensures 0 <= r <==> CopyNeeds(old(M()), d) <= Free(g, old(M()))
      ensures Reaches(g, old(M()), M())
      ensures 0 <= r ==> d < |old(ram)| && r < |ram| && SameAccess(old(M()), M(), d, r)
      ensures if 0 <= r then Copying(g, old(M()), M(), d, r, LAST_PAGE) && lost == {}
              else r == -1 && owner == old(owner) + map f | f in lost :: Loose
      ensures forall f: nat {:trigger f in lost} :: f in lost ==> f !in old(owner)
    {
      hide Copying, Created, CopyFailed, Word, RoleOk, KernelOk, Marks, Space, WithoutDir, BytesKept, CopyCounted,
           HasTable, Pages, Tables, Full, Reaches, SameAccess;
      ghost var m0 := M();
      lost := {};
      var to := MemoryCreateUvm();
      FullIsNoneFree(g, M());
      if to == 0 {
        SameBytesKept(g, m0);
        return -1, lost;
      }
      CopyBegins(g, m0, M(), d, to);
      CopyCountBegins(m0, M(), d, to);
      var i := USER;
      while i < ENTRIES
        invariant USER <= i <= ENTRIES && Valid() && Copying(g, m0, M(), d, to, i * ENTRIES)
        invariant CopyCounted(m0, M(), d, to, i * ENTRIES) && Reaches(g, m0, M())
      {
        var err;
        err, lost := CopyTable(d, to, i, m0);
        if err < 0 {
          FailedCopyUndone(g, m0, M(), to, lost);
          ghost var m := M();
          MemoryDestroyUvm(to);
          ReachesThrough(g, m0, m, M());
          return -1, lost;
        }
        i := i + 1;
      }
      CopyInv(g, m0, M(), d, to, LAST_PAGE);
      CopyAccess(g, m0, M(), d, to);
      CopyFits(g, m0, M(), d, to);
      AllOldBytes(g, m0, M(), to, {});
      return to, {};
    }
  }

  lemma SameBytesKept(g: Geo, m: Mem)
    requires Inv(g, m)
    ensures BytesKept(m, m)
  {
    hide RoleOk, KernelOk;
    forall f: nat | f in m.owner ensures f < |m.ram| { assert Managed(g, f); }
  }

  lemma FailedCopyUndone(g: Geo, m0: Mem, m: Mem, to: nat, lost: set<nat>)
    requires CopyFailed(g, m0, m, to, lost)
    ensures Inv(g, m) && IsOwned(m, to, Dir) && |lost| <= 1 && BytesKept(m0, m) && BytesKept(m0, WithoutDir(m, to))
    ensures WithoutDir(m, to).owner == m0.owner + map f | f in lost :: Loose
    ensures forall f: nat {:trigger f in lost} :: f in lost ==> f !in m0.owner
  {
    DestroyUndoes(g, m0, m, to, lost);
    AllOldBytes(g, m0, m, to, lost);
  }

  // Destroying a finished copy gives back exactly the frames it took.
  lemma DestroyUndoesCopy(g: Geo, m0: Mem, m: Mem, d: nat, to: nat)
    requires Copying(g, m0, m, d, to, LAST_PAGE)
    ensures WithoutDir(m, to).owner == m0.owner
  {
    hide Space, Copied, SpacesKept;
    var none: set<nat> := {};
    DestroyUndoes(g, m0, m, to, none);
    assert WithoutDir(m, to).owner.Keys == m0.owner.Keys;
  }
}
