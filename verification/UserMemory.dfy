/** Growing an address space page by page: program segments, stacks and the heap;
    and giving a page back. */
module UserMemory {
  import opened Bytes
  import opened Klib
  import opened Bitmaps
  import opened PageTables
  import opened FrameCount
  import opened MemoryManager

  // ------------------------------------------------------------ fresh pages

  ghost predicate FreshEntry(m0: Mem, w: nat, perm: nat)
    requires perm < 0x1000
  {
    w == Entry(FrameOf(w), perm) && FrameOf(w) !in m0.owner
  }

  ghost predicate SpaceWithPages(m0: Mem, m: Mem, x: nat, d: nat, v0: nat, perm: nat, n: nat)
    requires perm < 0x1000 && x < |m0.ram| == |m.ram|
  {
    forall v {:trigger Space(m, x, v)} :: FIRST_PAGE <= v < LAST_PAGE ==>
      if x == d && v0 <= v < v0 + n then FreshEntry(m0, Space(m, x, v), perm) else Space(m, x, v) == Space(m0, x, v)
  }

  // n fresh pages mapped from page v0 on in address space d, and nothing else
  // changed but for the frames that were lost.
  ghost predicate PagesAdded(g: Geo, m0: Mem, m: Mem, d: nat, v0: nat, perm: nat, n: nat, lost: set<nat>)
    requires perm < 0x1000
  {
    && Inv(g, m0) && Inv(g, m) && Grew(m0, m, d, lost) && IsOwned(m0, d, Dir) && d < |m0.ram|
    && (forall x: nat {:trigger IsOwned(m0, x, Dir)} :: IsOwned(m0, x, Dir) && x < |m0.ram| ==>
          SpaceWithPages(m0, m, x, d, v0, perm, n))
  }

  lemma AddedAccess(g: Geo, m0: Mem, m: Mem, d: nat, v0: nat, perm: nat, n: nat, lost: set<nat>)
    requires perm < 0x1000 && PagesAdded(g, m0, m, d, v0, perm, n, lost)
    ensures d < |m.ram| && AccessIs(m, d, v0, n, perm)
  {
    hide Inv, Space, Entry, AccessIs;
    assert d in m0.owner && SpaceWithPages(m0, m, d, d, v0, perm, n);
    EntriesAccess(g, m, d, v0, n, perm);
  }

  lemma NoPagesYet(g: Geo, m: Mem, d: nat, v0: nat, perm: nat)
    requires Inv(g, m) && IsOwned(m, d, Dir) && perm < 0x1000
    ensures PagesAdded(g, m, m, d, v0, perm, 0, {})
  {
    hide RoleOk, KernelOk, Space;
    assert Managed(g, d);
  }

  // A claimed frame p mapped at page v0 + n.
  lemma OnePageAdded(g: Geo, m0: Mem, m: Mem, c: Mem, d: nat, v0: nat, perm: nat, n: nat, p: nat)
    requires perm < 0x1000 && PagesAdded(g, m0, m, d, v0, perm, n, {}) && Managed(g, p) && p !in m.owner
    requires MapDone(g, Claimed(m, p), c, d, v0 + n, p, perm, 1)
    ensures PagesAdded(g, m0, c, d, v0, perm, n + 1, {})
  {
    hide Inv, Space;
    var q := Claimed(m, p);
    EntryFields(p, perm);
    assert p in m0.owner ==> p in m.owner;
    forall x: nat | IsOwned(m0, x, Dir) && x < |m0.ram| ensures SpaceWithPages(m0, c, x, d, v0, perm, n + 1) {
      assert x in m0.owner && IsOwned(m, x, Dir) && IsOwned(q, x, Dir);
      assert SpaceWithPages(m0, m, x, d, v0, perm, n) && SpaceAfter(q, c, x, d, v0 + n, p, perm, 1);
      SameRam(m, q, x);
      forall v | FIRST_PAGE <= v < LAST_PAGE
        ensures if x == d && v0 <= v < v0 + n + 1 then FreshEntry(m0, Space(c, x, v), perm)
          else Space(c, x, v) == Space(m0, x, v)
      {
        assert Space(q, x, v) == Space(m, x, v);
      }
    }
    hide SpaceWithPages, SpaceAfter;
    MapGrew(g, m0, m, c, d, v0 + n, p, perm, 1, {});
  }

  // Claiming p and mapping it (k = 1) or failing to (k = 0) grows d.
  lemma MapGrew(g: Geo, m0: Mem, m: Mem, c: Mem, d: nat, v: nat, p: nat, perm: nat, k: nat, lost: set<nat>)
    requires perm < 0x1000 && Grew(m0, m, d, {}) && p !in m.owner && k <= 1
    requires MapDone(g, Claimed(m, p), c, d, v, p, perm, k) && lost == if k == 1 then {} else {p}
    ensures Grew(m0, c, d, lost)
  {
    hide Inv, Space, SpaceAfter;
    var q := Claimed(m, p);
    assert p in q.owner && (p in m0.owner ==> p in m.owner);
    forall f: nat | f in m0.owner
      ensures IsOwned(c, f, m0.owner[f]) && (f < |c.ram| ==> TableOf(m0.owner[f], f, d) || c.ram[f] == m0.ram[f])
    {
      assert f in m.owner && f in q.owner;
    }
    forall f: nat | f in c.owner && f !in m0.owner
      ensures if f in lost then c.owner[f] == Loose else BelongsTo(c.owner[f], f, d)
    {
      if f != p && f in m.owner { assert f in q.owner; }
    }
  }

  lemma PageNotAdded(g: Geo, m0: Mem, m: Mem, c: Mem, d: nat, v0: nat, perm: nat, n: nat, p: nat)
    requires perm < 0x1000 && PagesAdded(g, m0, m, d, v0, perm, n, {}) && Managed(g, p) && p !in m.owner
    requires MapDone(g, Claimed(m, p), c, d, v0 + n, p, perm, 0)
    ensures PagesAdded(g, m0, c, d, v0, perm, n, {p})
  {
    hide Inv, Space;
    var q := Claimed(m, p);
    forall x: nat | IsOwned(m0, x, Dir) && x < |m0.ram| ensures SpaceWithPages(m0, c, x, d, v0, perm, n) {
      assert x in m0.owner && IsOwned(m, x, Dir) && IsOwned(q, x, Dir);
      assert SpaceWithPages(m0, m, x, d, v0, perm, n) && SpaceAfter(q, c, x, d, v0 + n, p, perm, 0);
      SameRam(m, q, x);
      forall v | FIRST_PAGE <= v < LAST_PAGE ensures Space(c, x, v) == Space(m, x, v) {
        assert Space(q, x, v) == Space(m, x, v);
      }
    }
    hide SpaceWithPages, SpaceAfter;
    MapGrew(g, m0, m, c, d, v0 + n, p, perm, 0, {p});
  }

  lemma NextPageFree(g: Geo, m0: Mem, m: Mem, d: nat, v0: nat, perm: nat, n: nat, lost: set<nat>)
    requires perm < 0x1000 && PagesAdded(g, m0, m, d, v0, perm, n, lost)
    ensures Inv(g, m) && IsOwned(m, d, Dir) && d < |m.ram| == |m0.ram|
    ensures FIRST_PAGE <= v0 && v0 + n < LAST_PAGE ==> Space(m, d, v0 + n) == Space(m0, d, v0 + n)
  {
    hide Inv, Space;
    assert d in m0.owner && SpaceWithPages(m0, m, d, d, v0, perm, n);
  }

  // ------------------------------------------------------------ counting

  // A frame was claimed for page v0 + k and the page mapped: k + 1 pages.
  lemma PageCountsToo(g: Geo, m0: Mem, m: Mem, p: nat, c: Mem, d: nat, v0: nat, k: nat)
    requires d < |m0.ram| && v0 + k < LAST_PAGE && Counted(m0, m, d, v0, k, k) && |m.ram| == |m0.ram|
    requires p !in m.owner && Counted(Claimed(m, p), c, d, v0 + k, 1, 0)
    ensures Counted(m0, c, d, v0, k + 1, k + 1)
  {
    hide HasTable, Missing, Word;
    var q := Claimed(m, p);
    ClaimCounts(g, m, p);
    CountKept(m0, m, q, d, v0, k, k, k + 1);
    OneTable(q, d, v0 + k);
    forall i: nat | i < ENTRIES ensures HasTable(c, d, i) <==> HasTable(q, d, i) || i == (v0 + k) / ENTRIES {
      SpansOneMore(v0 + k, 0, i);
    }
    CountOneMore(m0, q, c, d, v0, k, k + 1);
  }

  // It stops at page k: no frame, or after p was claimed none for its table.
  lemma StopsAt(g: Geo, m0: Mem, m: Mem, d: nat, v0: nat, k: nat, n: nat)
    requires d < |m0.ram| && k < n && v0 + n <= LAST_PAGE && Counted(m0, m, d, v0, k, k) && GeoOk(g, m) && Full(g, m)
    ensures Free(g, m0) == k + |Missing(m0, d, v0, k)|
    ensures PagesHad(Free(g, m0), m0, d, v0, n) == k && Free(g, m0) < n + |Missing(m0, d, v0, n)|
  {
    hide HasTable, Missing, PagesHad;
    FullIsNoneFree(g, m);
    MissingMonotone(m0, d, v0, k, k + 1);
    PagesHadIs(Free(g, m0), m0, d, v0, n, k);
  }

  lemma StopsAtTable(g: Geo, m0: Mem, m: Mem, p: nat, c: Mem, d: nat, v0: nat, k: nat, n: nat)
    requires d < |m0.ram| && k < n && v0 + n <= LAST_PAGE && Counted(m0, m, d, v0, k, k) && |m.ram| == |m0.ram|
    requires p !in m.owner && GeoOk(g, c) && Full(g, c) && Counted(Claimed(m, p), c, d, v0 + k, 0, 0)
    requires Free(g, Claimed(m, p)) < |Missing(Claimed(m, p), d, v0 + k, 1)|
    ensures Free(g, m0) == k + |Missing(m0, d, v0, k)| + 1
    ensures PagesHad(Free(g, m0), m0, d, v0, n) == k && Free(g, m0) < n + |Missing(m0, d, v0, n)|
  {
    hide HasTable, PagesHad, Full;
    var q := Claimed(m, p);
    assert Missing(q, d, v0 + k, 0) == {};
    hide Missing;
    FullIsNoneFree(g, c);
    ClaimCounts(g, m, p);
    CountKept(m0, m, q, d, v0, k, k, k + 1);
    OneTable(q, d, v0 + k);
    MissingOneMore(m0, q, d, v0, k, k + 1);
    PagesHadIs(Free(g, m0), m0, d, v0, n, k);
  }

  lemma AllHad(g: Geo, m0: Mem, m: Mem, d: nat, v0: nat, n: nat)
    requires d < |m0.ram| && v0 + n <= LAST_PAGE && Counted(m0, m, d, v0, n, n) && GeoOk(g, m)
    ensures PagesHad(Free(g, m0), m0, d, v0, n) == n && n + |Missing(m0, d, v0, n)| <= Free(g, m0)
  {
    hide HasTable, Missing, PagesHad;
    FullIsNoneFree(g, m);
    PagesHadIs(Free(g, m0), m0, d, v0, n, n);
  }

  // Fresh pages for `size` bytes from vaddr on, which must not be mapped. Every
  // page is had exactly when the free frames suffice for the pages and the tables
  // that are missing; success is reported even if not. One frame is lost exactly
  // when the frames reach for one page more but not for its table.
  method MemoryAllocForPageDir(mm: Memory, d: nat, vaddr: nat, size: nat, perm: nat)
    returns (err: int, ghost n: nat, ghost lost: set<nat>)
    requires mm.Valid() && IsOwned(mm.M(), d, Dir) && d < |mm.ram| && perm < 0x1000
    requires FIRST_PAGE <= vaddr / FRAME && vaddr / FRAME + Ceil(size, FRAME) <= LAST_PAGE
    requires forall v {:trigger Space(mm.M(), d, v)} :: vaddr / FRAME <= v < vaddr / FRAME + Ceil(size, FRAME) ==>
      !Present(Space(mm.M(), d, v))
    modifies mm, mm.bitmap, mm.bitmap.bits
    ensures mm.Valid() && err == 0 && n <= Ceil(size, FRAME) && |lost| <= 1
    ensures PagesAdded(mm.g, old(mm.M()), mm.M(), d, vaddr / FRAME, perm, n, lost)
    ensures d < |mm.ram| && AccessIs(mm.M(), d, vaddr / FRAME, n, perm)
    ensures n < Ceil(size, FRAME) ==> Full(mm.g, mm.M())
    ensures Reaches(mm.g, old(mm.M()), mm.M())
    ensures n == Ceil(size, FRAME) ==> Counted(old(mm.M()), mm.M(), d, vaddr / FRAME, n, n)
    ensures var free, m0, v0, all := Free(mm.g, old(mm.M())), old(mm.M()), vaddr / FRAME, Ceil(size, FRAME);
      && n == PagesHad(free, m0, d, v0, all)
      && (n == all <==> all + |Missing(m0, d, v0, all)| <= free)
      && (lost != {} <==> n < all && free == n + |Missing(m0, d, v0, n)| + 1)
  {
    hide PagesAdded, MapDone, Space, Inv, Marks, Full, Quot, Counted, Missing, Free, PagesHad, HasTable, Reaches,
         AccessIs;
    CeilBounds(size, FRAME);
    var currVaddr, pageCount := vaddr, Quot(Up2(size, FRAME), FRAME);
    ghost var m0, v0 := mm.M(), vaddr / FRAME;
    n, lost := 0, {};
    NoPagesYet(mm.g, m0, d, v0, perm);
    CountNone(m0, d, v0);
    ReachesItself(mm.g, m0);
    var i := 0;
    while i < pageCount
      invariant i == n <= pageCount && currVaddr == vaddr + n * FRAME && lost == {}
      invariant mm.Valid() && PagesAdded(mm.g, m0, mm.M(), d, v0, perm, n, {}) && Counted(m0, mm.M(), d, v0, n, n)
      invariant Reaches(mm.g, m0, mm.M())
    {
      ghost var m := mm.M();
      NextPageFree(mm.g, m0, m, d, v0, perm, n, {});
      assert !Present(Space(m0, d, v0 + n)) && currVaddr / FRAME == v0 + n;
      var p := mm.AddrAllocPage();
      ReachesThrough(mm.g, m0, m, mm.M());
      if p == 0 {
        InvGeo(mm.g, m);
        StopsAt(mm.g, m0, m, d, v0, n, pageCount);
        AddedAccess(mm.g, m0, m, d, v0, perm, n, {});
        return 0, n, {};
      }
      SameRam(m, mm.M(), d);
      assert Space(mm.M(), d, v0 + n) == Space(m, d, v0 + n);
      var e;
      ghost var k;
      ghost var q := mm.M();
      e, k := mm.MemoryCreateMap(d, currVaddr, p, 1, perm);
      ReachesThrough(mm.g, m0, q, mm.M());
      if e < 0 {
        PageNotAdded(mm.g, m0, m, mm.M(), d, v0, perm, n, p);
        InvGeo(mm.g, mm.M());
        StopsAtTable(mm.g, m0, m, p, mm.M(), d, v0, n, pageCount);
        AddedAccess(mm.g, m0, mm.M(), d, v0, perm, n, {p});
        return 0, n, {p};
      }
      OnePageAdded(mm.g, m0, m, mm.M(), d, v0, perm, n, p);
      PageCountsToo(mm.g, m0, m, p, mm.M(), d, v0, n);
      currVaddr, n, i := currVaddr + FRAME, n + 1, i + 1;
    }
    InvGeo(mm.g, mm.M());
    AllHad(mm.g, m0, mm.M(), d, v0, n);
    AddedAccess(mm.g, m0, mm.M(), d, v0, perm, n, {});
    return 0, n, {};
  }

  lemma InvGeo(g: Geo, m: Mem)
    requires Inv(g, m)
    ensures GeoOk(g, m)
  {
  }

  // Memory that holds one directory and nothing else, with k frames free.
  ghost function OneDirectory(k: nat): (Geo, Mem) {
    (Geo(1, k + 1, 0), Mem(seq(k + 2, _ => ZeroFrame()), map[1 := Dir]))
  }

  lemma OneDirectoryOk(k: nat)
    requires k < 0x1000
    ensures var (g, m) := OneDirectory(k);
      Inv(g, m) && IsOwned(m, 1, Dir) && Free(g, m) == k && EmptySpace(m, 1) && !HasTable(m, 1, USER)
  {
    hide Word;
    ZeroWords();
    var (g, m) := OneDirectory(k);
    assert m.owner.Keys == {1} && |m.owner| == |m.owner.Keys|;
    assert forall f :: f in m.owner ==> f == 1;
  }

  // The smallest failures, both reported as success: no frame for the page; and a
  // frame for the page, which is lost as there is none for the table.
  lemma ShortExamples(v0: nat)
    requires v0 == FIRST_PAGE
    ensures var (g, m) := OneDirectory(0); PagesHad(Free(g, m), m, 1, v0, 1) == 0 && Free(g, m) == 0
    ensures var (g, m) := OneDirectory(1);
      PagesHad(Free(g, m), m, 1, v0, 1) == 0 && Free(g, m) == 0 + |Missing(m, 1, v0, 0)| + 1
    ensures var (g, m) := OneDirectory(2); PagesHad(Free(g, m), m, 1, v0, 1) == 1
  {
    forall k: nat | k <= 2
      ensures var (g, m) := OneDirectory(k);
        Free(g, m) == k && |Missing(m, 1, v0, 1)| == 1 && |Missing(m, 1, v0, 0)| == 0
    {
      OneDirectoryOk(k);
      OneTable(OneDirectory(k).1, 1, v0);
      assert Missing(OneDirectory(k).1, 1, v0, 0) == {};
    }
  }

  // ------------------------------------------------------------ the heap

  const USER_PERM: nat := 7    // PTE_P | PTE_U | PTE_W

  class Task {
    const cr3: nat             // the frame of the task's directory
    var heapEnd: nat

    constructor (cr3: nat, heapEnd: nat)
      ensures this.cr3 == cr3 && this.heapEnd == heapEnd
    {
      this.cr3, this.heapEnd := cr3, heapEnd;
    }
  }

  // The pages from `start` up to the end of the heap, rounded up, are mapped and
  // those behind it up to `limit` are not.
  ghost predicate HeapOk(m: Mem, d: nat, start: nat, end: nat, limit: nat)
    requires d < |m.ram| && FIRST_PAGE <= Ceil(start, FRAME) && limit <= LAST_PAGE
  {
    forall v {:trigger Space(m, d, v)} :: Ceil(start, FRAME) <= v < limit ==>
      (Present(Space(m, d, v)) <==> v < Ceil(end, FRAME))
  }

  ghost predicate NoneAbove(m: Mem, d: nat, end: nat, limit: nat)
    requires d < |m.ram| && limit <= LAST_PAGE
  {
    forall v {:trigger Space(m, d, v)} :: FIRST_PAGE <= v && Ceil(end, FRAME) <= v < limit ==> !Present(Space(m, d, v))
  }

  lemma HeapOkNoneAbove(m: Mem, d: nat, start: nat, end: nat, limit: nat)
    requires d < |m.ram| && FIRST_PAGE <= Ceil(start, FRAME) <= Ceil(end, FRAME) && limit <= LAST_PAGE
    requires HeapOk(m, d, start, end, limit)
    ensures NoneAbove(m, d, end, limit)
  {
    hide Space, Quot;
  }

  // A new address space is in order for a heap that begins anywhere, and so it is
  // after pages were added below the heap or behind its limit, as loading does.
  lemma LoadedHeap(g: Geo, m0: Mem, m: Mem, d: nat, vaddr: nat, size: nat, perm: nat, n: nat, lost: set<nat>,
                   start: nat, limit: nat)
    requires d < |m0.ram| && FIRST_PAGE <= Ceil(start, FRAME) && limit <= LAST_PAGE && perm < 0x1000
    requires EmptySpace(m0, d) || HeapOk(m0, d, start, start, limit)
    requires PagesAdded(g, m0, m, d, vaddr / FRAME, perm, n, lost) && n <= Ceil(size, FRAME)
    requires vaddr + size <= start || limit <= vaddr / FRAME
    ensures HeapOk(m0, d, start, start, limit)
    ensures d < |m.ram| && HeapOk(m, d, start, start, limit)
  {
    hide Space, Inv;
    assert SpaceWithPages(m0, m, d, d, vaddr / FRAME, perm, n);
    assert vaddr + size <= start ==> vaddr / FRAME + n <= Ceil(start, FRAME);
    hide Quot;
  }

  // n of the pages between the two ends were added.
  lemma HeapAfter(g: Geo, m0: Mem, m: Mem, d: nat, start: nat, end: nat, end': nat, limit: nat, n: nat, lost: set<nat>)
    requires PagesAdded(g, m0, m, d, Ceil(end, FRAME), USER_PERM, n, lost)
    requires FIRST_PAGE <= Ceil(start, FRAME) <= Ceil(end, FRAME)
      && Ceil(end, FRAME) + n <= Ceil(end', FRAME) <= limit <= LAST_PAGE
    requires NoneAbove(m0, d, end, limit)
    ensures d < |m.ram| && NoneAbove(m, d, end', limit)
    ensures HeapOk(m, d, start, end', limit) <==>
      HeapOk(m0, d, start, end, limit) && Ceil(end, FRAME) + n == Ceil(end', FRAME)
  {
    hide Space, Inv, Quot;
    var v0 := Ceil(end, FRAME);
    assert SpaceWithPages(m0, m, d, d, v0, USER_PERM, n);
    forall v | Ceil(start, FRAME) <= v < limit
      ensures Present(Space(m, d, v)) <==> if v < v0 then Present(Space(m0, d, v)) else v < v0 + n
    {
      if v0 <= v < v0 + n { EntryFields(FrameOf(Space(m, d, v)), USER_PERM); }
    }
    if v0 + n < Ceil(end', FRAME) { assert !Present(Space(m, d, v0 + n)); }
    if HeapOk(m, d, start, end', limit) {
      forall v | Ceil(start, FRAME) <= v < limit ensures Present(Space(m0, d, v)) <==> v < v0 {
        assert Present(Space(m, d, v)) <==> v < Ceil(end', FRAME);
      }
    }
  }

  // From `end` to `end'` n of the pages between were added: all of them exactly when
  // the free frames sufficed for these and their missing tables. The heap then is in
  // order exactly when it was and they sufficed. User code can read and write them.
  ghost predicate HeapGrown(g: Geo, m0: Mem, m: Mem, d: nat, start: nat, end: nat, end': nat, limit: nat,
                            n: nat, lost: set<nat>)
  {
    && d < |m0.ram| && d < |m.ram| && FIRST_PAGE <= Ceil(start, FRAME) <= Ceil(end, FRAME)
    && Ceil(end, FRAME) <= Ceil(end', FRAME) <= limit <= LAST_PAGE
    && PagesAdded(g, m0, m, d, Ceil(end, FRAME), USER_PERM, n, lost) && NoneAbove(m, d, end', limit)
    && var v0, all := Ceil(end, FRAME), Ceil(end', FRAME) - Ceil(end, FRAME);
    && n <= all && (n == all <==> all + |Missing(m0, d, v0, all)| <= Free(g, m0))
    && (HeapOk(m, d, start, end', limit) <==> HeapOk(m0, d, start, end, limit) && n == all)
    && (forall v {:trigger UserWrites(m, d, v)} :: v0 <= v < v0 + n ==>
          UserWrites(m, d, v) && Space(m, d, v) % 0x1000 == 7)
    && if n == all then Counted(m0, m, d, v0, n, n) else Full(g, m)
  }

  lemma HeapGrows(g: Geo, m0: Mem, m: Mem, d: nat, start: nat, end: nat, end': nat, limit: nat, n: nat, lost: set<nat>)
    requires d < |m0.ram| && FIRST_PAGE <= Ceil(start, FRAME) <= Ceil(end, FRAME)
    requires Ceil(end, FRAME) + n <= Ceil(end', FRAME) <= limit <= LAST_PAGE && NoneAbove(m0, d, end, limit)
    requires PagesAdded(g, m0, m, d, Ceil(end, FRAME), USER_PERM, n, lost)
    requires var v0, all := Ceil(end, FRAME), Ceil(end', FRAME) - Ceil(end, FRAME);
      && (n == all <==> all + |Missing(m0, d, v0, all)| <= Free(g, m0))
      && if n == all then Counted(m0, m, d, v0, n, n) else Full(g, m)
    ensures HeapGrown(g, m0, m, d, start, end, end', limit, n, lost)
  {
    hide PagesAdded, NoneAbove, HeapOk, Counted, Full, Missing, Free, Quot;
    HeapAfter(g, m0, m, d, start, end, end', limit, n, lost);
    HeapEntries(g, m0, m, d, Ceil(end, FRAME), n, lost);
  }

  lemma HeapEntries(g: Geo, m0: Mem, m: Mem, d: nat, v0: nat, n: nat, lost: set<nat>)
    requires PagesAdded(g, m0, m, d, v0, USER_PERM, n, lost) && FIRST_PAGE <= v0 && v0 + n <= LAST_PAGE
    ensures d < |m.ram| && forall v {:trigger UserWrites(m, d, v)} :: v0 <= v < v0 + n ==>
      UserWrites(m, d, v) && Space(m, d, v) % 0x1000 == 7
  {
    hide Inv, Space, UserReads, UserWrites;
    assert MayUse(USER_PERM) && MayWrite(USER_PERM) && d in m0.owner;
    AddedAccess(g, m0, m, d, v0, USER_PERM, n, lost);
    assert SpaceWithPages(m0, m, d, d, v0, USER_PERM, n);
    forall v | v0 <= v < v0 + n ensures UserWrites(m, d, v) && Space(m, d, v) % 0x1000 == 7 {
      EntryIs(FrameOf(Space(m, d, v)), USER_PERM);
    }
  }

  lemma HeapStays(g: Geo, m: Mem, d: nat, start: nat, end: nat, end': nat, limit: nat)
    requires Inv(g, m) && IsOwned(m, d, Dir) && FIRST_PAGE <= Ceil(start, FRAME) <= Ceil(end, FRAME)
    requires Ceil(end, FRAME) == Ceil(end', FRAME) <= limit <= LAST_PAGE && d < |m.ram| && NoneAbove(m, d, end, limit)
    ensures HeapGrown(g, m, m, d, start, end, end', limit, 0, {})
  {
    hide Inv, PagesAdded, NoneAbove, HeapOk, Counted, Full, Missing, Free, Quot, HeapGrown;
    NoPagesYet(g, m, d, Ceil(end, FRAME), USER_PERM);
    NothingNeeded(g, m, d, Ceil(end, FRAME));
    HeapGrows(g, m, m, d, start, end, end', limit, 0, {});
  }

  // Growing the heap returns its old end and maps the pages that are missing, none
  // of them twice, as far as the frames reach; the call cannot tell.
  method SysSbrk(mm: Memory, task: Task, incr: nat, ghost start: nat, ghost limit: nat)
    returns (preHeapEnd: nat, ghost n: nat, ghost lost: set<nat>)
    requires mm.Valid() && IsOwned(mm.M(), task.cr3, Dir) && task.cr3 < |mm.ram|
    requires FIRST_PAGE * FRAME <= start <= task.heapEnd && Ceil(task.heapEnd + incr, FRAME) <= limit <= LAST_PAGE
    requires NoneAbove(mm.M(), task.cr3, task.heapEnd, limit)
    modifies mm, mm.bitmap, mm.bitmap.bits, task`heapEnd
    ensures mm.Valid() && |lost| <= 1 && Reaches(mm.g, old(mm.M()), mm.M())
    ensures preHeapEnd == old(task.heapEnd) && task.heapEnd == old(task.heapEnd) + incr
    ensures HeapGrown(mm.g, old(mm.M()), mm.M(), task.cr3, start, preHeapEnd, task.heapEnd, limit, n, lost)
  {
    hide PagesAdded, Space, Inv, Marks, Full, HeapOk, NoneAbove, Missing, Free, PagesHad, Reaches, Counted, HeapGrown;
    ReachesItself(mm.g, mm.M());
    preHeapEnd := task.heapEnd;
    ghost var m0 := mm.M();
    n, lost := 0, {};
    if incr == 0 {
      HeapStays(mm.g, m0, task.cr3, start, preHeapEnd, preHeapEnd, limit);
      return;
    }
    var first, end := task.heapEnd, task.heapEnd + incr;
    var more := incr;
    var startOffset := first % FRAME;
    if startOffset != 0 {
      if startOffset + more <= FRAME {
        task.heapEnd := end;
        HeapStays(mm.g, m0, task.cr3, start, preHeapEnd, end, limit);
        return;
      }
      var currSize := FRAME - startOffset;
      first := first + currSize;
      more := more - currSize;
    }
    assert first == Ceil(preHeapEnd, FRAME) * FRAME && first / FRAME == Ceil(preHeapEnd, FRAME);
    if more != 0 {
      var currSize := end - first;
      assert Ceil(preHeapEnd, FRAME) + Ceil(currSize, FRAME) == Ceil(end, FRAME);
      HeapPagesFree(m0, task.cr3, preHeapEnd, limit, Ceil(currSize, FRAME));
      var err;
      err, n, lost := MemoryAllocForPageDir(mm, task.cr3, first, currSize, USER_PERM);
      HeapGrows(mm.g, m0, mm.M(), task.cr3, start, preHeapEnd, end, limit, n, lost);
    }
    task.heapEnd := end;
  }

  lemma NothingNeeded(g: Geo, m: Mem, d: nat, v0: nat)
    requires Inv(g, m) && d < |m.ram| && v0 <= LAST_PAGE
    ensures |Missing(m, d, v0, 0)| == 0 <= Free(g, m) && Counted(m, m, d, v0, 0, 0)
  {
    assert Missing(m, d, v0, 0) == {};
    CountNone(m, d, v0);
    FullIsNoneFree(g, m);
  }

  lemma HeapPagesFree(m: Mem, d: nat, end: nat, limit: nat, n: nat)
    requires d < |m.ram| && FIRST_PAGE <= Ceil(end, FRAME) && Ceil(end, FRAME) + n <= limit <= LAST_PAGE
    requires NoneAbove(m, d, end, limit)
    ensures forall v {:trigger Space(m, d, v)} :: Ceil(end, FRAME) <= v < Ceil(end, FRAME) + n ==>
      !Present(Space(m, d, v))
  {
    hide Space, Quot;
  }

  // ------------------------------------------------------------ the heap over many calls

  function Sum(incrs: seq<nat>): nat {
    if incrs == [] then 0 else Sum(incrs[..|incrs| - 1]) + incrs[|incrs| - 1]
  }

  lemma {:induction false} SumMonotone(incrs: seq<nat>, i: nat)
    requires i <= |incrs|
    ensures Sum(incrs[..i]) <= Sum(incrs)
  {
    if i == |incrs| {
      assert incrs[..i] == incrs;
    } else {
      SumMonotone(incrs[..|incrs| - 1], i);
      assert incrs[..|incrs| - 1][..i] == incrs[..i];
    }
  }

  lemma CeilOrdered(a: nat, b: nat)
    requires a <= b
    ensures Ceil(a, FRAME) <= Ceil(b, FRAME)
    ensures FIRST_PAGE * FRAME <= a ==> FIRST_PAGE <= Ceil(a, FRAME)
  {
  }

  // The heap after some calls against what it was before the first.
  ghost predicate HeapGrew(g: Geo, m0: Mem, m: Mem, d: nat, start: nat, end: nat, end': nat, limit: nat) {
    && d < |m0.ram| && d < |m.ram| && FIRST_PAGE <= Ceil(start, FRAME) <= Ceil(end, FRAME)
    && Ceil(end, FRAME) <= Ceil(end', FRAME) <= limit <= LAST_PAGE
    && IsOwned(m, d, Dir) && NoneAbove(m, d, end', limit)
    && var v0, all := Ceil(end, FRAME), Ceil(end', FRAME) - Ceil(end, FRAME);
    && var fits := all + |Missing(m0, d, v0, all)| <= Free(g, m0);
    && (HeapOk(m, d, start, end', limit) <==> HeapOk(m0, d, start, end, limit) && fits)
    && (fits ==> Counted(m0, m, d, v0, all, all))
  }

  lemma HeapGrewBegins(g: Geo, m: Mem, d: nat, start: nat, end: nat, limit: nat)
    requires Inv(g, m) && IsOwned(m, d, Dir) && FIRST_PAGE <= Ceil(start, FRAME) <= Ceil(end, FRAME)
    requires Ceil(end, FRAME) <= limit <= LAST_PAGE && d < |m.ram| && NoneAbove(m, d, end, limit)
    ensures HeapGrew(g, m, m, d, start, end, end, limit)
  {
    hide Inv, NoneAbove, HeapOk, Counted, Missing, Free, Quot;
    NothingNeeded(g, m, d, Ceil(end, FRAME));
  }

  // One more call: the whole fits exactly when what came before did and this does.
  lemma HeapGrewOn(g: Geo, m0: Mem, m1: Mem, m2: Mem, d: nat, start: nat, end: nat, mid: nat, end': nat, limit: nat,
                   n: nat, lost: set<nat>)
    requires HeapGrew(g, m0, m1, d, start, end, mid, limit) && HeapGrown(g, m1, m2, d, start, mid, end', limit, n, lost)
    ensures HeapGrew(g, m0, m2, d, start, end, end', limit)
  {
    hide Inv, NoneAbove, HeapOk, Counted, Missing, Quot, Space, Full, Free, SpaceWithPages;
    var v0, a, b := Ceil(end, FRAME), Ceil(mid, FRAME) - Ceil(end, FRAME), Ceil(end', FRAME) - Ceil(mid, FRAME);
    MissingMonotone(m0, d, v0, a, a + b);
    if a + |Missing(m0, d, v0, a)| <= Free(g, m0) {
      CountJoins(g, m0, m1, d, v0, a, b);
      if n == b { CountedJoins(m0, m1, m2, d, v0, a, b); }
    }
  }

  // Any calls of sbrk in a row: each returns where the one before left the end. The
  // heap is in order after the last exactly when it was before the first and the
  // frames free then sufficed for all the pages and their missing tables: however
  // the growth is cut into calls, and whatever those in the middle met.
  method GrowHeap(mm: Memory, task: Task, incrs: seq<nat>, ghost start: nat, ghost limit: nat) returns (ends: seq<nat>)
    requires mm.Valid() && IsOwned(mm.M(), task.cr3, Dir) && task.cr3 < |mm.ram|
    requires FIRST_PAGE * FRAME <= start <= task.heapEnd && Ceil(task.heapEnd + Sum(incrs), FRAME) <= limit <= LAST_PAGE
    requires NoneAbove(mm.M(), task.cr3, task.heapEnd, limit)
    modifies mm, mm.bitmap, mm.bitmap.bits, task`heapEnd
    ensures mm.Valid() && Reaches(mm.g, old(mm.M()), mm.M())
    ensures |ends| == |incrs| && task.heapEnd == old(task.heapEnd) + Sum(incrs)
    ensures forall i :: 0 <= i < |incrs| ==> ends[i] == old(task.heapEnd) + Sum(incrs[..i])
    ensures HeapGrew(mm.g, old(mm.M()), mm.M(), task.cr3, start, old(task.heapEnd), task.heapEnd, limit)
  {
    hide Inv, Marks, NoneAbove, HeapGrew, HeapGrown, Reaches, Quot;
    ghost var m0, end, d := mm.M(), task.heapEnd, task.cr3;
    ReachesItself(mm.g, m0);
    SumMonotone(incrs, 0);
    CeilOrdered(start, end);
    CeilOrdered(end, end + Sum(incrs));
    HeapGrewBegins(mm.g, m0, d, start, end, limit);
    ends := [];
    var i := 0;
    while i < |incrs|
      invariant 0 <= i <= |incrs| == |ends| + |incrs| - i && mm.Valid() && Reaches(mm.g, m0, mm.M())
      invariant task.heapEnd == end + Sum(incrs[..i])
      invariant forall k :: 0 <= k < i ==> ends[k] == end + Sum(incrs[..k])
      invariant HeapGrew(mm.g, m0, mm.M(), d, start, end, task.heapEnd, limit)
    {
      ghost var m1, mid := mm.M(), task.heapEnd;
      assert incrs[..i + 1][..i] == incrs[..i] && Sum(incrs[..i + 1]) == Sum(incrs[..i]) + incrs[i];
      SumMonotone(incrs, i + 1);
      CeilOrdered(task.heapEnd + incrs[i], end + Sum(incrs));
      HeapGrewFacts(mm.g, m0, m1, d, start, end, mid, limit);
      var preHeapEnd;
      ghost var n, lost;
      preHeapEnd, n, lost := SysSbrk(mm, task, incrs[i], start, limit);
      HeapGrewOn(mm.g, m0, m1, mm.M(), d, start, end, mid, task.heapEnd, limit, n, lost);
      ReachesThrough(mm.g, m0, m1, mm.M());
      ends, i := ends + [preHeapEnd], i + 1;
    }
    assert incrs[..|incrs|] == incrs;
  }

  lemma HeapGrewFacts(g: Geo, m0: Mem, m: Mem, d: nat, start: nat, end: nat, end': nat, limit: nat)
    requires HeapGrew(g, m0, m, d, start, end, end', limit)
    ensures d < |m.ram| && IsOwned(m, d, Dir) && NoneAbove(m, d, end', limit)
  {
  }

  // ------------------------------------------------------------ memory_free_page

  // Page v leaves address space d and its frame is free; every other page of
  // every address space stays.
  ghost predicate Unmapped(g: Geo, m: Mem, m': Mem, d: nat, v: nat)
    requires d < |m.ram| && v < LAST_PAGE
  {
    && Inv(g, m') && |m'.ram| == |m.ram| && m'.owner == m.owner - {FrameOf(Space(m, d, v))}
    && forall y: nat, u {:trigger Space(m', y, u)} ::
         IsOwned(m, y, Dir) && y < |m.ram| && FIRST_PAGE <= u < LAST_PAGE ==>
         Space(m', y, u) == if y == d && u == v then 0 else Space(m, y, u)
  }

  lemma PageUnmapped(g: Geo, m: Mem, d: nat, v: nat, t: nat)
    requires Inv(g, m) && IsOwned(m, d, Dir) && d < |m.ram| && FIRST_PAGE <= v < LAST_PAGE && Present(Space(m, d, v))
    requires IsOwned(m, t, Tab(d, v / ENTRIES)) && Managed(g, t) && t == FrameOf(Word(m.ram[d], v / ENTRIES))
    ensures t < |m.ram| && FrameOf(Space(m, d, v)) == FrameOf(Word(m.ram[t], v % ENTRIES))
    ensures var p := FrameOf(Space(m, d, v));
      && IsOwned(m, p, Leaf(d, v / ENTRIES, v % ENTRIES)) && Managed(g, p)
      && Inv(g, WithoutLeaf(m, v % ENTRIES, t, p)) && Unmapped(g, m, WithoutLeaf(m, v % ENTRIES, t, p), d, v)
  {
    hide RoleOk, KernelOk, Word, PutWord;
    var p := FrameOf(Space(m, d, v));
    PageIsOwned(g, m, d, v);
    UnleafKeeps(g, m, d, v / ENTRIES, v % ENTRIES, t, p);
    forall y: nat | IsOwned(m, y, Dir) {
      UnleafSpace(g, m, d, v / ENTRIES, v % ENTRIES, t, p, y);
    }
  }

  // Below the user half a frame of the kernel's own, above it a mapped page of
  // the current address space d.
  method MemoryFreePage(mm: Memory, d: nat, addr: nat)
    requires mm.Valid() && IsOwned(mm.M(), d, Dir) && d < |mm.ram| && addr / FRAME < LAST_PAGE
    requires addr / FRAME < FIRST_PAGE ==> IsOwned(mm.M(), addr / FRAME, Loose)
    requires FIRST_PAGE <= addr / FRAME ==> Present(Space(mm.M(), d, addr / FRAME))
    modifies mm, mm.bitmap, mm.bitmap.bits
    ensures mm.Valid() && Reaches(mm.g, old(mm.M()), mm.M())
    ensures addr / FRAME < FIRST_PAGE ==> mm.M() == Released(old(mm.M()), addr / FRAME)
    ensures FIRST_PAGE <= addr / FRAME ==> Unmapped(mm.g, old(mm.M()), mm.M(), d, addr / FRAME)
  {
    hide Unmapped, Word, PutWord, Inv, PteFound, PteCounted, Space, PdeIndex, PteIndex, Reaches, Marks;
    ghost var m := mm.M();
    if addr / FRAME < FIRST_PAGE {
      mm.AddrFreePage(addr / FRAME);
    } else {
      var ok, t, j := mm.FindPte(d, addr, false);
      EntryThere(mm.g, m, mm.M(), d, addr, ok, t);
      PageUnmapped(mm.g, m, d, addr / FRAME, t);
      ReachesItself(mm.g, m);
      UnleafReached(mm.g, m, d, addr / FRAME / ENTRIES, addr / FRAME % ENTRIES, t, FrameOf(Word(mm.ram[t], j)));
      var p := FrameOf(Word(mm.ram[t], j));
      ghost var ones := mm.bitmap.ones;
      mm.ClearMark(p);
      UnmarkedOne(mm.g, ones, mm.bitmap.ones, mm.owner, p);
      mm.ram := mm.ram[t := PutWord(mm.ram[t], j, 0)];
      mm.owner := mm.owner - {p};
    }
  }

  lemma UnmarkedOne(g: Geo, ones: set<nat>, ones': set<nat>, owner: map<nat, Role>, p: nat)
    requires Marks(g, ones, owner)
    requires forall k {:trigger k in ones'} :: k in ones' <==> k in ones && k != p - g.base
    ensures Marks(g, ones', owner - {p})
  {
  }

  lemma UnleafReached(g: Geo, m: Mem, d: nat, i: nat, j: nat, t: nat, p: nat)
    requires Inv(g, m) && IsOwned(m, t, Tab(d, i)) && IsOwned(m, p, Leaf(d, i, j)) && j < ENTRIES && Managed(g, t)
    ensures t < |m.ram| && Reaches(g, m, WithoutLeaf(m, j, t, p))
  {
    hide Reaches;
    ReachesItself(g, m);
    OneEvent(g, m, m, Unmap(d, i, j, t, p), WithoutLeaf(m, j, t, p));
  }

  lemma EntryThere(g: Geo, m: Mem, m': Mem, d: nat, addr: nat, ok: bool, t: nat)
    requires d < |m.ram| && FIRST_PAGE <= addr / FRAME < LAST_PAGE && Present(Space(m, d, addr / FRAME))
    requires PdeIndex(addr) < ENTRIES && PteFound(g, m, m', d, PdeIndex(addr), false, ok, t)
    ensures m' == m && PteIndex(addr) == addr / FRAME % ENTRIES
    ensures ok && Managed(g, t) && IsOwned(m, t, Tab(d, addr / FRAME / ENTRIES))
    ensures t == FrameOf(Word(m.ram[d], addr / FRAME / ENTRIES))
  {
    hide Word, Inv;
    assert PdeIndex(addr) == addr / FRAME / ENTRIES;
  }
}
