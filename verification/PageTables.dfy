/** Physical memory as page frames, two-level page tables kept in them, and who
    owns which frame. A frame number f stands for the physical address f * 4096. */
module PageTables {
  import opened Bytes

  const FRAME: nat := 4096
  const ENTRIES: nat := 1024
  const USER: nat := 512        // pde_index(MEMORY_TASK_BASE)

  type Frame = s: seq<byte> | |s| == FRAME witness seq(FRAME, _ => 0)
  type Ram = seq<Frame>

  function ZeroFrame(): (f: Frame) { seq(FRAME, _ => 0) }

  // ------------------------------------------------------------ words of a frame

  function Word(f: Frame, k: nat): (w: nat)
    requires k < ENTRIES
    ensures w < 0x1_0000_0000
  {
    f[4 * k] as int + 0x100 * (f[4 * k + 1] as int) + 0x1_0000 * (f[4 * k + 2] as int)
      + 0x100_0000 * (f[4 * k + 3] as int)
  }

  function WordBytes(w: nat): (s: seq<byte>)
    requires w < 0x1_0000_0000
    ensures |s| == 4
  {
    [w % 0x100, w / 0x100 % 0x100, w / 0x1_0000 % 0x100, w / 0x100_0000]
  }

  function PutWord(f: Frame, k: nat, w: nat): (r: Frame)
    requires k < ENTRIES && w < 0x1_0000_0000
    ensures Word(r, k) == w
    ensures forall j {:trigger Word(r, j)} :: 0 <= j < ENTRIES && j != k ==> Word(r, j) == Word(f, j)
  {
    WordBytesBack(w);
    Splice(f, 4 * k, WordBytes(w))
  }

  lemma WordBytesBack(w: nat)
    requires w < 0x1_0000_0000
    ensures var s := WordBytes(w);
      w == s[0] as int + 0x100 * (s[1] as int) + 0x1_0000 * (s[2] as int) + 0x100_0000 * (s[3] as int)
  {
  }

  lemma ZeroWords()
    ensures forall j {:trigger Word(ZeroFrame(), j)} :: 0 <= j < ENTRIES ==> Word(ZeroFrame(), j) == 0
  {
  }

  // ------------------------------------------------------------ entries

  // The present bit, the frame address and the low permission bits of an entry.
  predicate Present(w: nat) {
    w % 2 == 1
  }

  // The read/write and the user/supervisor bit.
  predicate MayWrite(w: nat) {
    w / 2 % 2 == 1
  }

  predicate MayUse(w: nat) {
    w / 4 % 2 == 1
  }

  function FrameOf(w: nat): nat {
    w / 0x1000
  }

  function Perm(w: nat): nat {
    w % 0x200
  }

  // paddr | perm | PTE_P for a page-aligned address: no bits overlap but the
  // last, so the bits can be added.
  function Entry(f: nat, perm: nat): nat
    requires perm < 0x1000
  {
    f * 0x1000 + if Present(perm) then perm else perm + 1
  }

  lemma EntryFields(f: nat, perm: nat)
    requires perm < 0x1000
    ensures Present(Entry(f, perm)) && FrameOf(Entry(f, perm)) == f
    ensures perm < 0x200 && Present(perm) ==> Perm(Entry(f, perm)) == perm
    ensures f < 0x10_0000 ==> Entry(f, perm) < 0x1_0000_0000
  {
  }

  // Bit 0 is set, bits 1 to 11 are those of perm, and the frame is above them.
  lemma EntryIs(f: nat, perm: nat)
    requires perm < 0x1000
    ensures Entry(f, perm) / 0x1000 == f && Entry(f, perm) % 0x1000 / 2 == perm / 2 && Entry(f, perm) % 2 == 1
  {
    var low := if Present(perm) then perm else perm + 1;
    LowEven(perm);
    HighLow(Entry(f, perm), f, low);
    hide Entry, Present;
  }

  lemma LowEven(n: nat)
    requires n < 0x1000
    ensures n % 2 != 1 ==> n + 1 < 0x1000 && (n + 1) / 2 == n / 2 && (n + 1) % 2 == 1
  {
  }

  lemma HighLow(w: nat, f: nat, low: nat)
    requires w == 0x1000 * f + low && low < 0x1000
    ensures w / 0x1000 == f && w % 0x1000 == low && w % 2 == low % 2
  {
    assert w == 2 * (0x800 * f) + low;
  }

  lemma EntryBits(f: nat, perm: nat)
    requires perm < 0x1000
    ensures MayWrite(Entry(f, perm)) <==> MayWrite(perm)
    ensures MayUse(Entry(f, perm)) <==> MayUse(perm)
  {
    LowBits(Entry(f, perm), 8 * f, if Present(perm) then perm else perm + 1);
  }

  // The bits of w = 512 a + b are those of b.
  lemma LowBits(w: nat, a: nat, b: nat)
    requires w == 0x200 * a + b
    ensures MayWrite(w) <==> MayWrite(b)
    ensures MayUse(w) <==> MayUse(b)
  {
    assert w / 2 == 0x100 * a + b / 2;
    assert w / 4 == 0x80 * a + b / 4;
  }

  lemma PermBits(w: nat)
    ensures MayWrite(Perm(w)) <==> MayWrite(w)
    ensures MayUse(Perm(w)) <==> MayUse(w)
  {
    LowBits(w, w / 0x200, w % 0x200);
    hide MayWrite, MayUse;
  }

  // Splitting a virtual address, and putting it together again.
  function PdeIndex(vaddr: nat): nat { vaddr / 0x40_0000 }
  function PteIndex(vaddr: nat): nat { vaddr / 0x1000 % 0x400 }
  function Offset(vaddr: nat): nat { vaddr % 0x1000 }

  lemma AddressParts(vaddr: nat, i: nat, j: nat, o: nat)
    requires j < ENTRIES && o < FRAME
    ensures vaddr == i * 0x40_0000 + j * 0x1000 + o <==>
      PdeIndex(vaddr) == i && PteIndex(vaddr) == j && Offset(vaddr) == o
  {
  }

  // The user half is the upper half of the 32-bit addresses.
  lemma UserHalf(vaddr: nat)
    requires vaddr < 0x1_0000_0000
    ensures USER <= PdeIndex(vaddr) <==> 0x8000_0000 <= vaddr
    ensures FIRST_PAGE <= vaddr / 0x1000 <==> 0x8000_0000 <= vaddr
    ensures PdeIndex(vaddr) < ENTRIES && vaddr / 0x1000 < LAST_PAGE && FRAME == 0x1000
  {
  }

  // ------------------------------------------------------------ ownership

  // The part an allocated frame plays: the directory of an address space, the
  // table of one directory entry, the page of one table entry, a table of the
  // kernel, or none of these.
  datatype Role = Dir | Tab(d: nat, i: nat) | Leaf(d: nat, i: nat, j: nat) | KTab(i: nat) | Loose

  // The allocator's frames are base .. base + count; the kernel's directory is
  // not among them.
  datatype Geo = Geo(base: nat, count: nat, kdir: nat)

  datatype Mem = Mem(ram: Ram, owner: map<nat, Role>)

  ghost predicate Managed(g: Geo, f: nat) {
    g.base <= f < g.base + g.count
  }

  ghost predicate GeoOk(g: Geo, m: Mem) {
    && g.kdir < g.base && 0 < g.base && g.base + g.count <= |m.ram| <= 0x10_0000
    && forall f :: f in m.owner ==> Managed(g, f)
  }

  ghost predicate IsOwned(m: Mem, f: nat, r: Role) {
    f in m.owner && m.owner[f] == r
  }

  // Table t of entry i of directory d: each present entry has its own page.
  ghost predicate TabOk(m: Mem, d: nat, i: nat, t: nat)
    requires t < |m.ram|
  {
    forall j {:trigger Word(m.ram[t], j)} :: 0 <= j < ENTRIES && Present(Word(m.ram[t], j)) ==>
      IsOwned(m, FrameOf(Word(m.ram[t], j)), Leaf(d, i, j))
  }

  ghost predicate DirOk(g: Geo, m: Mem, d: nat)
    requires GeoOk(g, m) && d < |m.ram|
  {
    && (forall i {:trigger Word(m.ram[d], i)} :: 0 <= i < USER ==> Word(m.ram[d], i) == Word(m.ram[g.kdir], i))
    && (forall i {:trigger Word(m.ram[d], i)} :: USER <= i < ENTRIES && Present(Word(m.ram[d], i)) ==>
          IsOwned(m, FrameOf(Word(m.ram[d], i)), Tab(d, i)))
  }

  ghost predicate TabLinked(g: Geo, m: Mem, t: nat, d: nat, i: nat)
    requires GeoOk(g, m)
  {
    && IsOwned(m, d, Dir) && USER <= i < ENTRIES
    && Managed(g, d) && Present(Word(m.ram[d], i)) && FrameOf(Word(m.ram[d], i)) == t
    && MayWrite(Word(m.ram[d], i)) && MayUse(Word(m.ram[d], i))
  }

  // What the role of frame f means.
  ghost predicate RoleOk(g: Geo, m: Mem, f: nat)
    requires GeoOk(g, m) && f in m.owner
  {
    assert Managed(g, f);
    match m.owner[f]
    case Dir => DirOk(g, m, f)
    case Tab(d, i) => TabLinked(g, m, f, d, i) && TabOk(m, d, i, f)
    case Leaf(d, i, j) =>
      && IsOwned(m, d, Dir) && Managed(g, d) && USER <= i < ENTRIES && j < ENTRIES && Present(Word(m.ram[d], i))
      && var t := FrameOf(Word(m.ram[d], i));
      && IsOwned(m, t, Tab(d, i)) && Managed(g, t) && Present(Word(m.ram[t], j)) && FrameOf(Word(m.ram[t], j)) == f
    case KTab(i) => i < USER && Present(Word(m.ram[g.kdir], i)) && FrameOf(Word(m.ram[g.kdir], i)) == f
    case Loose => true
  }

  ghost predicate KernelOk(g: Geo, m: Mem)
    requires GeoOk(g, m)
  {
    forall i {:trigger Word(m.ram[g.kdir], i)} :: 0 <= i < USER && Present(Word(m.ram[g.kdir], i)) ==>
      IsOwned(m, FrameOf(Word(m.ram[g.kdir], i)), KTab(i))
  }

  ghost predicate Inv(g: Geo, m: Mem) {
    GeoOk(g, m) && KernelOk(g, m) && forall f :: f in m.owner ==> RoleOk(g, m, f)
  }

  // ------------------------------------------------------------ the steps

  ghost function Claimed(m: Mem, f: nat): Mem {
    m.(owner := m.owner[f := Loose])
  }

  ghost function Released(m: Mem, f: nat): Mem {
    m.(owner := m.owner - {f})
  }

  // A fresh directory: the kernel's entries in the lower half, none above.
  ghost predicate IsFreshDir(f: Frame, kernel: Frame) {
    forall i {:trigger Word(f, i)} :: 0 <= i < ENTRIES ==> Word(f, i) == if i < USER then Word(kernel, i) else 0
  }

  ghost function WithDir(m: Mem, f: nat, fr: Frame): Mem
    requires f < |m.ram|
  {
    Mem(m.ram[f := fr], m.owner[f := Dir])
  }

  const TABLE_PERM: nat := 7   // PDE_P | PDE_W | PDE_U

  ghost function WithTab(m: Mem, d: nat, i: nat, t: nat): Mem
    requires d < |m.ram| && t < |m.ram| <= 0x10_0000 && i < ENTRIES && d != t
  {
    EntryFields(t, TABLE_PERM);
    Mem(m.ram[t := ZeroFrame()][d := PutWord(m.ram[d], i, Entry(t, TABLE_PERM))], m.owner[t := Tab(d, i)])
  }

  ghost function WithLeaf(m: Mem, d: nat, i: nat, j: nat, t: nat, p: nat, perm: nat): Mem
    requires t < |m.ram| && p < 0x10_0000 && j < ENTRIES && perm < 0x1000
  {
    EntryFields(p, perm);
    Mem(m.ram[t := PutWord(m.ram[t], j, Entry(p, perm))], m.owner[p := Leaf(d, i, j)])
  }

  ghost function WithoutLeaf(m: Mem, j: nat, t: nat, p: nat): Mem
    requires t < |m.ram| && j < ENTRIES
  {
    Mem(m.ram[t := PutWord(m.ram[t], j, 0)], m.owner - {p})
  }

  ghost function WithBytes(m: Mem, p: nat, f: Frame): Mem
    requires p < |m.ram|
  {
    m.(ram := m.ram[p := f])
  }

  // The frames of one address space.
  ghost predicate BelongsTo(r: Role, f: nat, d: nat) {
    (r == Dir && f == d) || (r.Tab? && r.d == d) || (r.Leaf? && r.d == d)
  }

  ghost function WithoutDir(m: Mem, d: nat): Mem {
    m.(owner := map f | f in m.owner && !BelongsTo(m.owner[f], f, d) :: m.owner[f])
  }

  // Each step keeps ownership in order.

  lemma ClaimKeeps(g: Geo, m: Mem, f: nat)
    requires Inv(g, m) && Managed(g, f) && f !in m.owner
    ensures Inv(g, Claimed(m, f))
  {
    hide Word;
    var m' := Claimed(m, f);
    forall x | x in m'.owner ensures RoleOk(g, m', x) {
      if x != f { assert RoleOk(g, m, x); }
    }
  }

  lemma ReleaseKeeps(g: Geo, m: Mem, f: nat)
    requires Inv(g, m) && IsOwned(m, f, Loose)
    ensures Inv(g, Released(m, f))
  {
    hide Word;
    var m' := Released(m, f);
    forall x | x in m'.owner ensures RoleOk(g, m', x) {
      assert RoleOk(g, m, x);
    }
  }

  lemma BytesKeep(g: Geo, m: Mem, p: nat, f: Frame)
    requires Inv(g, m) && p in m.owner && (m.owner[p] == Loose || m.owner[p].Leaf?)
    ensures p < |m.ram| && Inv(g, WithBytes(m, p, f))
  {
    hide Word;
    assert Managed(g, p);
    var m' := WithBytes(m, p, f);
    forall x | x in m'.owner ensures RoleOk(g, m', x) {
      assert RoleOk(g, m, x);
    }
  }

  lemma DirKeeps(g: Geo, m: Mem, f: nat, fr: Frame)
    requires Inv(g, m) && IsOwned(m, f, Loose) && IsFreshDir(fr, m.ram[g.kdir])
    ensures f < |m.ram| && Inv(g, WithDir(m, f, fr))
  {
    hide Word;
    assert Managed(g, f);
    var m' := WithDir(m, f, fr);
    forall x | x in m'.owner ensures RoleOk(g, m', x) {
      if x != f { assert RoleOk(g, m, x); }
    }
  }

  lemma TabKeeps(g: Geo, m: Mem, d: nat, i: nat, t: nat)
    requires Inv(g, m) && IsOwned(m, d, Dir) && IsOwned(m, t, Loose)
    requires USER <= i < ENTRIES && Managed(g, d) && !Present(Word(m.ram[d], i))
    ensures Managed(g, t) && Inv(g, WithTab(m, d, i, t))
  {
    hide Word;
    assert Managed(g, t);
    EntryFields(t, TABLE_PERM);
    EntryBits(t, TABLE_PERM);
    ZeroWords();
    var m' := WithTab(m, d, i, t);
    forall x | x in m'.owner ensures RoleOk(g, m', x) {
      if x != t { assert RoleOk(g, m, x); }
    }
  }

  lemma LeafKeeps(g: Geo, m: Mem, d: nat, i: nat, j: nat, t: nat, p: nat, perm: nat)
    requires Inv(g, m) && IsOwned(m, t, Tab(d, i)) && IsOwned(m, p, Loose)
    requires j < ENTRIES && perm < 0x1000 && Managed(g, t) && !Present(Word(m.ram[t], j))
    ensures Managed(g, p) && Inv(g, WithLeaf(m, d, i, j, t, p, perm))
  {
    hide Word;
    assert Managed(g, p) && RoleOk(g, m, t);
    EntryFields(p, perm);
    var m' := WithLeaf(m, d, i, j, t, p, perm);
    forall x | x in m'.owner ensures RoleOk(g, m', x) {
      if x != p { assert RoleOk(g, m, x); }
    }
  }

  lemma UnleafKeeps(g: Geo, m: Mem, d: nat, i: nat, j: nat, t: nat, p: nat)
    requires Inv(g, m) && IsOwned(m, t, Tab(d, i)) && IsOwned(m, p, Leaf(d, i, j))
    requires j < ENTRIES && Managed(g, t)
    ensures Inv(g, WithoutLeaf(m, j, t, p))
  {
    hide Word;
    assert RoleOk(g, m, p) && RoleOk(g, m, t);
    var m' := WithoutLeaf(m, j, t, p);
    forall x | x in m'.owner ensures RoleOk(g, m', x) {
      assert RoleOk(g, m, x);
    }
  }

  lemma UndirKeeps(g: Geo, m: Mem, d: nat)
    requires Inv(g, m) && IsOwned(m, d, Dir)
    ensures Inv(g, WithoutDir(m, d))
  {
    hide Word;
    var m' := WithoutDir(m, d);
    forall x | x in m'.owner ensures RoleOk(g, m', x) {
      assert RoleOk(g, m, x);
    }
  }

  // ------------------------------------------------------------ address spaces

  const FIRST_PAGE: nat := USER * ENTRIES
  const LAST_PAGE: nat := ENTRIES * ENTRIES

  // The table entry of virtual page v in the address space of directory d, 0
  // when there is no table for it.
  ghost function Space(m: Mem, d: nat, v: nat): nat
    requires d < |m.ram| && v < LAST_PAGE
  {
    var w := Word(m.ram[d], v / ENTRIES);
    if Present(w) && FrameOf(w) < |m.ram| then Word(m.ram[FrameOf(w)], v % ENTRIES) else 0
  }

  ghost predicate SameSpace(m: Mem, m': Mem, d: nat)
    requires d < |m.ram| == |m'.ram|
  {
    forall v {:trigger Space(m', d, v)} :: FIRST_PAGE <= v < LAST_PAGE ==> Space(m', d, v) == Space(m, d, v)
  }

  // A page of an address space is a frame of its own.
  lemma PageIsOwned(g: Geo, m: Mem, d: nat, v: nat)
    requires Inv(g, m) && IsOwned(m, d, Dir) && FIRST_PAGE <= v < LAST_PAGE
    ensures d < |m.ram|
    ensures Present(Space(m, d, v)) ==>
      Managed(g, FrameOf(Space(m, d, v))) && IsOwned(m, FrameOf(Space(m, d, v)), Leaf(d, v / ENTRIES, v % ENTRIES))
  {
    hide Word;
    assert Managed(g, d) && RoleOk(g, m, d);
    var w := Word(m.ram[d], v / ENTRIES);
    if Present(w) {
      assert IsOwned(m, FrameOf(w), Tab(d, v / ENTRIES));
      assert Managed(g, FrameOf(w)) && RoleOk(g, m, FrameOf(w));
      if Present(Space(m, d, v)) {
        assert FrameOf(Space(m, d, v)) in m.owner;
      }
    }
  }

  // What the processor lets user code do with page v: both levels must be present
  // and allow it.
  ghost predicate UserReads(m: Mem, d: nat, v: nat)
    requires d < |m.ram| && v < LAST_PAGE
  {
    var w := Word(m.ram[d], v / ENTRIES);
    && Present(w) && MayUse(w) && FrameOf(w) < |m.ram|
    && var e := Word(m.ram[FrameOf(w)], v % ENTRIES);
    Present(e) && MayUse(e)
  }

  ghost predicate UserWrites(m: Mem, d: nat, v: nat)
    requires d < |m.ram| && v < LAST_PAGE
  {
    && UserReads(m, d, v) && MayWrite(Word(m.ram[d], v / ENTRIES))
    && MayWrite(Word(m.ram[FrameOf(Word(m.ram[d], v / ENTRIES))], v % ENTRIES))
  }

  // The directories never stand in the way: it is the table entry that decides.
  lemma UserAccess(g: Geo, m: Mem, d: nat, v: nat)
    requires Inv(g, m) && IsOwned(m, d, Dir) && FIRST_PAGE <= v < LAST_PAGE
    ensures d < |m.ram|
    ensures UserReads(m, d, v) <==> Present(Space(m, d, v)) && MayUse(Space(m, d, v))
    ensures UserWrites(m, d, v) <==> UserReads(m, d, v) && MayWrite(Space(m, d, v))
  {
    hide Word, MayWrite, MayUse;
    assert Managed(g, d) && RoleOk(g, m, d);
    var w := Word(m.ram[d], v / ENTRIES);
    if Present(w) {
      assert IsOwned(m, FrameOf(w), Tab(d, v / ENTRIES));
      assert Managed(g, FrameOf(w)) && RoleOk(g, m, FrameOf(w));
    }
  }

  // User code may do with these pages what perm says, and no more.
  ghost predicate AccessIs(m: Mem, d: nat, v0: nat, n: nat, perm: nat)
    requires d < |m.ram|
  {
    forall v {:trigger UserReads(m, d, v)} {:trigger UserWrites(m, d, v)} ::
      FIRST_PAGE <= v < LAST_PAGE && v0 <= v < v0 + n ==>
      && (UserReads(m, d, v) <==> MayUse(perm))
      && (UserWrites(m, d, v) <==> MayUse(perm) && MayWrite(perm))
  }

  lemma EntriesAccess(g: Geo, m: Mem, d: nat, v0: nat, n: nat, perm: nat)
    requires Inv(g, m) && IsOwned(m, d, Dir) && d < |m.ram| && perm < 0x1000
    requires forall v {:trigger Space(m, d, v)} :: FIRST_PAGE <= v < LAST_PAGE && v0 <= v < v0 + n ==>
      Space(m, d, v) == Entry(FrameOf(Space(m, d, v)), perm)
    ensures AccessIs(m, d, v0, n, perm)
  {
    hide Inv, Space, MayUse, MayWrite, Entry, UserReads, UserWrites, FrameOf;
    forall v | FIRST_PAGE <= v < LAST_PAGE && v0 <= v < v0 + n
      ensures UserReads(m, d, v) <==> MayUse(perm)
      ensures UserWrites(m, d, v) <==> MayUse(perm) && MayWrite(perm)
    {
      var f := FrameOf(Space(m, d, v));
      UserAccess(g, m, d, v);
      EntryFields(f, perm);
      EntryBits(f, perm);
    }
  }

  // No two pages of any address spaces share a frame.
  lemma PagesDistinct(g: Geo, m: Mem, d: nat, v: nat, d': nat, v': nat)
    requires Inv(g, m) && IsOwned(m, d, Dir) && IsOwned(m, d', Dir)
    requires FIRST_PAGE <= v < LAST_PAGE && FIRST_PAGE <= v' < LAST_PAGE
    requires d < |m.ram| && d' < |m.ram| && Present(Space(m, d, v)) && Present(Space(m, d', v'))
    requires FrameOf(Space(m, d, v)) == FrameOf(Space(m, d', v'))
    ensures d == d' && v == v'
  {
    PageIsOwned(g, m, d, v);
    PageIsOwned(g, m, d', v');
  }

  // Mapping a page changes that page of that address space and no other.
  lemma LeafSpace(g: Geo, m: Mem, d: nat, i: nat, j: nat, t: nat, p: nat, perm: nat, d': nat)
    requires Inv(g, m) && IsOwned(m, t, Tab(d, i)) && IsOwned(m, p, Loose) && j < ENTRIES && perm < 0x1000
    requires Managed(g, t) && IsOwned(m, d', Dir)
    ensures var m' := WithLeaf(m, d, i, j, t, p, perm);
      && d' < |m.ram|
      && forall v {:trigger Space(m', d', v)} :: FIRST_PAGE <= v < LAST_PAGE ==>
           Space(m', d', v) == if d' == d && v == i * ENTRIES + j then Entry(p, perm) else Space(m, d', v)
  {
    hide Word;
    assert Managed(g, d') && RoleOk(g, m, t) && RoleOk(g, m, d');
    EntryFields(p, perm);
    var m' := WithLeaf(m, d, i, j, t, p, perm);
    forall v | FIRST_PAGE <= v < LAST_PAGE
      ensures Space(m', d', v) == if d' == d && v == i * ENTRIES + j then Entry(p, perm) else Space(m, d', v)
    {
      var w := Word(m.ram[d'], v / ENTRIES);
      if Present(w) { assert IsOwned(m, FrameOf(w), Tab(d', v / ENTRIES)); }
    }
  }

  lemma UnleafSpace(g: Geo, m: Mem, d: nat, i: nat, j: nat, t: nat, p: nat, d': nat)
    requires Inv(g, m) && IsOwned(m, t, Tab(d, i)) && IsOwned(m, p, Leaf(d, i, j)) && j < ENTRIES
    requires Managed(g, t) && IsOwned(m, d', Dir)
    ensures var m' := WithoutLeaf(m, j, t, p);
      && d' < |m.ram|
      && forall v {:trigger Space(m', d', v)} :: FIRST_PAGE <= v < LAST_PAGE ==>
           Space(m', d', v) == if d' == d && v == i * ENTRIES + j then 0 else Space(m, d', v)
  {
    hide Word;
    assert Managed(g, d') && RoleOk(g, m, t) && RoleOk(g, m, d');
    var m' := WithoutLeaf(m, j, t, p);
    forall v | FIRST_PAGE <= v < LAST_PAGE
      ensures Space(m', d', v) == if d' == d && v == i * ENTRIES + j then 0 else Space(m, d', v)
    {
      var w := Word(m.ram[d'], v / ENTRIES);
      if Present(w) { assert IsOwned(m, FrameOf(w), Tab(d', v / ENTRIES)); }
    }
  }

  lemma TabSpace(g: Geo, m: Mem, d: nat, i: nat, t: nat, d': nat)
    requires Inv(g, m) && IsOwned(m, d, Dir) && IsOwned(m, t, Loose) && IsOwned(m, d', Dir)
    requires USER <= i < ENTRIES && Managed(g, d) && Managed(g, t) && !Present(Word(m.ram[d], i))
    ensures d' < |m.ram| && SameSpace(m, WithTab(m, d, i, t), d')
  {
    hide Word;
    assert Managed(g, d') && RoleOk(g, m, d');
    EntryFields(t, TABLE_PERM);
    ZeroWords();
    var m' := WithTab(m, d, i, t);
    forall v | FIRST_PAGE <= v < LAST_PAGE ensures Space(m', d', v) == Space(m, d', v) {
      var w := Word(m.ram[d'], v / ENTRIES);
      if Present(w) { assert IsOwned(m, FrameOf(w), Tab(d', v / ENTRIES)); }
    }
  }

  // Writing a page or a frame that no table is in changes no address space.
  lemma BytesSpace(g: Geo, m: Mem, p: nat, f: Frame, d: nat)
    requires Inv(g, m) && IsOwned(m, d, Dir) && p < |m.ram| && p != d
    requires p in m.owner ==> !m.owner[p].Tab?
    ensures d < |m.ram| && SameSpace(m, WithBytes(m, p, f), d)
  {
    hide Word;
    assert Managed(g, d) && RoleOk(g, m, d);
    var m' := WithBytes(m, p, f);
    forall v | FIRST_PAGE <= v < LAST_PAGE ensures Space(m', d, v) == Space(m, d, v) {
      var w := Word(m.ram[d], v / ENTRIES);
      if Present(w) { assert IsOwned(m, FrameOf(w), Tab(d, v / ENTRIES)); }
    }
  }

  // ------------------------------------------------------------ runs

  datatype Event =
    | Claim(f: nat) | Release(f: nat) | MakeDir(f: nat, fr: Frame) | MakeTab(d: nat, i: nat, t: nat)
    | Map(d: nat, i: nat, j: nat, t: nat, p: nat, perm: nat) | Unmap(d: nat, i: nat, j: nat, t: nat, p: nat)
    | Write(p: nat, bytes: Frame) | Drop(d: nat)

  // The changes that creating, mapping, allocating, copying, freeing and
  // destroying are made of, each with what its code has made sure of before.
  ghost predicate Step(g: Geo, m: Mem, e: Event, m': Mem)
    requires GeoOk(g, m)
  {
    match e
    case Claim(f) => Managed(g, f) && f !in m.owner && m' == Claimed(m, f)
    case Release(f) => IsOwned(m, f, Loose) && m' == Released(m, f)
    case MakeDir(f, fr) =>
      IsOwned(m, f, Loose) && Managed(g, f) && IsFreshDir(fr, m.ram[g.kdir]) && m' == WithDir(m, f, fr)
    case MakeTab(d, i, t) =>
      && IsOwned(m, d, Dir) && IsOwned(m, t, Loose) && USER <= i < ENTRIES && Managed(g, d) && Managed(g, t)
      && !Present(Word(m.ram[d], i)) && m' == WithTab(m, d, i, t)
    case Map(d, i, j, t, p, perm) =>
      && IsOwned(m, t, Tab(d, i)) && IsOwned(m, p, Loose) && j < ENTRIES && perm < 0x1000 && Managed(g, t)
      && Managed(g, p)
      && !Present(Word(m.ram[t], j)) && m' == WithLeaf(m, d, i, j, t, p, perm)
    case Unmap(d, i, j, t, p) =>
      && IsOwned(m, t, Tab(d, i)) && IsOwned(m, p, Leaf(d, i, j)) && j < ENTRIES && Managed(g, t)
      && m' == WithoutLeaf(m, j, t, p)
    case Write(p, bytes) =>
      p in m.owner && (m.owner[p] == Loose || m.owner[p].Leaf?) && Managed(g, p) && m' == WithBytes(m, p, bytes)
    case Drop(d) => IsOwned(m, d, Dir) && m' == WithoutDir(m, d)
  }

  lemma StepKeepsInv(g: Geo, m: Mem, e: Event, m': Mem)
    requires Inv(g, m) && Step(g, m, e, m')
    ensures Inv(g, m')
    ensures forall f, i :: IsOwned(m, f, KTab(i)) ==> IsOwned(m', f, KTab(i))
  {
    hide RoleOk, Word;
    match e
    case Claim(f) => ClaimKeeps(g, m, f);
    case Release(f) => ReleaseKeeps(g, m, f);
    case MakeDir(f, fr) => DirKeeps(g, m, f, fr);
    case MakeTab(d, i, t) => TabKeeps(g, m, d, i, t);
    case Map(d, i, j, t, p, perm) => LeafKeeps(g, m, d, i, j, t, p, perm);
    case Unmap(d, i, j, t, p) => UnleafKeeps(g, m, d, i, j, t, p);
    case Write(p, bytes) => BytesKeep(g, m, p, bytes);
    case Drop(d) => UndirKeeps(g, m, d);
  }

  ghost predicate Run(g: Geo, states: seq<Mem>, events: seq<Event>) {
    && |states| == |events| + 1
    && forall k {:trigger events[k]} :: 0 <= k < |events| ==>
         GeoOk(g, states[k]) && Step(g, states[k], events[k], states[k + 1])
  }

  // Along every run each allocated frame has one role, what a live directory
  // reaches is allocated, and a table of the kernel is never freed.
  lemma {:induction false} RunsKeepOwnership(g: Geo, states: seq<Mem>, events: seq<Event>, n: nat)
    requires Run(g, states, events) && Inv(g, states[0]) && n <= |events|
    ensures Inv(g, states[n])
    ensures forall f, i :: IsOwned(states[0], f, KTab(i)) ==> IsOwned(states[n], f, KTab(i))
  {
    hide Inv, Step;
    if 0 < n {
      RunsKeepOwnership(g, states, events, n - 1);
      assert Step(g, states[n - 1], events[n - 1], states[n]);
      StepKeepsInv(g, states[n - 1], events[n - 1], states[n]);
    }
  }

  // m' comes about from m by these changes.
  ghost predicate Reaches(g: Geo, m: Mem, m': Mem) {
    exists states: seq<Mem>, events: seq<Event> ::
      Run(g, states, events) && states[0] == m && states[|events|] == m'
  }

  lemma ReachesItself(g: Geo, m: Mem)
    ensures Reaches(g, m, m)
  {
    assert Run(g, [m], []);
  }

  lemma ReachesOn(g: Geo, m: Mem, n: Mem, e: Event, m': Mem)
    requires Reaches(g, m, n) && GeoOk(g, n) && Step(g, n, e, m')
    ensures Reaches(g, m, m')
  {
    hide Step, GeoOk;
    var states: seq<Mem>, events: seq<Event> :| Run(g, states, events) && states[0] == m && states[|events|] == n;
    var states', events' := states + [m'], events + [e];
    assert Run(g, states', events') by {
      forall k | 0 <= k < |events'| ensures GeoOk(g, states'[k]) && Step(g, states'[k], events'[k], states'[k + 1]) {
        if k < |events| { assert events'[k] == events[k]; }
      }
    }
    assert states'[0] == m && states'[|events'|] == m';
  }

  lemma ReachesThrough(g: Geo, m: Mem, n: Mem, m': Mem)
    requires Reaches(g, m, n) && Reaches(g, n, m')
    ensures Reaches(g, m, m')
  {
    hide Step, GeoOk;
    var a: seq<Mem>, x: seq<Event> :| Run(g, a, x) && a[0] == m && a[|x|] == n;
    var b: seq<Mem>, y: seq<Event> :| Run(g, b, y) && b[0] == n && b[|y|] == m';
    var states, events := a + b[1..], x + y;
    assert Run(g, states, events) by {
      forall k | 0 <= k < |events| ensures GeoOk(g, states[k]) && Step(g, states[k], events[k], states[k + 1]) {
        if k < |x| { assert events[k] == x[k]; } else { assert events[k] == y[k - |x|]; }
      }
    }
    assert states[0] == m && states[|events|] == m';
  }

  // Along every run every present entry of the user half of a directory lets user
  // code read and write, so that each page is as open as its own entry says.
  lemma DirectoriesOpen(g: Geo, states: seq<Mem>, events: seq<Event>, n: nat, d: nat, i: nat)
    requires Run(g, states, events) && Inv(g, states[0]) && n <= |events|
    requires IsOwned(states[n], d, Dir) && USER <= i < ENTRIES
    ensures d < |states[n].ram|
    ensures var w := Word(states[n].ram[d], i); Present(w) ==> w / 2 % 2 == 1 && w / 4 % 2 == 1
  {
    hide Word, Step;
    RunsKeepOwnership(g, states, events, n);
    var m := states[n];
    assert Managed(g, d) && RoleOk(g, m, d);
    if Present(Word(m.ram[d], i)) {
      assert IsOwned(m, FrameOf(Word(m.ram[d], i)), Tab(d, i));
      assert RoleOk(g, m, FrameOf(Word(m.ram[d], i)));
    }
  }

  // What the methods reach from a state in order is in order.
  lemma ReachedInv(g: Geo, m: Mem, m': Mem)
    requires Inv(g, m) && Reaches(g, m, m')
    ensures Inv(g, m') && forall f, i :: IsOwned(m, f, KTab(i)) ==> IsOwned(m', f, KTab(i))
  {
    hide Inv, Step;
    var states: seq<Mem>, events: seq<Event> :| Run(g, states, events) && states[0] == m && states[|events|] == m';
    RunsKeepOwnership(g, states, events, |events|);
  }

  // No free frame is reachable from a live directory, through the kernel half
  // or the user half.
  lemma ReachableIsAllocated(g: Geo, m: Mem, d: nat, i: nat, j: nat)
    requires Inv(g, m) && IsOwned(m, d, Dir) && i < ENTRIES && j < ENTRIES
    ensures d < |m.ram|
    ensures Present(Word(m.ram[d], i)) ==>
      && FrameOf(Word(m.ram[d], i)) in m.owner && FrameOf(Word(m.ram[d], i)) < |m.ram|
      && (USER <= i && Present(Word(m.ram[FrameOf(Word(m.ram[d], i))], j)) ==>
            FrameOf(Word(m.ram[FrameOf(Word(m.ram[d], i))], j)) in m.owner)
  {
    hide Word;
    assert Managed(g, d) && RoleOk(g, m, d);
    var w := Word(m.ram[d], i);
    if Present(w) {
      assert i < USER ==> w == Word(m.ram[g.kdir], i);
      assert FrameOf(w) in m.owner && Managed(g, FrameOf(w)) && RoleOk(g, m, FrameOf(w));
    }
  }
}
