/** Writing into an address space that is not active, and what a program finds
    on its stack: argument count, pointer table and strings. */
module ArgPassing {
  import opened Bytes
  import opened Bitmaps
  import opened PageTables
  import opened MemoryManager

  // ------------------------------------------------------------ bytes at virtual addresses

  ghost predicate UserAddr(a: nat) {
    FIRST_PAGE <= a / FRAME < LAST_PAGE
  }

  ghost predicate MappedAt(m: Mem, d: nat, a: nat)
    requires d < |m.ram|
  {
    UserAddr(a) && Present(Space(m, d, a / FRAME))
  }

  ghost function ByteAt(m: Mem, d: nat, a: nat): byte
    requires d < |m.ram|
  {
    if UserAddr(a) && FrameOf(Space(m, d, a / FRAME)) < |m.ram| then m.ram[FrameOf(Space(m, d, a / FRAME))][a % FRAME]
    else 0
  }

  ghost predicate RegionMapped(m: Mem, d: nat, to: nat, len: nat)
    requires d < |m.ram|
  {
    forall a {:trigger MappedAt(m, d, a)} :: to <= a < to + len ==> MappedAt(m, d, a)
  }

  // x is written at virtual address `to` of address space d, and nothing else
  // changes: no other byte of d, no table, no other frame.
  ghost predicate Wrote(g: Geo, m: Mem, m': Mem, d: nat, to: nat, x: seq<byte>) {
    && Inv(g, m) && Inv(g, m') && m'.owner == m.owner && SpacesKept(m, m')
    && IsOwned(m, d, Dir) && d < |m.ram| == |m'.ram|
    && (forall a {:trigger ByteAt(m', d, a)} :: 0 <= a && MappedAt(m, d, a) ==>
          ByteAt(m', d, a) == if to <= a < to + |x| then x[a - to] else ByteAt(m, d, a))
    && (forall f: nat {:trigger m'.ram[f]} ::
          f < |m.ram| && !(f in m.owner && m.owner[f].Leaf? && m.owner[f].d == d) ==>
          m'.ram[f] == m.ram[f])
  }

  lemma WroteNothing(g: Geo, m: Mem, d: nat, to: nat, x: seq<byte>)
    requires Inv(g, m) && IsOwned(m, d, Dir)
    requires forall a :: to <= a < to + |x| ==> d < |m.ram| && x[a - to] == ByteAt(m, d, a)
    ensures Wrote(g, m, m, d, to, x)
  {
    hide Space, RoleOk, KernelOk;
    assert Managed(g, d);
  }

  // Bytes written into the frame of one page.
  lemma ChunkWritten(g: Geo, m: Mem, d: nat, to: nat, x: seq<byte>, p: nat)
    requires Inv(g, m) && IsOwned(m, d, Dir) && d < |m.ram| && MappedAt(m, d, to)
    requires to % FRAME + |x| <= FRAME && p == FrameOf(Space(m, d, to / FRAME))
    ensures p < |m.ram| && Wrote(g, m, WithBytes(m, p, Splice(m.ram[p], to % FRAME, x)), d, to, x)
  {
    hide Word, RoleOk, KernelOk;
    var v, o := to / FRAME, to % FRAME;
    PageIsOwned(g, m, d, v);
    var m' := WithBytes(m, p, Splice(m.ram[p], o, x));
    BytesKeep(g, m, p, Splice(m.ram[p], o, x));
    forall y: nat | IsOwned(m, y, Dir) && y < |m.ram| ensures SameSpace(m, m', y) {
      BytesSpace(g, m, p, Splice(m.ram[p], o, x), y);
    }
    assert SameSpace(m, m', d);
    forall a | 0 <= a && MappedAt(m, d, a)
      ensures ByteAt(m', d, a) == if to <= a < to + |x| then x[a - to] else ByteAt(m, d, a)
    {
      PageIsOwned(g, m, d, a / FRAME);
      assert Space(m', d, a / FRAME) == Space(m, d, a / FRAME);
      hide Space;
      if a / FRAME != v { PagesDistinctFrames(g, m, d, v, a / FRAME); }
    }
  }

  lemma PagesDistinctFrames(g: Geo, m: Mem, d: nat, v: nat, v': nat)
    requires Inv(g, m) && IsOwned(m, d, Dir) && d < |m.ram| && v != v'
    requires FIRST_PAGE <= v < LAST_PAGE && FIRST_PAGE <= v' < LAST_PAGE
    requires Present(Space(m, d, v)) && Present(Space(m, d, v'))
    ensures FrameOf(Space(m, d, v)) != FrameOf(Space(m, d, v'))
  {
    hide Space, RoleOk, KernelOk;
    if FrameOf(Space(m, d, v)) == FrameOf(Space(m, d, v')) { PagesDistinct(g, m, d, v, d, v'); }
  }

  // A second write inside what the first one wrote.
  lemma WroteOver(g: Geo, m: Mem, n: Mem, m': Mem, d: nat, to: nat, r: seq<byte>, off: nat, x: seq<byte>)
    requires Wrote(g, m, n, d, to, r) && Wrote(g, n, m', d, to + off, x) && off + |x| <= |r|
    ensures Wrote(g, m, m', d, to, Splice(r, off, x))
  {
    hide Inv, Space;
    WroteSpaces(g, m, n, m', d, to, r, to + off, x);
    forall a | 0 <= a && MappedAt(m, d, a)
      ensures ByteAt(m', d, a) == if to <= a < to + |r| then Splice(r, off, x)[a - to] else ByteAt(m, d, a)
    {
      MappedStays(g, m, n, d, to, r, a);
      hide ByteAt, MappedAt;
      assert ByteAt(n, d, a) == if to <= a < to + |r| then r[a - to] else ByteAt(m, d, a);
    }
    hide ByteAt, MappedAt;
  }

  lemma MappedStays(g: Geo, m: Mem, n: Mem, d: nat, to: nat, r: seq<byte>, a: nat)
    requires Wrote(g, m, n, d, to, r)
    ensures MappedAt(n, d, a) == MappedAt(m, d, a)
  {
    hide Inv, Space;
    assert SameSpace(m, n, d);
    if UserAddr(a) { assert Space(n, d, a / FRAME) == Space(m, d, a / FRAME); }
  }

  lemma WroteSpaces(g: Geo, m: Mem, n: Mem, m': Mem, d: nat, to: nat, r: seq<byte>, to2: nat, x: seq<byte>)
    requires Wrote(g, m, n, d, to, r) && Wrote(g, n, m', d, to2, x)
    ensures SpacesKept(m, m')
  {
    hide Inv, Space, ByteAt, MappedAt;
    forall y: nat | IsOwned(m, y, Dir) && y < |m.ram| ensures SameSpace(m, m', y) {
      assert IsOwned(n, y, Dir) && SameSpace(m, n, y) && SameSpace(n, m', y);
      SpaceTrans(m, n, m', y);
    }
  }

  lemma WroteMore(g: Geo, m: Mem, n: Mem, m': Mem, d: nat, to: nat, x: seq<byte>, y: seq<byte>)
    requires Wrote(g, m, n, d, to, x) && Wrote(g, n, m', d, to + |x|, y)
    ensures Wrote(g, m, m', d, to, x + y)
  {
    hide Inv, Space;
    WroteSpaces(g, m, n, m', d, to, x, to + |x|, y);
    forall a | 0 <= a && MappedAt(m, d, a)
      ensures ByteAt(m', d, a) == if to <= a < to + |x + y| then (x + y)[a - to] else ByteAt(m, d, a)
    {
      MappedStays(g, m, n, d, to, x, a);
      hide ByteAt, MappedAt;
      assert ByteAt(n, d, a) == if to <= a < to + |x| then x[a - to] else ByteAt(m, d, a);
    }
    hide ByteAt, MappedAt;
  }

  // ------------------------------------------------------------ copying in

  // The physical address of a virtual one: 0 without a table. The entry is not
  // checked, so only for mapped pages is the answer the page.
  method MemoryGetPaddr(mm: Memory, d: nat, vaddr: nat) returns (paddr: nat)
    requires mm.Valid() && IsOwned(mm.M(), d, Dir) && d < |mm.ram| && UserAddr(vaddr)
    modifies mm, mm.bitmap, mm.bitmap.bits
    ensures mm.Valid() && mm.M() == old(mm.M())
    ensures MappedAt(mm.M(), d, vaddr) ==>
      paddr == FrameOf(Space(mm.M(), d, vaddr / FRAME)) * FRAME + vaddr % FRAME && 0 < paddr
      && FrameOf(Space(mm.M(), d, vaddr / FRAME)) < |mm.ram|
  {
    hide RoleOk, KernelOk, Word, Marks;
    ghost var m := mm.M();
    if MappedAt(m, d, vaddr) { PageIsOwned(mm.g, m, d, vaddr / FRAME); }
    assert PdeIndex(vaddr) == vaddr / FRAME / ENTRIES && PteIndex(vaddr) == vaddr / FRAME % ENTRIES;
    var ok, t, j := mm.FindPte(d, vaddr, false);
    if !ok {
      return 0;
    }
    return FrameOf(Word(mm.ram[t], j)) * FRAME + vaddr % FRAME;
  }

  // Copies bytes to a mapped stretch of an address space, page by page.
  method MemoryCopyUvmData(mm: Memory, to0: nat, d: nat, data: seq<byte>) returns (err: int)
    requires mm.Valid() && IsOwned(mm.M(), d, Dir) && d < |mm.ram| && RegionMapped(mm.M(), d, to0, |data|)
    modifies mm, mm.bitmap, mm.bitmap.bits
    ensures mm.Valid() && err == 0 && Wrote(mm.g, old(mm.M()), mm.M(), d, to0, data)
    ensures Reaches(mm.g, old(mm.M()), mm.M())
  {
    hide Wrote, Space, RoleOk, KernelOk, Word, Marks, RegionMapped, Reaches;
    ghost var m0 := mm.M();
    ReachesItself(mm.g, m0);
    var to, from, size := to0, 0, |data|;
    WroteNothing(mm.g, m0, d, to0, []);
    assert data[..0] == [];
    while size > 0
      invariant from + size == |data| && to == to0 + from && 0 <= from && 0 <= size
      invariant mm.Valid() && Wrote(mm.g, m0, mm.M(), d, to0, data[..from]) && Reaches(mm.g, m0, mm.M())
    {
      ghost var n := mm.M();
      ReadyToWrite(mm.g, m0, n, d, to0, data[..from], to, |data|);
      var toPaddr := MemoryGetPaddr(mm, d, to);
      if toPaddr == 0 {
        return 1;
      }
      var offsetInPage := toPaddr % FRAME;
      var currSize := FRAME - offsetInPage;
      if currSize > size {
        currSize := size;
      }
      var p := toPaddr / FRAME;
      assert offsetInPage == to % FRAME;
      ghost var x := data[from..from + currSize];
      ChunkWritten(mm.g, n, d, to, x, p);
      ChunkReached(mm.g, m0, n, d, to, p, Splice(mm.ram[p], offsetInPage, x));
      mm.ram := mm.ram[p := Splice(mm.ram[p], offsetInPage, data[from..from + currSize])];
      WroteMore(mm.g, m0, n, mm.M(), d, to0, data[..from], x);
      WroteInv(mm.g, m0, mm.M(), d, to0, data[..from] + x);
      assert data[..from] + x == data[..from + currSize];
      size, to, from := size - currSize, to + currSize, from + currSize;
    }
    assert data[..from] == data;
    return 0;
  }

  // Filling a mapped page is one of the elementary changes.
  lemma ChunkReached(g: Geo, m0: Mem, n: Mem, d: nat, to: nat, p: nat, fr: Frame)
    requires Inv(g, n) && IsOwned(n, d, Dir) && d < |n.ram| && MappedAt(n, d, to)
      && p == FrameOf(Space(n, d, to / FRAME))
    requires Reaches(g, m0, n)
    ensures p < |n.ram| && Reaches(g, m0, WithBytes(n, p, fr))
  {
    hide Reaches, Word;
    PageIsOwned(g, n, d, to / FRAME);
    BytesReached(g, m0, n, p, fr);
  }

  lemma WroteInv(g: Geo, m: Mem, n: Mem, d: nat, to: nat, x: seq<byte>)
    requires Wrote(g, m, n, d, to, x)
    ensures Inv(g, n) && n.owner == m.owner && IsOwned(n, d, Dir) && d < |n.ram| == |m.ram|
  {
    hide Inv;
  }

  lemma ReadyToWrite(g: Geo, m: Mem, n: Mem, d: nat, to0: nat, x: seq<byte>, to: nat, len: nat)
    requires Wrote(g, m, n, d, to0, x) && d < |m.ram| && RegionMapped(m, d, to0, len) && to0 <= to < to0 + len
    ensures Inv(g, n) && IsOwned(n, d, Dir) && d < |n.ram| && MappedAt(n, d, to) && UserAddr(to)
  {
    hide Inv;
    assert MappedAt(m, d, to);
    MappedStays(g, m, n, d, to0, x, to);
  }

  // ------------------------------------------------------------ argument passing

  const HEADER: nat := 12      // ret_addr, argc, argv

  ghost function Strings(argv: seq<seq<byte>>): (r: seq<byte>) {
    if argv == [] then [] else Strings(argv[..|argv| - 1]) + argv[|argv| - 1] + [0]
  }

  // Where string i starts: behind the header, the table and the strings before.
  ghost function StringAt(to: nat, argv: seq<seq<byte>>, i: nat): nat
    requires i <= |argv|
  {
    to + HEADER + 4 * (|argv| + 1) + |Strings(argv[..i])|
  }

  ghost predicate Fits32(to: nat, argv: seq<seq<byte>>) {
    |argv| < 0x1_0000_0000 && StringAt(to, argv, |argv|) < 0x1_0000_0000
  }

  lemma {:induction false} StringsGrow(argv: seq<seq<byte>>, i: nat, k: nat)
    requires i <= k <= |argv|
    ensures |Strings(argv[..i])| <= |Strings(argv[..k])|
    ensures i < k ==> |Strings(argv[..i])| + |argv[i]| + 1 <= |Strings(argv[..k])|
    ensures i < |argv| ==> Strings(argv[..i + 1]) == Strings(argv[..i]) + argv[i] + [0]
    decreases k - i
  {
    if i < |argv| { assert argv[..i + 1][..i] == argv[..i]; }
    if i < k { StringsGrow(argv, i + 1, k); }
  }

  // The first n entries of the pointer table.
  ghost function Table(to: nat, argv: seq<seq<byte>>, n: nat): (r: seq<byte>)
    requires n <= |argv| && Fits32(to, argv)
    ensures |r| == 4 * n
  {
    if n == 0 then []
    else
      StringsGrow(argv, n - 1, |argv|);
      Table(to, argv, n - 1) + WordBytes(StringAt(to, argv, n - 1))
  }

  // What the stack area holds for a program with these arguments. Without any,
  // the terminator of the table is not written.
  ghost function ArgImage(to: nat, argv: seq<seq<byte>>): (r: seq<byte>)
    requires Fits32(to, argv)
  {
    WordBytes(0) + WordBytes(|argv|) + WordBytes(to + HEADER)
    + if argv == [] then [] else Table(to, argv, |argv|) + WordBytes(0) + Strings(argv)
  }

  // ------------------------------------------------------------ reading it back

  function WordIn(s: seq<byte>, at: nat): nat
    requires at + 4 <= |s|
  {
    s[at] as int + 0x100 * (s[at + 1] as int) + 0x1_0000 * (s[at + 2] as int) + 0x100_0000 * (s[at + 3] as int)
  }

  lemma {:induction false} TableEntry(to: nat, argv: seq<seq<byte>>, n: nat, i: nat)
    requires n <= |argv| && Fits32(to, argv) && i < n
    ensures WordIn(Table(to, argv, n), 4 * i) == StringAt(to, argv, i)
  {
    StringsGrow(argv, n - 1, |argv|);
    if i == n - 1 {
      WordBytesBack(StringAt(to, argv, i));
    } else {
      TableEntry(to, argv, n - 1, i);
    }
  }

  lemma {:induction false} StringInside(argv: seq<seq<byte>>, i: nat, k: nat)
    requires i < k <= |argv|
    ensures var s, o := Strings(argv[..k]), |Strings(argv[..i])|;
      o + |argv[i]| + 1 <= |s| && s[o..o + |argv[i]| + 1] == argv[i] + [0]
    decreases k
  {
    StringsGrow(argv, k - 1, k);
    StringsGrow(argv, i, k);
    var s, o := Strings(argv[..k]), |Strings(argv[..i])|;
    if i < k - 1 {
      StringInside(argv, i, k - 1);
      var s1 := Strings(argv[..k - 1]);
      assert s[..|s1|] == s1;
      assert s[o..o + |argv[i]| + 1] == s1[o..o + |argv[i]| + 1];
    } else {
      assert s == s[..o] + (argv[i] + [0]);
    }
  }

  lemma WordInSlice(r: seq<byte>, at: nat, n: nat, o: nat)
    requires at + n <= |r| && o + 4 <= n
    ensures WordIn(r, at + o) == WordIn(r[at..at + n], o)
  {
    var t := r[at..at + n];
    assert t[o] == r[at + o] && t[o + 1] == r[at + o + 1] && t[o + 2] == r[at + o + 2] && t[o + 3] == r[at + o + 3];
  }

  lemma ArgParts(to: nat, argv: seq<seq<byte>>)
    requires Fits32(to, argv) && argv != []
    ensures var r, n := ArgImage(to, argv), |argv|;
      && |r| == HEADER + 4 * (n + 1) + |Strings(argv)|
      && r[..HEADER] == WordBytes(0) + WordBytes(n) + WordBytes(to + HEADER)
      && r[HEADER..HEADER + 4 * n] == Table(to, argv, n)
      && r[HEADER + 4 * n..HEADER + 4 * n + 4] == WordBytes(0)
      && r[HEADER + 4 * (n + 1)..] == Strings(argv)
  {
    hide WordBytes, Strings, Table;
    var head := WordBytes(0) + WordBytes(|argv|) + WordBytes(to + HEADER);
    assert ArgImage(to, argv) == head + Table(to, argv, |argv|) + WordBytes(0) + Strings(argv);
  }

  // The program finds its argument count, the address of the table, and through
  // table entry i the i-th string with its terminator.
  lemma ArgsReadBack(to: nat, argv: seq<seq<byte>>, i: nat)
    requires Fits32(to, argv) && i < |argv|
    ensures var r, p := ArgImage(to, argv), StringAt(to, argv, i);
      && HEADER + 4 * (|argv| + 1) <= |r| && to <= p && p - to + |argv[i]| + 1 <= |r|
      && WordIn(r, 0) == 0 && WordIn(r, 4) == |argv| && WordIn(r, 8) == to + 12
      && WordIn(r, HEADER + 4 * i) == p && WordIn(r, HEADER + 4 * |argv|) == 0
      && r[p - to..p - to + |argv[i]| + 1] == argv[i] + [0]
  {
    hide Strings, Table, ArgImage, Fits32, WordBytes, StringAt;
    var r, n := ArgImage(to, argv), |argv|;
    ArgParts(to, argv);
    HeaderWords(to, argv);
    StringInImage(to, argv, i);
    TableEntry(to, argv, n, i);
    WordInSlice(r, HEADER, 4 * n, 4 * i);
    WordInSlice(r, HEADER + 4 * n, 4, 0);
    WordBytesBack(0);
  }

  lemma StringInImage(to: nat, argv: seq<seq<byte>>, i: nat)
    requires Fits32(to, argv) && i < |argv|
    ensures var r, p := ArgImage(to, argv), StringAt(to, argv, i);
      to <= p && p - to + |argv[i]| + 1 <= |r| && r[p - to..p - to + |argv[i]| + 1] == argv[i] + [0]
  {
    hide Strings, Table, ArgImage, Fits32, WordBytes;
    var r, o, s := ArgImage(to, argv), |Strings(argv[..i])|, HEADER + 4 * (|argv| + 1);
    ArgParts(to, argv);
    assert argv[..|argv|] == argv;
    StringInside(argv, i, |argv|);
    SliceOfSlice(r, s, |r|, o, o + |argv[i]| + 1);
  }

  lemma HeaderWords(to: nat, argv: seq<seq<byte>>)
    requires Fits32(to, argv) && argv != []
    ensures |ArgImage(to, argv)| >= HEADER
    ensures WordIn(ArgImage(to, argv), 4) == |argv| && WordIn(ArgImage(to, argv), 8) == to + HEADER
    ensures WordIn(ArgImage(to, argv), 0) == 0
  {
    hide Strings, Table, ArgImage;
    ArgParts(to, argv);
    var r := ArgImage(to, argv);
    WordInSlice(r, 0, HEADER, 0);
    WordBytesBack(0);
    WordInSlice(r, 0, HEADER, 4);
    WordInSlice(r, 0, HEADER, 8);
    WordBytesBack(|argv|);
    WordBytesBack(to + HEADER);
  }

  // ------------------------------------------------------------ copy_args

  // The area after i arguments: table and strings grow towards each other's
  // unwritten rest, which still holds the old bytes r0.
  ghost function Filled(to: nat, argv: seq<seq<byte>>, r0: seq<byte>, i: nat): (r: seq<byte>)
    requires Fits32(to, argv) && argv != [] && i <= |argv| && |r0| == HEADER + 4 * (|argv| + 1) + |Strings(argv)|
    ensures |r| == |r0|
  {
    StringsGrow(argv, i, |argv|);
    assert argv[..|argv|] == argv;
    var s := HEADER + 4 * (|argv| + 1);
    r0[..HEADER] + Table(to, argv, i) + r0[HEADER + 4 * i..s] + Strings(argv[..i]) + r0[s + |Strings(argv[..i])|..]
  }

  lemma FillParts(to: nat, argv: seq<seq<byte>>, r0: seq<byte>, i: nat)
    requires Fits32(to, argv) && argv != [] && i <= |argv| && |r0| == HEADER + 4 * (|argv| + 1) + |Strings(argv)|
    ensures var s, p := HEADER + 4 * (|argv| + 1), Strings(argv[..i]);
      && s + |p| <= |r0| && StringAt(to, argv, i) == to + s + |p| < 0x1_0000_0000
      && Filled(to, argv, r0, i) == r0[..HEADER] + Table(to, argv, i) + r0[HEADER + 4 * i..s] + p + r0[s + |p|..]
  {
    hide Strings, Table;
    StringsGrow(argv, i, |argv|);
    assert argv[..|argv|] == argv;
  }

  lemma FillNext(to: nat, argv: seq<seq<byte>>, r0: seq<byte>, i: nat)
    requires Fits32(to, argv) && i < |argv| && |r0| == HEADER + 4 * (|argv| + 1) + |Strings(argv)|
    ensures var o, x := StringAt(to, argv, i) - to, argv[i] + [0];
      && 0 <= o && o + |x| <= |r0| && StringAt(to, argv, i) < 0x1_0000_0000
      && StringAt(to, argv, i + 1) == to + o + |x|
      && Filled(to, argv, r0, i + 1) == Splice(Splice(Filled(to, argv, r0, i), o, x), HEADER + 4 * i, WordBytes(to + o))
  {
    hide Strings, Filled, Splice, WordBytes, Fits32, StringAt;
    FillParts(to, argv, r0, i);
    FillParts(to, argv, r0, i + 1);
    StringsGrow(argv, i, |argv|);
    var s, p := HEADER + 4 * (|argv| + 1), Strings(argv[..i]);
    var o, x, w := s + |p|, argv[i] + [0], WordBytes(StringAt(to, argv, i));
    var front, stale, rest := r0[..HEADER] + Table(to, argv, i), r0[HEADER + 4 * i..s], r0[o..];
    assert Strings(argv[..i + 1]) == p + x;
    assert rest[|x|..] == r0[o + |x|..];
    assert stale[4..] == r0[HEADER + 4 * (i + 1)..s];
    assert Table(to, argv, i + 1) == Table(to, argv, i) + w;
    hide Table;
    assert front + w == r0[..HEADER] + (Table(to, argv, i) + w);
    FillStep(front, stale, p, rest, w, x);
  }

  lemma FillStep(front: seq<byte>, stale: seq<byte>, done: seq<byte>, rest: seq<byte>, w: seq<byte>, x: seq<byte>)
    requires |w| <= |stale| && |x| <= |rest|
    ensures var a := front + stale + done + rest;
      Splice(Splice(a, |front + stale + done|, x), |front|, w) == front + w + stale[|w|..] + (done + x) + rest[|x|..]
  {
    var l := Splice(Splice(front + stale + done + rest, |front + stale + done|, x), |front|, w);
    var r := front + w + stale[|w|..] + (done + x) + rest[|x|..];
    assert |l| == |r|;
    assert forall k :: 0 <= k < |l| ==> l[k] == r[k];
  }

  lemma FillDone(to: nat, argv: seq<seq<byte>>, r0: seq<byte>)
    requires Fits32(to, argv) && argv != [] && |r0| == HEADER + 4 * (|argv| + 1) + |Strings(argv)|
    ensures var n, head := |argv|, WordBytes(0) + WordBytes(|argv|) + WordBytes(to + HEADER);
      Splice(Splice(Filled(to, argv, r0, n), HEADER + 4 * n, WordBytes(0)), 0, head) == ArgImage(to, argv)
  {
    hide Strings, Table, WordBytes;
    var n, s := |argv|, HEADER + 4 * (|argv| + 1);
    assert argv[..n] == argv;
    var t, stale, head := Table(to, argv, n), r0[HEADER + 4 * n..s],
      WordBytes(0) + WordBytes(n) + WordBytes(to + HEADER);
    assert r0[s + |Strings(argv)|..] == [];
    assert Filled(to, argv, r0, n) == r0[..HEADER] + t + stale + Strings(argv) + [];
    var l := Splice(Splice(r0[..HEADER] + t + stale + Strings(argv) + [], HEADER + 4 * n, WordBytes(0)), 0, head);
    var r := head + t + WordBytes(0) + Strings(argv);
    assert |l| == |r|;
    assert forall k :: 0 <= k < |l| ==> l[k] == r[k];
    assert ArgImage(to, argv) == r;
  }

  ghost function BytesAt(m: Mem, d: nat, to: nat, n: nat): (r: seq<byte>)
    requires d < |m.ram|
    ensures |r| == n && forall k {:trigger r[k]} :: 0 <= k < n ==> r[k] == ByteAt(m, d, to + k)
  {
    if n == 0 then [] else BytesAt(m, d, to, n - 1) + [ByteAt(m, d, to + n - 1)]
  }

  lemma RegionStays(g: Geo, m: Mem, n: Mem, d: nat, to: nat, r: seq<byte>, at: nat, len: nat)
    requires Wrote(g, m, n, d, to, r) && d < |m.ram| && RegionMapped(m, d, to, |r|)
    requires to <= at && at + len <= to + |r|
    ensures d < |n.ram| && RegionMapped(n, d, at, len)
  {
    hide Inv, Space, UserAddr, ByteAt;
    forall a | at <= a < at + len ensures MappedAt(n, d, a) {
      assert MappedAt(m, d, a);
      MappedStays(g, m, n, d, to, r, a);
    }
  }

  // A word of the first page, through the address of the table found at first.
  lemma WordWritten(g: Geo, m: Mem, n: Mem, d: nat, to: nat, r: seq<byte>, off: nat, w: nat, p: nat)
    requires Wrote(g, m, n, d, to, r) && d < |m.ram| && RegionMapped(m, d, to, |r|)
    requires to % FRAME == 0 && off + 4 <= FRAME && off + 4 <= |r| && w < 0x1_0000_0000
    requires UserAddr(to) && p == FrameOf(Space(m, d, to / FRAME))
    ensures IsOwned(m, d, Dir) && p < |n.ram| && FRAME == |n.ram[p]|
    ensures Inv(g, WithBytes(n, p, Splice(n.ram[p], off, WordBytes(w))))
    ensures Wrote(g, m, WithBytes(n, p, Splice(n.ram[p], off, WordBytes(w))), d, to, Splice(r, off, WordBytes(w)))
  {
    hide Inv, ByteAt, Space, WordBytes;
    WroteInv(g, m, n, d, to, r);
    assert MappedAt(m, d, to);
    assert MappedAt(m, d, to + off);
    MappedStays(g, m, n, d, to, r, to + off);
    assert (to + off) / FRAME == to / FRAME && (to + off) % FRAME == off;
    assert SameSpace(m, n, d) && Space(n, d, to / FRAME) == Space(m, d, to / FRAME);
    ChunkWritten(g, n, d, to + off, WordBytes(w), p);
    var m' := WithBytes(n, p, Splice(n.ram[p], off, WordBytes(w)));
    WroteOver(g, m, n, m', d, to, r, off, WordBytes(w));
    WroteInv(g, m, m', d, to, Splice(r, off, WordBytes(w)));
  }

  // Before argument i; r0 is what the area held.
  ghost predicate Filling(g: Geo, m0: Mem, m: Mem, d: nat, to: nat, argv: seq<seq<byte>>, r0: seq<byte>, i: nat) {
    && Fits32(to, argv) && i <= |argv| && argv != [] && |r0| == HEADER + 4 * (|argv| + 1) + |Strings(argv)|
    && to % FRAME == 0 && HEADER + 4 * (|argv| + 1) <= FRAME && UserAddr(to)
    && d < |m0.ram| && RegionMapped(m0, d, to, |r0|)
    && Wrote(g, m0, m, d, to, Filled(to, argv, r0, i))
  }

  lemma FillReady(g: Geo, m0: Mem, m: Mem, d: nat, to: nat, argv: seq<seq<byte>>, r0: seq<byte>, i: nat)
    requires Filling(g, m0, m, d, to, argv, r0, i) && i < |argv|
    ensures Inv(g, m) && IsOwned(m, d, Dir) && d < |m.ram|
    ensures StringAt(to, argv, i) < 0x1_0000_0000 && RegionMapped(m, d, StringAt(to, argv, i), |argv[i]| + 1)
  {
    hide Wrote, RegionMapped, Filled, Strings, Inv, WordBytes, Splice, Fits32;
    FillNext(to, argv, r0, i);
    RegionStays(g, m0, m, d, to, Filled(to, argv, r0, i), StringAt(to, argv, i), |argv[i]| + 1);
    WroteInv(g, m0, m, d, to, Filled(to, argv, r0, i));
  }

  lemma FilledMore(g: Geo, m0: Mem, m: Mem, n: Mem, d: nat, to: nat, argv: seq<seq<byte>>, r0: seq<byte>, i: nat,
                   p: nat)
    requires Filling(g, m0, m, d, to, argv, r0, i) && i < |argv| && p == FrameOf(Space(m0, d, to / FRAME))
    requires Wrote(g, m, n, d, StringAt(to, argv, i), argv[i] + [0]) && StringAt(to, argv, i) < 0x1_0000_0000
    ensures p < |n.ram|
    ensures var n' := WithBytes(n, p, Splice(n.ram[p], HEADER + 4 * i, WordBytes(StringAt(to, argv, i))));
      Inv(g, n') && IsOwned(n', d, Dir) && Filling(g, m0, n', d, to, argv, r0, i + 1)
    ensures StringAt(to, argv, i + 1) == StringAt(to, argv, i) + |argv[i]| + 1
  {
    hide Wrote, RegionMapped, Filled, Strings, Inv, WordBytes, Fits32, Space, StringAt;
    FillNext(to, argv, r0, i);
    var r, o, x := Filled(to, argv, r0, i), StringAt(to, argv, i) - to, argv[i] + [0];
    WroteOver(g, m0, m, n, d, to, r, o, x);
    WordWritten(g, m0, n, d, to, Splice(r, o, x), HEADER + 4 * i, to + o, p);
    WroteInv(g, m0, n, d, to, Splice(r, o, x));
  }

  lemma FilledAll(g: Geo, m0: Mem, m: Mem, d: nat, to: nat, argv: seq<seq<byte>>, r0: seq<byte>, p: nat)
    requires Filling(g, m0, m, d, to, argv, r0, |argv|) && p == FrameOf(Space(m0, d, to / FRAME))
    ensures p < |m.ram|
    ensures var m', r := WithBytes(m, p, Splice(m.ram[p], HEADER + 4 * |argv|, WordBytes(0))),
      Filled(to, argv, r0, |argv|);
      && Inv(g, m') && IsOwned(m', d, Dir) && HEADER + 4 * (|argv| + 1) <= |r|
      && Wrote(g, m0, m', d, to, Splice(r, HEADER + 4 * |argv|, WordBytes(0)))
  {
    hide Wrote, RegionMapped, Filled, Strings, Inv, WordBytes, Fits32, Space, StringAt;
    WordWritten(g, m0, m, d, to, Filled(to, argv, r0, |argv|), HEADER + 4 * |argv|, 0, p);
    WroteInv(g, m0, m, d, to, Filled(to, argv, r0, |argv|));
  }

  lemma TablePlace(tb: nat, page: nat, k: nat)
    requires tb == page * FRAME + HEADER && HEADER + 4 * k + 4 <= FRAME
    ensures (tb + 4 * k) / FRAME == page && (tb + 4 * k) % FRAME == HEADER + 4 * k
  {
  }

  // The strings one by one, each followed by its entry in the pointer table,
  // and the header last.
  method CopyArgs(mm: Memory, to: nat, d: nat, argv: seq<seq<byte>>) returns (err: int)
    requires mm.Valid() && IsOwned(mm.M(), d, Dir) && d < |mm.ram|
    requires to % FRAME == 0 && HEADER + 4 * (|argv| + 1) <= FRAME && Fits32(to, argv)
    requires RegionMapped(mm.M(), d, to, |ArgImage(to, argv)|)
    modifies mm, mm.bitmap, mm.bitmap.bits
    ensures mm.Valid() && err == 0 && Wrote(mm.g, old(mm.M()), mm.M(), d, to, ArgImage(to, argv))
  {
    hide Wrote, Space, RoleOk, KernelOk, Word, Marks, RegionMapped, Strings, Table, WordBytes, StringAt, Fits32,
         Filled, Filling, ArgImage, ByteAt, Inv, UserAddr, MappedAt;
    ghost var m0 := mm.M();
    ghost var r0 := BytesAt(m0, d, to, |ArgImage(to, argv)|);
    WroteNothing(mm.g, m0, d, to, r0);
    CopyBounds(mm.g, m0, d, to, argv);
    var destArg := to + HEADER + 4 * (|argv| + 1);
    var destArgTb := MemoryGetPaddr(mm, d, to + HEADER);
    ghost var page := FrameOf(Space(m0, d, to / FRAME));
    if |argv| > 0 { FillFirst(mm.g, m0, d, to, argv, r0); }
    var i := 0;
    while i < |argv|
      invariant 0 <= i <= |argv| && mm.Valid() && (argv == [] ==> mm.M() == m0)
      invariant 0 < |argv| ==> Filling(mm.g, m0, mm.M(), d, to, argv, r0, i) && destArg == StringAt(to, argv, i)
    {
      ghost var m := mm.M();
      FillReady(mm.g, m0, m, d, to, argv, r0, i);
      var err0 := MemoryCopyUvmData(mm, destArg, d, argv[i] + [0]);
      FilledMore(mm.g, m0, m, mm.M(), d, to, argv, r0, i, page);
      TablePlace(destArgTb, page, i);
      var p := (destArgTb + 4 * i) / FRAME;
      mm.ram := mm.ram[p := Splice(mm.ram[p], (destArgTb + 4 * i) % FRAME, WordBytes(destArg))];
      destArg := destArg + |argv[i]| + 1;
      i := i + 1;
    }
    ghost var r := r0;
    if |argv| > 0 {
      FilledAll(mm.g, m0, mm.M(), d, to, argv, r0, page);
      TablePlace(destArgTb, page, |argv|);
      var p := (destArgTb + 4 * |argv|) / FRAME;
      mm.ram := mm.ram[p := Splice(mm.ram[p], (destArgTb + 4 * |argv|) % FRAME, WordBytes(0))];
      r := Splice(Filled(to, argv, r0, |argv|), HEADER + 4 * |argv|, WordBytes(0));
    }
    ghost var n, head := mm.M(), WordBytes(0) + WordBytes(|argv|) + WordBytes(to + HEADER);
    RegionStays(mm.g, m0, n, d, to, r, to, HEADER);
    WroteInv(mm.g, m0, n, d, to, r);
    err := MemoryCopyUvmData(mm, to, d, WordBytes(0) + WordBytes(|argv|) + WordBytes(to + HEADER));
    WroteOver(mm.g, m0, n, mm.M(), d, to, r, 0, head);
    WroteInv(mm.g, m0, mm.M(), d, to, Splice(r, 0, head));
    if argv == [] {
      HeaderOnly(to, r, head);
    } else {
      FillDone(to, argv, r0);
    }
  }

  lemma FillFirst(g: Geo, m: Mem, d: nat, to: nat, argv: seq<seq<byte>>, r0: seq<byte>)
    requires Fits32(to, argv) && argv != [] && |r0| == |ArgImage(to, argv)|
    requires to % FRAME == 0 && HEADER + 4 * (|argv| + 1) <= FRAME && UserAddr(to)
    requires Wrote(g, m, m, d, to, r0) && d < |m.ram| && RegionMapped(m, d, to, |r0|)
    ensures Filling(g, m, m, d, to, argv, r0, 0) && |r0| == HEADER + 4 * (|argv| + 1) + |Strings(argv)|
    ensures StringAt(to, argv, 0) == to + HEADER + 4 * (|argv| + 1)
  {
    hide ArgImage, Filled, StringAt, Fits32, Wrote, RegionMapped, UserAddr;
    ArgParts(to, argv);
    FillParts(to, argv, r0, 0);
    NoStrings(argv);
    var s := HEADER + 4 * (|argv| + 1);
    assert Table(to, argv, 0) == [];
    hide Strings, Table;
    assert r0 == r0[..HEADER] + [] + r0[HEADER..s] + [] + r0[s..];
  }

  lemma NoStrings(argv: seq<seq<byte>>)
    ensures Strings(argv[..0]) == []
  {
    assert argv[..0] == [];
  }

  lemma HeaderOnly(to: nat, r: seq<byte>, head: seq<byte>)
    requires Fits32(to, []) && |r| == |head| == HEADER
    requires head == WordBytes(0) + WordBytes(0) + WordBytes(to + HEADER)
    ensures Splice(r, 0, head) == ArgImage(to, [])
  {
    hide WordBytes;
    assert Splice(r, 0, head) == head;
    assert ArgImage(to, []) == head;
  }

  // The header and the table lie in the page of `to`.
  lemma CopyBounds(g: Geo, m: Mem, d: nat, to: nat, argv: seq<seq<byte>>)
    requires Inv(g, m) && IsOwned(m, d, Dir) && d < |m.ram| && to % FRAME == 0
    requires HEADER + 4 * (|argv| + 1) <= FRAME && Fits32(to, argv) && RegionMapped(m, d, to, |ArgImage(to, argv)|)
    ensures to + HEADER < 0x1_0000_0000 && UserAddr(to) && UserAddr(to + HEADER)
    ensures (if argv == [] then HEADER else HEADER + 4 * (|argv| + 1)) <= |ArgImage(to, argv)|
    ensures argv == [] ==> |ArgImage(to, argv)| == HEADER
    ensures MappedAt(m, d, to + HEADER) && (to + HEADER) / FRAME == to / FRAME && (to + HEADER) % FRAME == HEADER
  {
    hide Inv, Space, WordBytes, Strings, Table;
    if argv != [] { ArgParts(to, argv); }
    assert MappedAt(m, d, to);
    assert (to + HEADER) / FRAME == to / FRAME;
  }

  // The round trip through the page tables: reading the area at its virtual
  // addresses gives back count, table and every string with its terminator.
  lemma ProgramSeesArgs(g: Geo, m: Mem, m': Mem, d: nat, to: nat, argv: seq<seq<byte>>, i: nat)
    requires Fits32(to, argv) && i < |argv| && d < |m.ram| && RegionMapped(m, d, to, |ArgImage(to, argv)|)
    requires Wrote(g, m, m', d, to, ArgImage(to, argv))
    ensures d < |m'.ram| && to <= StringAt(to, argv, i) <= to + |ArgImage(to, argv)|
    ensures var p := StringAt(to, argv, i);
      && WordIn(BytesAt(m', d, to, 4), 0) == 0
      && WordIn(BytesAt(m', d, to + 4, 4), 0) == |argv|
      && WordIn(BytesAt(m', d, to + 8, 4), 0) == to + 12
      && WordIn(BytesAt(m', d, to + HEADER + 4 * i, 4), 0) == p
      && WordIn(BytesAt(m', d, to + HEADER + 4 * |argv|, 4), 0) == 0
      && BytesAt(m', d, p, |argv[i]| + 1) == argv[i] + [0]
  {
    hide Wrote, RegionMapped, BytesAt, WordIn, ArgImage, Strings, StringAt, Fits32;
    var r, p, n := ArgImage(to, argv), StringAt(to, argv, i), |argv|;
    ArgsReadBack(to, argv, i);
    WordBack(g, m, m', d, to, r, 0);
    WordBack(g, m, m', d, to, r, 4);
    WordBack(g, m, m', d, to, r, 8);
    WordBack(g, m, m', d, to, r, HEADER + 4 * i);
    WordBack(g, m, m', d, to, r, HEADER + 4 * n);
    WroteBack(g, m, m', d, to, r, p - to, |argv[i]| + 1);
  }

  lemma WordBack(g: Geo, m: Mem, m': Mem, d: nat, to: nat, r: seq<byte>, o: nat)
    requires Wrote(g, m, m', d, to, r) && d < |m.ram| && RegionMapped(m, d, to, |r|) && o + 4 <= |r|
    ensures d < |m'.ram| && WordIn(BytesAt(m', d, to + o, 4), 0) == WordIn(r, o)
  {
    hide Wrote, RegionMapped, BytesAt, WordIn;
    WroteBack(g, m, m', d, to, r, o, 4);
    WordInSlice(r, o, 4, 0);
  }

  lemma WroteBack(g: Geo, m: Mem, m': Mem, d: nat, to: nat, r: seq<byte>, o: nat, n: nat)
    requires Wrote(g, m, m', d, to, r) && d < |m.ram| && RegionMapped(m, d, to, |r|) && o + n <= |r|
    ensures d < |m'.ram| && BytesAt(m', d, to + o, n) == r[o..o + n]
  {
    hide Inv, Space, ByteAt;
    var s := BytesAt(m', d, to + o, n);
    forall k | 0 <= k < n ensures s[k] == r[o + k] {
      assert s[k] == ByteAt(m', d, to + o + k);
      assert MappedAt(m, d, to + o + k);
    }
  }
}
