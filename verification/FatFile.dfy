/** Open files: reading, appending and seeking along a chain. */
module FatFile {
  import opened Bytes
  import opened FatTable
  import opened FatLayout
  import opened FatVolume
  import opened FatAlloc
  import opened FatCursor
  import opened Klib

  class File {
    var size: nat
    var pos: nat
    var sblk: int
    var cblk: int
    var readOnly: bool      // mode == O_RDONLY
    var pIndex: int         // the file's directory entry

    constructor ()
    {
    }
  }

  // An open file whose chain is `ch`.
  ghost predicate Opened(fat: Fat, file: File, ch: seq<int>)
    reads fat, fat.buffer, file
    requires fat.Valid()
  {
    && Chain(fat.vol.table, file.sblk, ch)
    && Covers(fat.vol, fat.g.ClusterBytes(), ch, file.size)
    && CursorAt(ch, file.cblk, file.pos, fat.g.ClusterBytes())
  }

  // The first half of expand_file: how many clusters to ask for, 0 for none.
  method GrowthClusters(size: nat, inc: nat, cb: nat) returns (cnt: nat)
    requires 0 < cb && 0 < inc
    ensures cnt == Wanted(size, inc, cb)
  {
    if size == 0 || Rem(size, cb) == 0 {
      CeilBounds(inc, cb);
      cnt := Quot(Up2(inc, cb), cb);
    } else {
      var cfree := cb - Rem(size, cb);
      if cfree > inc {
        return 0;
      }
      CeilBounds(inc - cfree, cb);
      cnt := Quot(Up2(inc - cfree, cb), cb);
      if cnt == 0 {
        cnt := 1;
      }
    }
  }

  // Growing by inc bytes, with the new clusters linked behind the cursor's
  // cluster ch[i].
  method ExpandFile(fat: Fat, file: File, inc: nat, ghost ch: seq<int>, ghost i: nat) returns (err: int)
    requires fat.Valid() && 0 < inc
    requires Chain(fat.vol.table, file.sblk, ch)
    requires ch != [] ==> Stands(ch, i, file.cblk)
    modifies fat, fat.buffer, file`sblk, file`cblk
    ensures fat.Valid() && fat.vol == old(fat.vol).(table := fat.vol.table)
    ensures Expanded(old(fat.vol).table, fat.vol.table, Wanted(file.size, inc, fat.g.ClusterBytes()), ch, i,
                     old(file.sblk), old(file.cblk), file.sblk, file.cblk, err)
  {
    hide Fat.Valid, Quot, Rem, Fits;
    var cnt := GrowthClusters(file.size, inc, fat.g.ClusterBytes());
    if cnt == 0 {
      return 0;
    }
    var start := ClusterAllocFree(fat, cnt);
    if !IsCluster(start) {
      return -1;
    }
    if !IsCluster(file.sblk) {
      file.sblk := start;
      file.cblk := start;
    } else {
      err := fat.ClusterSetNext(file.cblk, start);
      if err < 0 {
        return -1;
      }
    }
    return 0;
  }

  // What growing by k clusters does: it fails, with the table as it was, when
  // there are too few; it fails with the clusters lost when the cursor has run
  // off the end of the chain; else the chain grows behind ch[i].
  ghost predicate Expanded(t: Table, t': Table, k: nat, ch: seq<int>, i: nat,
                           sblk: int, cblk: int, sblk': int, cblk': int, err: int) {
    && err == (if k <= |FreeClusters(t)| && (k == 0 || ch == [] || i < |ch|) then 0 else -1)
    && (if err == 0 && ch == [] && 0 < k then sblk' == cblk' == AllocStart(t, k)
        else sblk' == sblk && cblk' == cblk)
    && t' == if err == 0 then GrownTable(t, k, ch != [], ElemOrEnd(ch, i)) else AllocTable(t, k)
  }

  // A spare cluster is asked for: a write fills the last cluster of the chain,
  // and the chain ends in the mark that the kernel writes.
  ghost predicate AtLastEnd(t: Table, ch: seq<int>, pos: nat, n: nat, cb: nat, expand: bool)
    requires 0 < cb
  {
    expand && Rem(pos, cb) + n == cb && Quot(pos, cb) + 1 == |ch| && EndsInEoc(t, ch)
  }

  // Moving on by n bytes: at the end of the last cluster of a file being written
  // one more cluster is linked; without a free one the cursor stays.
  ghost predicate Moved(cb: nat, v: Vol, v': Vol, s: int, ch: seq<int>, taken: seq<int>, pos: nat, pos': nat,
                        cblk: int, cblk': int, n: nat, expand: bool, err: int)
    requires 0 < cb
  {
    var free := FreeClusters(v.table);
    && v'.data == v.data && OnlyTouches(cb, v, v', ch, taken)
    && (forall c :: c in ch || c in taken ==> 0 <= c < |v'.table| && v'.table[c] != FREE)
    && taken == (if AtLastEnd(v.table, ch, pos, n, cb, expand) && free != [] then free[..1] else [])
    && err == (if AtLastEnd(v.table, ch, pos, n, cb, expand) && free == [] then -1 else 0)
    && (taken == [] ==> v' == v)
    && Chain(v'.table, s, ch + taken)
    && if err == 0 then pos' == pos + n && CursorAt(ch + taken, cblk', pos', cb)
       else pos' == pos && cblk' == cblk
  }

  lemma MovedWithin(cb: nat, v: Vol, s: int, ch: seq<int>, pos: nat, cblk: int, cblk': int, n: nat, expand: bool)
    requires Chain(v.table, s, ch) && CursorAt(ch, cblk, pos, cb) && Quot(pos, cb) < |ch|
    requires Rem(pos, cb) + n <= cb && !AtLastEnd(v.table, ch, pos, n, cb, expand)
    requires cblk' == if Rem(pos, cb) + n == cb then Next(v.table, cblk) else cblk
    ensures Moved(cb, v, v, s, ch, [], pos, pos + n, cblk, cblk', n, expand, 0)
  {
    hide Quot, Rem, Fits;
    Advance(pos, cb, n);
    OnlyLastIsEnd(v.table, s, ch, Quot(pos, cb));
    ChainHasNoFree(v.table, s, ch);
    assert ch + [] == ch;
    assert InTable(v.table, cblk);
  }

  lemma MovedOntoSpare(g: Geometry, v: Vol, v': Vol, s: int, ch: seq<int>, pos: nat, cblk: int, cblk': int, n: nat)
    requires WellFormed(g, v) && WellFormed(g, v') && Chain(v.table, s, ch) && FreeClusters(v.table) != []
    requires CursorAt(ch, cblk, pos, g.ClusterBytes()) && AtLastEnd(v.table, ch, pos, n, g.ClusterBytes(), true)
    requires v' == v.(table := GrownTable(v.table, 1, true, cblk)) && cblk' == Next(v'.table, cblk)
    ensures Moved(g.ClusterBytes(), v, v', s, ch, FreeClusters(v.table)[..1], pos, pos + n, cblk, cblk', n, true, 0)
  {
    hide Quot, Rem, Fits;
    Advance(pos, g.ClusterBytes(), n);
    SpareIsLinked(g, v, v', s, ch, Quot(pos, g.ClusterBytes()));
    hide Chain, GrownTable, OnlyTouches;
  }

  lemma MoveStuck(cb: nat, v: Vol, s: int, ch: seq<int>, pos: nat, cblk: int, n: nat)
    requires 0 < cb && Chain(v.table, s, ch) && FreeClusters(v.table) == [] && AtLastEnd(v.table, ch, pos, n, cb, true)
    ensures Moved(cb, v, v, s, ch, [], pos, pos, cblk, cblk, n, true, -1)
  {
    ChainHasNoFree(v.table, s, ch);
    assert ch + [] == ch;
  }

  method MoveFilePos(fat: Fat, file: File, n: nat, expand: bool, ghost ch: seq<int>)
    returns (err: int, ghost taken: seq<int>)
    requires fat.Valid() && Opened(fat, file, ch)
    requires Quot(file.pos, fat.g.ClusterBytes()) < |ch|
    requires Rem(file.pos, fat.g.ClusterBytes()) + n <= fat.g.ClusterBytes()
    requires expand ==> file.size == file.pos + n
    modifies fat, fat.buffer, file`pos, file`cblk, file`sblk
    ensures fat.Valid() && file.sblk == old(file.sblk)
    ensures Moved(fat.g.ClusterBytes(), old(fat.vol), fat.vol, file.sblk, ch, taken, old(file.pos), file.pos,
                  old(file.cblk), file.cblk, n, expand, err)
  {
    hide Fat.Valid, Quot, Rem, Fits, Moved, Covers;
    var cb := fat.g.ClusterBytes();
    var cOffset := Rem(file.pos, cb);
    ghost var i, v, pos, cblk := Quot(file.pos, cb), fat.vol, file.pos, file.cblk;
    err, taken := 0, [];
    if cOffset + n >= cb {
      OnlyLastIsEnd(v.table, file.sblk, ch, i);
      assert InTable(v.table, ch[i]);
      var next := fat.ClusterGetNext(file.cblk);
      if next == EOC && expand {
        Advance(file.pos, cb, n);
        OneForAFullCluster(file.size, cb);
        err := ExpandFile(fat, file, cb, ch, i);
        if err < 0 {
          MoveStuck(cb, v, file.sblk, ch, pos, cblk, n);
          return;
        }
        next := fat.ClusterGetNext(file.cblk);
        file.cblk := next;
        file.pos := file.pos + n;
        taken := FreeClusters(v.table)[..1];
        MovedOntoSpare(fat.g, v, fat.vol, file.sblk, ch, pos, cblk, next, n);
        return;
      }
      file.cblk := next;
    }
    file.pos := file.pos + n;
    MovedWithin(cb, v, file.sblk, ch, pos, cblk, file.cblk, n, expand);
  }

  // One more cluster behind the last one.
  lemma SpareIsLinked(g: Geometry, v: Vol, v': Vol, s: int, ch: seq<int>, i: nat)
    requires WellFormed(g, v) && Chain(v.table, s, ch) && |ch| == i + 1 && FreeClusters(v.table) != []
    requires v' == v.(table := GrownTable(v.table, 1, true, ch[i]))
    ensures var taken := FreeClusters(v.table)[..1];
      && Chain(v'.table, s, ch + taken) && Next(v'.table, ch[i]) == taken[0]
      && OnlyTouches(g.ClusterBytes(), v, v', ch, taken)
      && (forall c :: c in ch || c in taken ==> v'.table[c] != FREE)
      && AllFit(v'.data, g.ClusterBytes(), ch + taken)
      && 0 <= |ch| * g.ClusterBytes() <= |ch + taken| * g.ClusterBytes()
  {
    var taken := FreeClusters(v.table)[..1];
    GrownIsChain(v.table, s, ch, i, taken, v'.table);
    assert ch[..i + 1] + taken == ch + taken;
    ChainFits(g, v', s, ch + taken);
    TimesMonotone(|ch|, |ch + taken|, g.ClusterBytes());
    TimesMonotone(0, |ch|, g.ClusterBytes());
  }

  // The piece of a read that lies in the cursor's cluster: a whole cluster goes
  // straight to the caller, anything else through the buffer.
  method ReadChunk(fat: Fat, file: File, nbytes: nat, ghost ch: seq<int>) returns (chunk: seq<byte>)
    requires fat.Valid() && Opened(fat, file, ch)
    requires 0 < nbytes && file.pos + nbytes <= file.size
    modifies fat`currSector, fat.buffer
    ensures fat.Valid() && Opened(fat, file, ch) && Quot(file.pos, fat.g.ClusterBytes()) < |ch|
    ensures 0 < |chunk| <= nbytes && Rem(file.pos, fat.g.ClusterBytes()) + |chunk| <= fat.g.ClusterBytes()
    ensures chunk == Content(fat.vol, fat.g.ClusterBytes(), ch, file.size)[file.pos..file.pos + |chunk|]
  {
    hide Fat.Valid, Quot, Rem, Fits;
    var cb := fat.g.ClusterBytes();
    var currRead := nbytes;
    var clusterOffset := Rem(file.pos, cb);
    DivMod(file.pos, cb);
    ContentSlice(fat.vol, cb, ch, file.size, file.pos, 0);
    assert InTable(fat.vol.table, ch[Quot(file.pos, cb)]);
    if clusterOffset == 0 && nbytes == cb {
      chunk := fat.ReadWhole(file.cblk);
      currRead := cb;
    } else {
      if clusterOffset + currRead > cb {
        currRead := cb - clusterOffset;
      }
      chunk := fat.ReadPart(file.cblk, clusterOffset, currRead);
    }
    ContentSlice(fat.vol, cb, ch, file.size, file.pos, currRead);
  }

  lemma SlicesJoin(x: seq<byte>, a: nat, b: nat, c: nat)
    requires a <= b <= c <= |x|
    ensures x[a..b] + x[b..c] == x[a..c]
  {
  }

  // Without writing nothing but the cursor moves.
  lemma MovedReading(cb: nat, v: Vol, v': Vol, s: int, ch: seq<int>, taken: seq<int>, pos: nat, pos': nat,
                     cblk: int, cblk': int, n: nat, err: int)
    requires 0 < cb && Moved(cb, v, v', s, ch, taken, pos, pos', cblk, cblk', n, false, err)
    ensures v' == v && pos' == pos + n && CursorAt(ch, cblk', pos', cb)
  {
    hide Quot, Rem, Chain, OnlyTouches, FreeBelow;
    assert ch + [] == ch;
  }

  // Reading from the cursor gives the bytes of the file from there on, up to n
  // of them, whatever mixture of whole and partial clusters they lie in.
  method FatfsRead(fat: Fat, file: File, n: nat, ghost ch: seq<int>) returns (buf: seq<byte>)
    requires fat.Valid() && Opened(fat, file, ch) && file.pos <= file.size
    modifies fat, fat.buffer, file`pos, file`cblk, file`sblk
    ensures fat.Valid() && fat.vol == old(fat.vol)
    ensures Opened(fat, file, ch) && file.sblk == old(file.sblk) && file.pos == old(file.pos) + |buf|
    ensures var content := Content(fat.vol, fat.g.ClusterBytes(), ch, file.size);
      var end := if old(file.pos) + n > file.size then file.size else old(file.pos) + n;
      buf == content[old(file.pos)..end]
  {
    hide Fat.Valid, Quot, Rem, Fits, Chain, Covers, Content, CursorAt, Moved;
    var nbytes: nat := n;
    if file.pos + nbytes > file.size {
      nbytes := file.size - file.pos;
    }
    ghost var want, content := nbytes, Content(fat.vol, fat.g.ClusterBytes(), ch, file.size);
    buf := [];
    while nbytes > 0
      invariant fat.Valid() && fat.vol == old(fat.vol) && file.sblk == old(file.sblk)
      invariant Opened(fat, file, ch)
      invariant |buf| + nbytes == want && file.pos == old(file.pos) + |buf| && file.pos + nbytes <= |content|
      invariant Content(fat.vol, fat.g.ClusterBytes(), ch, file.size) == content
      invariant buf == content[old(file.pos)..file.pos]
    {
      var chunk := ReadChunk(fat, file, nbytes, ch);
      SlicesJoin(content, old(file.pos), file.pos, file.pos + |chunk|);
      buf := buf + chunk;
      nbytes := nbytes - |chunk|;
      ghost var v, pos, cblk := fat.vol, file.pos, file.cblk;
      var err;
      ghost var taken;
      err, taken := MoveFilePos(fat, file, |chunk|, false, ch);
      MovedReading(fat.g.ClusterBytes(), v, fat.vol, file.sblk, ch, taken, pos, file.pos, cblk, file.cblk,
                   |chunk|, err);
    }
  }

  // The piece of a write that fits the cursor's cluster.
  method WriteChunk(fat: Fat, file: File, buf: seq<byte>, ghost ch: seq<int>) returns (k: nat)
    requires fat.Valid() && Opened(fat, file, ch) && Quot(file.pos, fat.g.ClusterBytes()) < |ch| && buf != []
    modifies fat, fat.buffer
    ensures fat.Valid() && 0 < k <= |buf|
    ensures var cb := fat.g.ClusterBytes(); var c := ch[Quot(file.pos, cb)];
      && Rem(file.pos, cb) + k <= cb && (k < |buf| ==> Rem(file.pos, cb) + k == cb)
      && Fits(|old(fat.vol).data|, cb, c)
      && fat.vol == old(fat.vol).(data := Patch(old(fat.vol).data, cb, c, Rem(file.pos, cb), buf[..k]))
  {
    hide Fat.Valid, Patch, Quot, Rem, Fits;
    var cb := fat.g.ClusterBytes();
    k := |buf|;
    var clusterOffset := Rem(file.pos, cb);
    DivMod(file.pos, cb);
    assert InTable(fat.vol.table, ch[Quot(file.pos, cb)]);
    assert buf[..|buf|] == buf;
    if clusterOffset == 0 && k == cb {
      fat.WriteWhole(file.cblk, buf);
    } else {
      if clusterOffset + k > cb {
        k := cb - clusterOffset;
      }
      fat.WritePart(file.cblk, clusterOffset, buf[..k]);
    }
  }

  // A piece x is at the end of the file, and the cursor behind it, on a spare
  // cluster when x filled the chain and one was free.
  ghost predicate PieceDone(cb: nat, v: Vol, v': Vol, s: int, ch: seq<int>, spare: seq<int>, size: nat, pos': nat,
                            cblk': int, x: seq<byte>, err: int)
    requires 0 < cb
  {
    var free := FreeClusters(v.table);
    var full := size + |x| == |ch| * cb;
    && size + |x| <= |ch| * cb
    && Chain(v'.table, s, ch + spare) && Covers(v, cb, ch, size) && Covers(v', cb, ch + spare, size + |x|)
    && Content(v', cb, ch + spare, size + |x|) == Content(v, cb, ch, size) + x
    && spare == (if full && free != [] then free[..1] else [])
    && err == (if full && free == [] then -1 else 0)
    && OnlyTouches(cb, v, v', ch, spare)
    && (forall c :: c in ch || c in spare ==> 0 <= c < |v'.table| && v'.table[c] != FREE)
    && (spare == [] ==> v'.table == v.table)
    && if err == 0 then pos' == size + |x| && CursorAt(ch + spare, cblk', pos', cb) && Quot(pos', cb) < |ch + spare|
       else pos' < size + |x|
  }

  lemma PieceIsDone(g: Geometry, v: Vol, m: Vol, v': Vol, s: int, ch: seq<int>, spare: seq<int>, size: nat, pos': nat,
                    cblk: int, cblk': int, x: seq<byte>, err: int)
    requires WellFormed(g, v) && WellFormed(g, v') && Chain(v.table, s, ch) && Covers(v, g.ClusterBytes(), ch, size)
    requires x != [] && Quot(size, g.ClusterBytes()) < |ch| && Rem(size, g.ClusterBytes()) + |x| <= g.ClusterBytes()
    requires Fits(|v.data|, g.ClusterBytes(), ch[Quot(size, g.ClusterBytes())])
    requires size + |x| < |ch| * g.ClusterBytes() || EndsInEoc(v.table, ch)
    requires m == v.(data := Patch(v.data, g.ClusterBytes(), ch[Quot(size, g.ClusterBytes())],
                                   Rem(size, g.ClusterBytes()), x))
    requires Moved(g.ClusterBytes(), m, v', s, ch, spare, size, pos', cblk, cblk', |x|, true, err)
    ensures PieceDone(g.ClusterBytes(), v, v', s, ch, spare, size, pos', cblk', x, err)
  {
    hide Quot, Rem, Fits, Patch, Covers, Content, Chain, WellFormed, FreeBelow, CursorAt, EndsInEoc;
    FillsLast(size, |x|, g.ClusterBytes(), |ch|);
    PieceAppended(g, v, m, v', s, ch, size, x, spare);
    hide OnlyTouches;
  }

  // One turn of the write loop.
  method AppendPiece(fat: Fat, file: File, buf: seq<byte>, ghost ch: seq<int>)
    returns (k: nat, err: int, ghost spare: seq<int>)
    requires fat.Valid() && Opened(fat, file, ch) && buf != []
    requires file.pos == file.size && Quot(file.pos, fat.g.ClusterBytes()) < |ch|
    requires file.size + |buf| < |ch| * fat.g.ClusterBytes() || EndsInEoc(fat.vol.table, ch)
    modifies fat, fat.buffer, file
    ensures fat.Valid() && file.sblk == old(file.sblk)
    ensures 0 < k <= |buf| && file.size == old(file.size) + k
    ensures PieceDone(fat.g.ClusterBytes(), old(fat.vol), fat.vol, file.sblk, ch, spare, old(file.size), file.pos,
                      file.cblk, buf[..k], err)
    ensures k < |buf| ==> Rem(old(file.size), fat.g.ClusterBytes()) + k == fat.g.ClusterBytes()
  {
    hide Fat.Valid, Quot, Rem, Fits, Patch, PieceDone, Moved, Chain, EndsInEoc;
    ghost var cb, v0, size0, cblk := fat.g.ClusterBytes(), fat.vol, file.size, file.cblk;
    k := WriteChunk(fat, file, buf, ch);
    ghost var v1 := fat.vol;
    ChainIsAcyclic(v0.table, file.sblk, ch);
    PatchKeepsFile(fat.g, v0, v1, ch, size0, buf[..k]);
    file.size := file.size + k;
    err, spare := MoveFilePos(fat, file, k, true, ch);
    PieceIsDone(fat.g, v0, v1, fat.vol, file.sblk, ch, spare, size0, file.pos, cblk, file.cblk, buf[..k], err);
  }

  lemma PatchKeepsFile(g: Geometry, v: Vol, m: Vol, ch: seq<int>, size: nat, x: seq<byte>)
    requires Covers(v, g.ClusterBytes(), ch, size) && Distinct(ch)
    requires Quot(size, g.ClusterBytes()) < |ch| && Rem(size, g.ClusterBytes()) + |x| <= g.ClusterBytes()
    requires Fits(|v.data|, g.ClusterBytes(), ch[Quot(size, g.ClusterBytes())])
    requires m == v.(data := Patch(v.data, g.ClusterBytes(), ch[Quot(size, g.ClusterBytes())],
                                   Rem(size, g.ClusterBytes()), x))
    ensures Covers(m, g.ClusterBytes(), ch, size + |x|)
  {
    hide Quot, Rem, Fits, Patch;
    ContentAppended(v, g.ClusterBytes(), ch, size, x);
  }

  // ------------------------------------------------------------ the space an append takes

  // The number of clusters an append of n bytes asks for before it writes.
  ghost function Reserve(size: nat, n: nat, cb: nat): nat
    requires 0 < cb
  {
    if n == 0 then 0 else Wanted(size, n, cb)
  }

  // Room for n more bytes with k more clusters behind the one that holds the end: a
  // file that ends inside a cluster must be left room behind the bytes there, or get
  // a cluster.
  ghost predicate Suffices(k: nat, size: nat, n: nat, cb: nat)
    requires 0 < cb
  {
    n == 0
    || if Rem(size, cb) == 0 then size + n <= (Quot(size, cb) + k) * cb
       else size + n < (Quot(size, cb) + 1) * cb || (0 < k && size + n <= (Quot(size, cb) + 1 + k) * cb)
  }

  lemma ReserveIsLeast(k: nat, size: nat, n: nat, cb: nat)
    requires 0 < cb
    ensures Suffices(k, size, n, cb) <==> Reserve(size, n, cb) <= k
  {
    hide Quot, Rem, Wanted;
    WantedIsLeast(size, n, cb, k);
  }

  // In bytes: an append succeeds exactly when its bytes fit without a cluster more,
  // or with the free ones and the cursor on the chain.
  lemma CanAppendIff(free: nat, len: nat, size: nat, n: nat, cb: nat)
    requires 0 < cb
    ensures CanAppend(free, len, size, n, cb) <==>
      Suffices(0, size, n, cb) || (Suffices(free, size, n, cb) && (len == 0 || Quot(size, cb) < len))
  {
    hide Quot, Suffices, Reserve;
    ReserveIsLeast(0, size, n, cb);
    ReserveIsLeast(free, size, n, cb);
  }

  // The length of a chain of len clusters with k more linked behind the cursor.
  ghost function LengthWith(len: nat, size: nat, k: nat, cb: nat): nat
    requires 0 < cb
  {
    if k == 0 then len else if len == 0 then k else Quot(size, cb) + 1 + k
  }

  // Appending succeeds exactly when the clusters it asks for are free and the
  // cursor has a cluster to link them to.
  ghost predicate CanAppend(free: nat, len: nat, size: nat, n: nat, cb: nat)
    requires 0 < cb
  {
    var k := Reserve(size, n, cb);
    k == 0 || (k <= free && (len == 0 || Quot(size, cb) < len))
  }

  // The bytes end where the chain with those clusters ends.
  ghost predicate FillsChain(len: nat, size: nat, n: nat, cb: nat)
    requires 0 < cb
  {
    0 < n && size + n == LengthWith(len, size, Reserve(size, n, cb), cb) * cb
  }

  // The cursor is left behind exactly when the bytes fill the chain and not one
  // more cluster is free.
  ghost predicate CursorStuck(free: nat, len: nat, size: nat, n: nat, cb: nat)
    requires 0 < cb
  {
    FillsChain(len, size, n, cb) && free == Reserve(size, n, cb)
  }

  // How many of the free clusters an append uses up: those it asks for, with one
  // more when the bytes fill the chain; none when they are too few. A cursor off
  // the chain does not save them.
  ghost function Takes(free: nat, len: nat, size: nat, n: nat, cb: nat): (r: nat)
    requires 0 < cb
    ensures r <= free
  {
    var k := Reserve(size, n, cb);
    if free < k then 0
    else if CanAppend(free, len, size, n, cb) && FillsChain(len, size, n, cb) && k < free then k + 1
    else k
  }

  // The outcome of making room for n more bytes: with err 0 the cursor's chain
  // has grown to ch', else the file is as it was and `added` is lost.
  ghost predicate RoomMade(cb: nat, v: Vol, v': Vol, ch: seq<int>, ch': seq<int>, added: seq<int>,
                           sblk': int, cblk': int, size: nat, n: nat, err: int)
    requires 0 < cb
  {
    var k, free := Reserve(size, n, cb), FreeClusters(v.table);
    && err == (if CanAppend(|free|, |ch|, size, n, cb) then 0 else -1)
    && added == (if k <= |free| then free[..k] else [])
    && ch' == (if err == 0 then Grown(ch, Quot(size, cb), added) else ch)
    && (err == 0 ==> |ch'| == LengthWith(|ch|, size, k, cb))
    && OnlyTouches(cb, v, v', ch, added)
    && Chain(v'.table, sblk', ch') && CursorAt(ch', cblk', size, cb)
    && Covers(v, cb, ch, size) && Covers(v', cb, ch', size) && Content(v', cb, ch', size) == Content(v, cb, ch, size)
    && (forall c :: c in ch' ==> c in ch || c in added)
    && (forall c :: c in ch || c in added ==> 0 <= c < |v'.table| && v'.table[c] != FREE)
    && (err == 0 ==> Quot(size, cb) < |ch'| && size + n <= |ch'| * cb)
    && (err == 0 ==> if added == [] then size + n < |ch'| * cb else EndsInEoc(v'.table, ch'))
    && (err == 0 ==> FreeClusters(v'.table) == free[|added|..])
    && (added == [] ==> v' == v)
  }

  lemma RoomFound(g: Geometry, v: Vol, v': Vol, s: int, s': int, cblk: int, cblk': int,
                  ch: seq<int>, ch': seq<int>, added: seq<int>, size: nat, n: nat)
    requires GrowsTo(g, v, v', s, s', ch, ch', size, n, added) && CursorAt(ch, cblk, size, g.ClusterBytes())
    requires cblk' == if ch == [] then s' else cblk
    requires CanAppend(|FreeClusters(v.table)|, |ch|, size, n, g.ClusterBytes())
    ensures RoomMade(g.ClusterBytes(), v, v', ch, ch', added, s', cblk', size, n, 0)
  {
    hide Quot, Rem, Fits, Wanted, Chain, OnlyTouches, Covers, Content, FreeBelow, GrownTable, AllocStart, WellFormed,
         EndsInEoc;
    GrownLength(ch, size, n, g.ClusterBytes());
    GrownTables(g, v, v', s, s', ch, ch', size, n, added);
    GrownContents(g, v, v', s, s', ch, ch', size, n, added);
    FreeAfterGrown(v.table, s, ch, Quot(size, g.ClusterBytes()), added, v'.table);
    CoversFew(v, g.ClusterBytes(), ch, size, n);
    assert |ch'| == LengthWith(|ch|, size, |added|, g.ClusterBytes());
    hide Grown;
  }

  lemma CoversFew(v: Vol, cb: nat, ch: seq<int>, size: nat, n: nat)
    requires Covers(v, cb, ch, size) && 0 < n
    ensures Wanted(size, n, cb) == 0 ==> size + n < |ch| * cb
  {
    if Wanted(size, n, cb) == 0 { FewBytes(size, n, cb, |ch|); }
  }

  lemma RoomMissing(g: Geometry, v: Vol, v': Vol, s: int, cblk: int, ch: seq<int>, size: nat, n: nat)
    requires WellFormed(g, v) && WellFormed(g, v') && Chain(v.table, s, ch) && Covers(v, g.ClusterBytes(), ch, size)
    requires CursorAt(ch, cblk, size, g.ClusterBytes()) && 0 < n
    requires v' == v.(table := AllocTable(v.table, Wanted(size, n, g.ClusterBytes())))
    requires !CanAppend(|FreeClusters(v.table)|, |ch|, size, n, g.ClusterBytes())
    ensures var k := Wanted(size, n, g.ClusterBytes());
      RoomMade(g.ClusterBytes(), v, v', ch, ch, if k <= |FreeClusters(v.table)| then FreeClusters(v.table)[..k] else [],
               s, cblk, size, n, -1)
  {
    hide Quot, Rem, Fits, Wanted;
    LostIsKept(g, v, v', s, ch, size, Wanted(size, n, g.ClusterBytes()));
    hide Chain, OnlyTouches, Covers, Content, FreeBelow;
  }

  // The first half of fatfs_write.
  method ReserveRoom(fat: Fat, file: File, n: nat, ghost ch: seq<int>)
    returns (err: int, ghost ch': seq<int>, ghost added: seq<int>)
    requires fat.Valid() && Opened(fat, file, ch) && file.pos == file.size && 0 < n
    modifies fat, fat.buffer, file`sblk, file`cblk
    ensures fat.Valid()
    ensures RoomMade(fat.g.ClusterBytes(), old(fat.vol), fat.vol, ch, ch', added, file.sblk, file.cblk,
                     file.size, n, err)
    ensures err < 0 ==> file.sblk == old(file.sblk)
  {
    hide Fat.Valid, Quot, Rem, Fits, Wanted, Covers, GrownTable, AllocTable, RoomMade, Chain, Stands;
    ghost var g, v, s, cblk := fat.g, fat.vol, file.sblk, file.cblk;
    ghost var cb := g.ClusterBytes();
    ghost var i, k := Quot(file.size, cb), Wanted(file.size, n, cb);
    RoomFacts(v, cb, ch, file.size, n);
    err := ExpandFile(fat, file, n, ch, i);
    added := if k <= |FreeClusters(v.table)| then FreeClusters(v.table)[..k] else [];
    if err == 0 {
      ch' := Grown(ch, i, added);
      RoomFound(g, v, fat.vol, s, file.sblk, cblk, file.cblk, ch, ch', added, file.size, n);
    } else {
      ch' := ch;
      RoomMissing(g, v, fat.vol, s, cblk, ch, file.size, n);
    }
  }

  lemma RoomFacts(v: Vol, cb: nat, ch: seq<int>, size: nat, n: nat)
    requires Covers(v, cb, ch, size) && 0 < n
    ensures ch == [] ==> size == 0 && 0 < Wanted(size, n, cb) && Quot(size, cb) == 0
    ensures Quot(size, cb) == |ch| ==> 0 < Wanted(size, n, cb)
    ensures Quot(size, cb) <= |ch|
  {
    hide Quot, Rem, Fits;
    QuotBelow(size, cb, |ch|);
    GrownLength(ch, size, n, cb);
  }

  // ------------------------------------------------------------ writing

  // Halfway through a write: `done` has been appended to the file v0, ch0 was.
  ghost predicate Writing(cb: nat, v0: Vol, v: Vol, s: int, ch0: seq<int>, ch: seq<int>, taken: seq<int>,
                          size0: nat, done: seq<byte>)
    requires 0 < cb
  {
    && Chain(v.table, s, ch) && Covers(v0, cb, ch0, size0) && Covers(v, cb, ch, size0 + |done|)
    && Content(v, cb, ch, size0 + |done|) == Content(v0, cb, ch0, size0) + done
    && OnlyTouches(cb, v0, v, ch0, taken)
    && (forall c :: c in ch ==> c in ch0 || c in taken)
    && (forall c :: c in ch0 || c in taken ==> 0 <= c < |v.table| && v.table[c] != FREE)
  }

  lemma WritingBegins(cb: nat, v0: Vol, v: Vol, s: int, ch0: seq<int>, ch: seq<int>, added: seq<int>,
                      size0: nat, cblk: int, n: nat, err: int)
    requires 0 < cb && RoomMade(cb, v0, v, ch0, ch, added, s, cblk, size0, n, err)
    ensures Writing(cb, v0, v, s, ch0, ch, added, size0, [])
  {
    hide Quot, Rem, Fits, Chain, Covers, OnlyTouches;
    assert Content(v0, cb, ch0, size0) + [] == Content(v0, cb, ch0, size0);
  }

  lemma WritingGoesOn(cb: nat, v0: Vol, v: Vol, v': Vol, s: int, ch0: seq<int>, ch: seq<int>, taken: seq<int>,
                      size0: nat, done: seq<byte>, x: seq<byte>, spare: seq<int>, pos': nat, cblk': int, err: int)
    requires 0 < cb && Writing(cb, v0, v, s, ch0, ch, taken, size0, done)
    requires PieceDone(cb, v, v', s, ch, spare, size0 + |done|, pos', cblk', x, err)
    ensures Writing(cb, v0, v', s, ch0, ch + spare, taken + spare, size0, done + x)
  {
    hide Quot, Rem, Fits, Chain, Covers, Content, OnlyTouches, FreeBelow, CursorAt;
    TouchesTwice(cb, v0, v, v', ch0, taken, ch, spare);
    StaysInUse(cb, v, v', ch0 + taken, ch, spare);
    forall c | c in ch0 || c in taken + spare ensures 0 <= c < |v'.table| && v'.table[c] != FREE {
      assert c in ch0 + taken || c in spare;
    }
    assert Content(v0, cb, ch0, size0) + done + x == Content(v0, cb, ch0, size0) + (done + x);
  }

  lemma StaysInUse(cb: nat, v: Vol, v': Vol, cs: seq<int>, ch: seq<int>, spare: seq<int>)
    requires OnlyTouches(cb, v, v', ch, spare)
    requires forall c :: c in cs ==> 0 <= c < |v.table| && v.table[c] != FREE
    requires forall c :: c in ch ==> 0 <= c < |v'.table| && v'.table[c] != FREE
    ensures forall c :: c in cs ==> 0 <= c < |v'.table| && v'.table[c] != FREE
  {
    forall c | c in cs ensures 0 <= c < |v'.table| && v'.table[c] != FREE {
      if c !in ch { assert c !in spare; }
    }
  }

  // What an append of buf does to the volume, to the chain and to the free
  // clusters: all of buf is written or nothing, the clusters taken are the first
  // free ones, and the chain keeps its clusters up to the cursor.
  ghost predicate Appended(cb: nat, v: Vol, v': Vol, s': int, ch: seq<int>, ch': seq<int>, taken: seq<int>,
                           size: nat, buf: seq<byte>)
    requires 0 < cb
  {
    var free := FreeClusters(v.table);
    var ok := CanAppend(|free|, |ch|, size, |buf|, cb);
    && taken == free[..Takes(|free|, |ch|, size, |buf|, cb)]
    && ch' == (if ok then Grown(ch, Quot(size, cb), taken) else ch)
    && Writing(cb, v, v', s', ch, ch', taken, size, if ok then buf else [])
  }

  lemma NothingAppended(cb: nat, v: Vol, s: int, ch: seq<int>, size: nat)
    requires Chain(v.table, s, ch) && Covers(v, cb, ch, size)
    ensures CanAppend(|FreeClusters(v.table)|, |ch|, size, 0, cb)
    ensures Appended(cb, v, v, s, ch, ch, [], size, [])
  {
    ChainHasNoFree(v.table, s, ch);
    assert Takes(|FreeClusters(v.table)|, |ch|, size, 0, cb) == 0;
    hide Quot, Rem, Chain, FreeBelow, Fits, AllFit;
  }

  lemma AppendFailed(cb: nat, v: Vol, v': Vol, s': int, ch: seq<int>, ch': seq<int>, added: seq<int>,
                     size: nat, cblk: int, buf: seq<byte>)
    requires 0 < cb && buf != [] && RoomMade(cb, v, v', ch, ch', added, s', cblk, size, |buf|, -1)
    ensures Appended(cb, v, v', s', ch, ch, added, size, buf)
  {
    hide Quot, Rem, Chain, Covers, OnlyTouches, Wanted, FreeBelow, Content;
    WritingBegins(cb, v, v', s', ch, ch', added, size, cblk, |buf|, -1);
    hide Writing;
  }

  // The spare cluster that the last piece takes when it fills the chain.
  ghost function SpareOf(v: Vol, len: nat, size: nat, n: nat, cb: nat): seq<int> {
    if size + n == len * cb && FreeClusters(v.table) != [] then FreeClusters(v.table)[..1] else []
  }

  lemma AppendDone(cb: nat, v: Vol, m: Vol, v': Vol, s': int, ch: seq<int>, ch1: seq<int>, added: seq<int>,
                   sm: int, cm: int, size: nat, buf: seq<byte>)
    requires 0 < cb && buf != [] && RoomMade(cb, v, m, ch, ch1, added, sm, cm, size, |buf|, 0)
    requires var spare := SpareOf(m, |ch1|, size, |buf|, cb);
      Writing(cb, v, v', s', ch, ch1 + spare, added + spare, size, buf)
    ensures var spare := SpareOf(m, |ch1|, size, |buf|, cb);
      Appended(cb, v, v', s', ch, ch1 + spare, added + spare, size, buf)
  {
    hide Quot, Rem, FreeBelow, Writing, RoomMade, FillsChain, Reserve, CanAppend, Grown;
    var spare := SpareOf(m, |ch1|, size, |buf|, cb);
    RoomNumbers(cb, v, m, ch, ch1, added, sm, cm, size, |buf|);
    GrownFurther(ch, Quot(size, cb), added, spare);
    var free, k := FreeClusters(v.table), |added|;
    if spare != [] {
      assert free[..k] + free[k..][..1] == free[..k + 1];
    } else {
      assert added + spare == added;
    }
  }

  lemma RoomNumbers(cb: nat, v: Vol, m: Vol, ch: seq<int>, ch1: seq<int>, added: seq<int>,
                    sm: int, cm: int, size: nat, n: nat)
    requires 0 < cb && 0 < n && RoomMade(cb, v, m, ch, ch1, added, sm, cm, size, n, 0)
    ensures var free, k := FreeClusters(v.table), |added|;
      && k == Reserve(size, n, cb) <= |free| && added == free[..k] && FreeClusters(m.table) == free[k..]
      && CanAppend(|free|, |ch|, size, n, cb)
      && (FillsChain(|ch|, size, n, cb) <==> size + n == |ch1| * cb)
      && (added == [] ==> size + n < |ch1| * cb)
      && (added == [] || ch == [] || Quot(size, cb) < |ch|)
      && ch1 == Grown(ch, Quot(size, cb), added)
  {
    hide Quot, Rem, Chain, Covers, OnlyTouches, Wanted, FreeBelow, Content, EndsInEoc, Grown;
  }

  lemma GrownFurther(ch: seq<int>, i: nat, added: seq<int>, spare: seq<int>)
    requires added == [] ==> spare == []
    requires added == [] || ch == [] || i < |ch|
    ensures Grown(ch, i, added) + spare == Grown(ch, i, added + spare)
  {
    if added == [] { assert added + spare == []; }
    if ch != [] && added != [] { assert ch[..i + 1] + added + spare == ch[..i + 1] + (added + spare); }
  }

  lemma RoomBounds(cb: nat, v: Vol, v': Vol, ch: seq<int>, ch': seq<int>, added: seq<int>,
                   sblk': int, cblk': int, size: nat, n: nat, err: int)
    requires 0 < cb && 0 < n && RoomMade(cb, v, v', ch, ch', added, sblk', cblk', size, n, err)
    ensures err == (if CanAppend(|FreeClusters(v.table)|, |ch|, size, n, cb) then 0 else -1)
    ensures Chain(v'.table, sblk', ch') && CursorAt(ch', cblk', size, cb) && Covers(v', cb, ch', size)
    ensures if err == 0 then Quot(size, cb) < |ch'| && size + n <= |ch'| * cb else ch' == ch
    ensures err == 0 ==> size + n < |ch'| * cb || EndsInEoc(v'.table, ch')
    ensures err == 0 ==>
      (CursorStuck(|FreeClusters(v.table)|, |ch|, size, n, cb) <==>
        size + n == |ch'| * cb && FreeClusters(v'.table) == [])
  {
    hide Quot, Rem, Fits, Chain, Covers, Content, OnlyTouches, FreeBelow, Wanted, EndsInEoc, Grown;
  }

  // Appending at the end of a file. It writes all of buf or nothing, keeps what
  // was there, and writes to no cluster but the file's own and free ones.
  method FatfsWrite(fat: Fat, file: File, buf: seq<byte>, ghost ch: seq<int>)
    returns (total: nat, ghost ch': seq<int>, ghost taken: seq<int>)
    requires fat.Valid() && Opened(fat, file, ch) && file.pos == file.size
    modifies fat, fat.buffer, file
    ensures fat.Valid()
    ensures var free := |FreeClusters(old(fat.vol).table)|;
      total == if CanAppend(free, |ch|, old(file.size), |buf|, fat.g.ClusterBytes()) then |buf| else 0
    ensures var free, size, cb := |FreeClusters(old(fat.vol).table)|, old(file.size), fat.g.ClusterBytes();
      total == |buf| <==> buf == [] || Suffices(0, size, |buf|, cb)
                          || (Suffices(free, size, |buf|, cb) && (ch == [] || Quot(size, cb) < |ch|))
    ensures file.size == old(file.size) + total && (total == 0 ==> file.sblk == old(file.sblk))
    ensures Appended(fat.g.ClusterBytes(), old(fat.vol), fat.vol, file.sblk, ch, ch', taken, old(file.size), buf)
    ensures var free := |FreeClusters(old(fat.vol).table)|;
      if 0 < total && CursorStuck(free, |ch|, old(file.size), |buf|, fat.g.ClusterBytes())
      then file.pos < file.size
      else file.pos == file.size && Opened(fat, file, ch')
           && (0 < total ==> Quot(file.pos, fat.g.ClusterBytes()) < |ch'|)
  {
    hide Fat.Valid, Quot, Rem, Fits, Wanted, Covers, Chain, Content, OnlyTouches, PieceDone, RoomMade, Writing,
         CanAppend, CursorStuck, CursorAt, FreeBelow, Appended, SpareOf, EndsInEoc, Suffices;
    ghost var v0, size0, cb := fat.vol, file.size, fat.g.ClusterBytes();
    CanAppendIff(|FreeClusters(v0.table)|, |ch|, size0, |buf|, cb);
    total, ch', taken := 0, ch, [];
    if buf == [] {
      NothingAppended(cb, v0, file.sblk, ch, size0);
      return;
    }
    var err;
    err, ch', taken := ReserveRoom(fat, file, |buf|, ch);
    RoomBounds(cb, v0, fat.vol, ch, ch', taken, file.sblk, file.cblk, size0, |buf|, err);
    if err < 0 {
      AppendFailed(cb, v0, fat.vol, file.sblk, ch, ch', taken, size0, file.cblk, buf);
      return;
    }
    WritingBegins(cb, v0, fat.vol, file.sblk, ch, ch', taken, size0, file.cblk, |buf|, err);
    ghost var v1, ch1, added, s1, c1 := fat.vol, ch', taken, file.sblk, file.cblk;
    ghost var spare1 := SpareOf(v1, |ch1|, size0, |buf|, cb);
    assert buf[..0] == [] && buf[..|buf|] == buf;
    while total < |buf|
      invariant total <= |buf| && file.size == file.pos == size0 + total
      invariant fat.Valid() && Opened(fat, file, ch') && Quot(file.pos, cb) < |ch'|
      invariant Writing(cb, v0, fat.vol, file.sblk, ch, ch', taken, size0, buf[..total])
      invariant total < |buf| ==> ch' == ch1 && taken == added && fat.vol.table == v1.table
      invariant total == |buf| ==> ch' == ch1 + spare1 && taken == added + spare1
      invariant total == |buf| ==> !(size0 + |buf| == |ch1| * cb && FreeClusters(v1.table) == [])
    {
      ghost var v := fat.vol;
      var k: nat;
      ghost var spare;
      k, err, spare := AppendPiece(fat, file, buf[total..], ch');
      PieceBounds(cb, v, fat.vol, file.sblk, ch', spare, size0 + total, file.pos, file.cblk, buf[total..][..k], err);
      WritingGoesOn(cb, v0, v, fat.vol, file.sblk, ch, ch', taken, size0, buf[..total], buf[total..][..k], spare,
                    file.pos, file.cblk, err);
      assert buf[..total] + buf[total..][..k] == buf[..total + k];
      SpareIsThat(v1, v, |ch1|, size0, total, k, |buf|, cb, spare);
      total, ch', taken := total + k, ch' + spare, taken + spare;
      if err < 0 {
        AppendDone(cb, v0, v1, fat.vol, file.sblk, ch, ch1, added, s1, c1, size0, buf);
        return;
      }
    }
    AppendDone(cb, v0, v1, fat.vol, file.sblk, ch, ch1, added, s1, c1, size0, buf);
  }

  lemma SpareIsThat(m: Vol, v: Vol, len: nat, size: nat, total: nat, k: nat, n: nat, cb: nat, spare: seq<int>)
    requires v.table == m.table && total + k <= n && size + n <= len * cb
    requires spare == SpareOf(v, len, size + total, k, cb)
    ensures if total + k == n then spare == SpareOf(m, len, size, n, cb) else spare == []
  {
  }

  lemma PieceBounds(cb: nat, v: Vol, v': Vol, s: int, ch: seq<int>, spare: seq<int>, size: nat, pos': nat,
                    cblk': int, x: seq<byte>, err: int)
    requires 0 < cb && PieceDone(cb, v, v', s, ch, spare, size, pos', cblk', x, err)
    ensures size + |x| <= |ch| * cb && spare == SpareOf(v, |ch|, size, |x|, cb)
    ensures err == (if size + |x| == |ch| * cb && FreeClusters(v.table) == [] then -1 else 0)
    ensures spare == [] ==> v'.table == v.table && ch + spare == ch
    ensures Chain(v'.table, s, ch + spare) && Covers(v', cb, ch + spare, size + |x|)
    ensures if err == 0 then pos' == size + |x| && CursorAt(ch + spare, cblk', pos', cb)
      && Quot(pos', cb) < |ch + spare|
            else pos' < size + |x|
  {
    hide Quot, Rem, Fits, Chain, Covers, Content, OnlyTouches, FreeBelow;
  }

  // The append the callers count on: with one free cluster more than the bytes
  // fill and a cursor on the chain, everything is written, the cursor is ready
  // for the next append, and no more than those clusters are used up.
  lemma EnoughSpace(free: nat, len: nat, size: nat, n: nat, cb: nat)
    requires 0 < cb && (len == 0 || Quot(size, cb) < len)
    requires Ceil(n, cb) + 1 <= free
    ensures CanAppend(free, len, size, n, cb) && !CursorStuck(free, len, size, n, cb)
    ensures Takes(free, len, size, n, cb)
         == Reserve(size, n, cb) + (if FillsChain(len, size, n, cb) then 1 else 0) <= Ceil(n, cb) + 1
  {
    hide Quot, Rem, Fits, FreeBelow;
    if 0 < n { WantedCovers(size, n, cb); }
  }

  // One cluster of bytes appended to an empty file with one free cluster left:
  // they are written, and the cursor stays behind.
  lemma StuckExample(cb: nat)
    requires 0 < cb
    ensures CanAppend(1, 0, 0, cb, cb) && CursorStuck(1, 0, 0, cb, cb)
  {
    hide Quot, Rem;
    DivModUnique(0, cb, 0, 0);
    CeilUnique(cb, cb, 1);
  }

  // The same bound whatever the outcome.
  lemma TakesFew(free: nat, len: nat, size: nat, n: nat, cb: nat)
    requires 0 < cb
    ensures Takes(free, len, size, n, cb) <= Ceil(n, cb) + 1
  {
    hide Quot, Rem;
    if 0 < n { WantedCovers(size, n, cb); }
  }

  // Two reads in a row give what one read of both lengths gives.
  method FatfsReadTwice(fat: Fat, file: File, a: nat, b: nat, ghost ch: seq<int>) returns (x: seq<byte>, y: seq<byte>)
    requires fat.Valid() && Opened(fat, file, ch) && file.pos <= file.size
    modifies fat, fat.buffer, file`pos, file`cblk, file`sblk
    ensures fat.Valid() && fat.vol == old(fat.vol) && Opened(fat, file, ch)
    ensures var content := Content(fat.vol, fat.g.ClusterBytes(), ch, file.size);
      var end := if old(file.pos) + a + b > file.size then file.size else old(file.pos) + a + b;
      x + y == content[old(file.pos)..end] && file.pos == end
  {
    hide Fat.Valid, Quot, Rem, Fits, Chain, Covers, CursorAt, Content;
    x := FatfsRead(fat, file, a, ch);
    y := FatfsRead(fat, file, b, ch);
  }

  // Seeking succeeds exactly when the offset lies in a cluster of the chain, and
  // then puts the cursor on that cluster.
  method FatfsSeek(fat: Fat, file: File, offset: nat, dir: int, ghost ch: seq<int>) returns (err: int)
    requires fat.Valid() && Chain(fat.vol.table, file.sblk, ch)
    modifies fat`currSector, fat.buffer, file`pos, file`cblk
    ensures fat.Valid()
    ensures var q := Quot(offset, fat.g.ClusterBytes());
      && err == (if dir == 0 && (q < |ch| || q == 0) then 0 else -1)
      && (if err == 0 then file.pos == offset && file.cblk == (if ch == [] then file.sblk else ch[q])
          else file.pos == old(file.pos) && file.cblk == old(file.cblk))
  {
    if dir != 0 {
      return -1;
    }
    hide Fat.Valid, Quot, Rem;
    var cb := fat.g.ClusterBytes();
    var currCluster := file.sblk;
    var currPos, offsetToMove := 0, offset;
    ghost var j := 0;
    QuotOfMultiple(cb, j);
    while offsetToMove > 0
      invariant currPos == j * cb && currPos + offsetToMove == offset && fat.Valid()
      invariant 0 <= j && 0 <= offsetToMove && (j < |ch| || j == 0)
      invariant currCluster == if ch == [] then file.sblk else ch[j]
      invariant file.pos == old(file.pos) && file.cblk == old(file.cblk)
    {
      QuotOfMultiple(cb, j);
      var cOff := Rem(currPos, cb);
      var currMove := offsetToMove;
      if cOff + currMove < cb {
        currPos := currPos + currMove;
        break;
      }
      currMove := cb - cOff;
      currPos := currPos + currMove;
      offsetToMove := offsetToMove - currMove;
      if ch != [] { OnlyLastIsEnd(fat.vol.table, file.sblk, ch, j); }
      assert ch != [] ==> InTable(fat.vol.table, ch[j]);
      currCluster := fat.ClusterGetNext(currCluster);
      QuotBelow(offset, cb, j + 1);
      Times(j, 1, cb);
      if !IsCluster(currCluster) {
        return -1;
      }
      j := j + 1;
      assert InTable(fat.vol.table, ch[j]);
    }
    DivModUnique(offset, cb, j, currPos - j * cb);
    file.pos := currPos;
    file.cblk := currCluster;
    return 0;
  }

  lemma QuotOfMultiple(cb: nat, j: nat)
    requires 0 < cb
    ensures 0 <= j * cb && Quot(j * cb, cb) == j && Rem(j * cb, cb) == 0
  {
    hide Quot, Rem;
    TimesMonotone(0, j, cb);
    DivModUnique(j * cb, cb, j, 0);
  }

  // Exactly the clusters an append takes are no longer free afterwards.
  lemma FreeAfterAppend(cb: nat, v: Vol, v': Vol, s: int, s': int, ch: seq<int>, ch': seq<int>, taken: seq<int>,
                        size: nat, buf: seq<byte>)
    requires 0 < cb && Chain(v.table, s, ch) && Appended(cb, v, v', s', ch, ch', taken, size, buf)
    ensures FreeClusters(v'.table) == FreeClusters(v.table)[|taken|..]
  {
    ChainHasNoFree(v.table, s, ch);
    hide Chain, FreeBelow, Quot, Rem, Covers, Content, Fits, Cluster, Takes, CanAppend;
    FreeTail(v.table, v'.table, |taken|);
  }

  ghost function Joined(pieces: seq<seq<byte>>): seq<byte> {
    if pieces == [] then [] else pieces[0] + Joined(pieces[1..])
  }

  // Each of the appends has, when its turn comes, one free cluster more than its
  // bytes fill.
  ghost predicate SpaceForEach(free: nat, len: nat, size: nat, pieces: seq<seq<byte>>, cb: nat)
    requires 0 < cb
    decreases |pieces|
  {
    pieces == [] || (
      var n := |pieces[0]|;
      var k := Takes(free, len, size, n, cb);
      && Ceil(n, cb) + 1 <= free
      && SpaceForEach(free - k, LengthWith(len, size, k, cb), size + n, pieces[1..], cb))
  }

  // One byte at a time, three free clusters are enough for a cluster of bytes but
  // one: only the first append takes a cluster.
  lemma {:induction false} ByteByByte(free: nat, size: nat, pieces: seq<seq<byte>>, cb: nat)
    requires size + |pieces| < cb && forall i :: 0 <= i < |pieces| ==> |pieces[i]| == 1
    requires free == if size == 0 then 3 else 2
    ensures SpaceForEach(free, if size == 0 then 0 else 1, size, pieces, cb)
    decreases |pieces|
  {
    hide Quot, Rem;
    if pieces != [] {
      DivModUnique(size, cb, 0, size);
      CeilUnique(1, cb, 1);
      ByteByByte(2, size + 1, pieces[1..], cb);
    }
  }

  // Any sequence of writes with space for each, read back from the start of the
  // file: the old content and then every byte written, in order.
  method AppendThenReadBack(fat: Fat, file: File, pieces: seq<seq<byte>>, ghost ch: seq<int>)
    returns (back: seq<byte>, ghost ch': seq<int>)
    requires fat.Valid() && Opened(fat, file, ch) && file.pos == file.size
    requires ch == [] || Quot(file.pos, fat.g.ClusterBytes()) < |ch|
    requires SpaceForEach(|FreeClusters(fat.vol.table)|, |ch|, file.size, pieces, fat.g.ClusterBytes())
    modifies fat, fat.buffer, file
    ensures fat.Valid() && Opened(fat, file, ch')
    ensures back == Content(old(fat.vol), fat.g.ClusterBytes(), ch, old(file.size)) + Joined(pieces)
    decreases |pieces|
  {
    hide Fat.Valid, Quot, Rem, Fits, Chain, Covers, Content, FreeBelow, Appended, CanAppend, CursorStuck, Takes,
         SpaceForEach, CursorAt, Reserve, FillsChain, LengthWith;
    ghost var cb, v0, size0, s0 := fat.g.ClusterBytes(), fat.vol, file.size, file.sblk;
    if pieces == [] {
      ch' := ch;
      SeekStart(cb, file.sblk, file.cblk, ch);
      var err := FatfsSeek(fat, file, 0, 0, ch);
      SeekStart(cb, file.sblk, file.cblk, ch);
      back := FatfsRead(fat, file, file.size, ch);
      assert Content(v0, cb, ch, size0)[0..size0] == Content(v0, cb, ch, size0);
    } else {
      ghost var free := |FreeClusters(v0.table)|;
      SpaceForFirst(free, |ch|, size0, pieces, cb);
      EnoughSpace(free, |ch|, size0, |pieces[0]|, cb);
      var total;
      ghost var ch1, taken;
      total, ch1, taken := FatfsWrite(fat, file, pieces[0], ch);
      AfterWrite(cb, v0, fat.vol, s0, file.sblk, ch, ch1, taken, size0, pieces[0]);
      back, ch' := AppendThenReadBack(fat, file, pieces[1..], ch1);
    }
  }

  lemma SpaceForFirst(free: nat, len: nat, size: nat, pieces: seq<seq<byte>>, cb: nat)
    requires 0 < cb && pieces != [] && SpaceForEach(free, len, size, pieces, cb)
    ensures var n, k := |pieces[0]|, Takes(free, len, size, |pieces[0]|, cb);
      && Ceil(n, cb) + 1 <= free
      && SpaceForEach(free - k, LengthWith(len, size, k, cb), size + n, pieces[1..], cb)
  {
  }

  lemma SeekStart(cb: nat, s: int, cblk: int, ch: seq<int>)
    requires 0 < cb
    ensures Quot(0, cb) == 0
    ensures cblk == (if ch == [] then s else ch[0]) ==> CursorAt(ch, cblk, 0, cb)
  {
  }

  lemma AfterWrite(cb: nat, v: Vol, v': Vol, s: int, s': int, ch: seq<int>, ch': seq<int>, taken: seq<int>, size: nat,
                   x: seq<byte>)
    requires 0 < cb && Chain(v.table, s, ch) && Appended(cb, v, v', s', ch, ch', taken, size, x)
    requires CanAppend(|FreeClusters(v.table)|, |ch|, size, |x|, cb)
    ensures var k := Takes(|FreeClusters(v.table)|, |ch|, size, |x|, cb);
      && |FreeClusters(v'.table)| == |FreeClusters(v.table)| - k
      && |ch'| == LengthWith(|ch|, size, k, cb)
    ensures x == [] ==> ch' == ch
    ensures Covers(v, cb, ch, size) && Covers(v', cb, ch', size + |x|)
    ensures Content(v', cb, ch', size + |x|) == Content(v, cb, ch, size) + x
  {
    hide Quot, Rem, Fits, Chain, Covers, Content, FreeBelow, OnlyTouches, Wanted;
    FreeAfterAppend(cb, v, v', s, s', ch, ch', taken, size, x);
    if x != [] { CoversFew(v, cb, ch, size, |x|); }
  }
}
