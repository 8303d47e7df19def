/** Where the cursor of an open file stands in the file's chain, how many
    clusters growing a file asks for, and what growing leaves untouched. */
module FatCursor {
  import opened Bytes
  import opened FatTable
  import opened FatLayout
  import opened FatVolume
  import opened FatAlloc
  import opened Klib

  // Element i of a chain, or the end mark behind its last element.
  ghost function ElemOrEnd(ch: seq<int>, i: nat): int {
    if i < |ch| then ch[i] else EOC
  }

  // A cursor on element i, or behind the last one, where it holds whatever mark
  // ends the chain.
  ghost predicate Stands(ch: seq<int>, i: nat, cblk: int) {
    i <= |ch| && if i < |ch| then cblk == ch[i] else !IsCluster(cblk)
  }

  // `cblk` is the cluster that holds byte `pos`; it is not used while the file
  // has no cluster.
  ghost predicate CursorAt(ch: seq<int>, cblk: int, pos: nat, cb: nat) {
    0 < cb && (ch != [] ==> Stands(ch, Quot(pos, cb), cblk))
  }

  // The number of clusters that growing by inc bytes asks for.
  function Wanted(size: nat, inc: nat, cb: nat): nat
    requires 0 < cb
  {
    if Rem(size, cb) == 0 then Ceil(inc, cb)
    else
      var cfree := cb - Rem(size, cb);
      if cfree > inc then 0
      else if Ceil(inc - cfree, cb) == 0 then 1 else Ceil(inc - cfree, cb)
  }

  // The clusters the chain keeps up to the cursor and the wanted ones behind it
  // hold every byte, and one less would not do when the file fills its cluster.
  lemma WantedCovers(size: nat, inc: nat, cb: nat)
    requires 0 < cb
    ensures Rem(size, cb) == 0 ==> size + inc <= (Quot(size, cb) + Wanted(size, inc, cb)) * cb
    ensures size + inc <= (Quot(size, cb) + 1 + Wanted(size, inc, cb)) * cb
    ensures Wanted(size, inc, cb) <= Ceil(inc, cb)
    ensures 0 < inc && Rem(size, cb) == 0 ==> 0 < Wanted(size, inc, cb)
  {
    hide Quot, Rem, Fits;
    var q, r, w := Quot(size, cb), Rem(size, cb), Wanted(size, inc, cb);
    DivMod(size, cb);
    Times(q, w, cb);
    Times(q + w, 1, cb);
    CeilBounds(inc, cb);
    if r != 0 && cb - r <= inc {
      CeilBounds(inc - (cb - r), cb);
      CeilMonotone(inc - (cb - r), inc, cb);
      CeilMonotone(1, inc, cb);
      CeilUnique(1, cb, 1);
    }
  }

  // It is the least number that will do. A file that ends where a cluster ends needs
  // clusters for all the bytes; one that ends inside a cluster needs none while the
  // bytes leave room behind them there, and else at least one and room for the rest.
  lemma WantedIsLeast(size: nat, inc: nat, cb: nat, k: nat)
    requires 0 < cb
    ensures Rem(size, cb) == 0 ==> (Wanted(size, inc, cb) <= k <==> size + inc <= (Quot(size, cb) + k) * cb)
    ensures Rem(size, cb) != 0 ==>
      (Wanted(size, inc, cb) <= k <==>
         size + inc < (Quot(size, cb) + 1) * cb || (0 < k && size + inc <= (Quot(size, cb) + 1 + k) * cb))
  {
    hide Quot, Rem, Fits;
    var q, r := Quot(size, cb), Rem(size, cb);
    DivMod(size, cb);
    Times(q, 1, cb);
    Times(q, k, cb);
    Times(q + 1, k, cb);
    if r == 0 {
      CeilAtMost(inc, cb, k);
    } else if cb - r <= inc {
      CeilAtMost(inc - (cb - r), cb, k);
    }
  }

  lemma CeilAtMost(n: nat, cb: nat, k: nat)
    requires 0 < cb
    ensures Ceil(n, cb) <= k <==> n <= k * cb
  {
    hide Quot, Rem;
    var c := Ceil(n, cb);
    CeilBounds(n, cb);
    if c <= k {
      TimesMonotone(c, k, cb);
    } else {
      TimesMonotone(k + 1, c, cb);
      Times(k, 1, cb);
    }
  }

  lemma CeilMonotone(a: nat, b: nat, cb: nat)
    requires 0 < cb && a <= b
    ensures Ceil(a, cb) <= Ceil(b, cb)
  {
    hide Quot, Rem, Fits;
    CeilBounds(a, cb);
    CeilBounds(b, cb);
    if Ceil(b, cb) < Ceil(a, cb) {
      TimesMonotone(Ceil(b, cb) + 1, Ceil(a, cb), cb);
      Times(Ceil(b, cb), 1, cb);
    }
  }

  lemma OneForAFullCluster(size: nat, cb: nat)
    requires 0 < cb && Rem(size, cb) == 0
    ensures Wanted(size, cb, cb) == 1
  {
    CeilUnique(cb, cb, 1);
  }

  // ------------------------------------------------------------ what stays

  // From v to v' only the clusters of `mine` and the free clusters `taken`
  // were written.
  ghost predicate OnlyTouches(cb: nat, v: Vol, v': Vol, mine: seq<int>, taken: seq<int>) {
    && |v'.table| == |v.table| && |v'.data| == |v.data| && v'.root == v.root
    && (forall c {:trigger v'.table[c]} :: 0 <= c < |v.table| && c !in mine && c !in taken ==>
          v'.table[c] == v.table[c])
    && (forall c :: c in taken ==> InTable(v.table, c) && v.table[c] == FREE)
    && (forall c {:trigger Cluster(v'.data, cb, c)} :: Fits(|v.data|, cb, c) && c !in mine && c !in taken
          ==> Cluster(v'.data, cb, c) == Cluster(v.data, cb, c))
  }

  // Every other file keeps its chain and its bytes, and shares no cluster with
  // what the written file has become.
  lemma OthersKept(cb: nat, v: Vol, v': Vol, mine: seq<int>, taken: seq<int>, mine': seq<int>,
                   s: int, other: seq<int>, size: nat)
    requires OnlyTouches(cb, v, v', mine, taken)
    requires forall c :: c in mine' ==> c in mine || c in taken
    requires Chain(v.table, s, other) && Disjoint(mine, other) && Covers(v, cb, other, size)
    ensures Chain(v'.table, s, other) && Disjoint(mine', other) && Covers(v', cb, other, size)
    ensures Content(v', cb, other, size) == Content(v, cb, other, size)
  {
    ChainHasNoFree(v.table, s, other);
    assert forall c :: c in other ==> c !in mine && c !in taken;
    ChainFrame(v.table, v'.table, s, other);
    FlatFrame(v.data, v'.data, cb, other);
  }

  // Two writes in a row, the second within the file as the first left it.
  lemma TouchesTwice(cb: nat, v: Vol, m: Vol, v': Vol, mine: seq<int>, a: seq<int>, mine2: seq<int>, b: seq<int>)
    requires OnlyTouches(cb, v, m, mine, a) && OnlyTouches(cb, m, v', mine2, b)
    requires forall c :: c in mine2 ==> c in mine || c in a
    requires forall c :: c in mine ==> 0 <= c < |m.table| && m.table[c] != FREE
    ensures OnlyTouches(cb, v, v', mine, a + b)
  {
    forall c | c in a + b ensures InTable(v.table, c) && v.table[c] == FREE {
      if c !in a { assert m.table[c] == FREE; }
    }
    forall c | 0 <= c < |v.table| && c !in mine && c !in a + b ensures v'.table[c] == v.table[c] {
      assert c !in a && c !in b && c !in mine2;
      assert m.table[c] == v.table[c];
    }
    forall c | Fits(|v.data|, cb, c) && c !in mine && c !in a + b
      ensures Cluster(v'.data, cb, c) == Cluster(v.data, cb, c)
    {
      assert c !in a && c !in b && c !in mine2;
      assert Cluster(m.data, cb, c) == Cluster(v.data, cb, c);
    }
  }

  // ------------------------------------------------------------ growing the chain

  // The chain after `added` was linked behind the cursor's cluster.
  ghost function Grown(ch: seq<int>, i: nat, added: seq<int>): seq<int> {
    if ch == [] || added == [] then ch + added
    else if i < |ch| then ch[..i + 1] + added
    else ch
  }

  // The table after `added` was allocated and linked at `at`.
  ghost function GrownTable(t: Table, k: nat, linked: bool, at: int): (r: Table)
    requires k <= |FreeClusters(t)|
    ensures |r| == |t|
  {
    if k == 0 then t
    else if linked then SetNext(AllocTable(t, k), at, AllocStart(t, k))
    else AllocTable(t, k)
  }

  lemma AllocIsChain(t: Table, k: nat)
    requires 1 <= k <= |FreeClusters(t)|
    ensures var added := FreeClusters(t)[..k];
      && Chain(AllocTable(t, k), AllocStart(t, k), added)
      && (forall c :: 0 <= c < |t| && c !in added ==> AllocTable(t, k)[c] == t[c])
  {
    LinkedIsChain(t, FreeClusters(t)[..k]);
  }

  // Freeing what was just allocated gives back the table as it was.
  lemma FreeUndoesAlloc(t: Table, k: nat)
    requires 1 <= k <= |FreeClusters(t)|
    ensures FreeFrom(AllocTable(t, k), AllocStart(t, k)) == t
  {
    FreeingUndoesLinking(t, FreeClusters(t)[..k], EOC);
  }

  // Growing at the cursor gives the file the new chain, even where it cuts off
  // clusters behind the cursor; nothing else is written and nothing is freed.
  lemma {:induction false} GrownIsChain(t: Table, s: int, ch: seq<int>, i: nat, added: seq<int>, t': Table)
    requires Chain(t, s, ch) && (ch != [] ==> i < |ch|)
    requires 1 <= |added| <= |FreeClusters(t)| && added == FreeClusters(t)[..|added|]
    requires t' == GrownTable(t, |added|, ch != [], ElemOrEnd(ch, i))
    ensures Chain(t', if ch == [] then added[0] else s, Grown(ch, i, added))
    ensures forall c {:trigger t'[c]} :: 0 <= c < |t| && c !in ch && c !in added ==> t'[c] == t[c]
    ensures forall c :: c in ch || c in added ==> 0 <= c < |t| && t'[c] != FREE
  {
    AllocIsChain(t, |added|);
    ChainHasNoFree(t, s, ch);
    var a := AllocTable(t, |added|);
    ChainHasNoFree(a, added[0], added);
    if ch != [] {
      assert forall c :: c in ch ==> c !in added;
      ChainFrame(t, a, s, ch);
      ChainSpliced(a, s, ch, i, added);
      ChainHasNoFree(a, s, ch);
    }
  }

  lemma AllocEnds(t: Table, k: nat)
    requires 1 <= k <= |FreeClusters(t)|
    ensures EndsInEoc(AllocTable(t, k), FreeClusters(t)[..k]) && AllocStart(t, k) == FreeClusters(t)[..k][0]
    ensures AllInTable(t, FreeClusters(t)[..k])
    ensures forall c :: c in FreeClusters(t)[..k] ==> InTable(t, c) && t[c] == FREE
  {
  }

  lemma GrownEnds(t: Table, s: int, ch: seq<int>, i: nat, added: seq<int>, t': Table)
    requires Chain(t, s, ch) && (ch != [] ==> i < |ch|)
    requires 1 <= |added| <= |FreeClusters(t)| && added == FreeClusters(t)[..|added|]
    requires t' == GrownTable(t, |added|, ch != [], ElemOrEnd(ch, i))
    ensures EndsInEoc(t', Grown(ch, i, added))
  {
    hide Chain, FreeBelow, AllocTable, AllocStart;
    AllocEnds(t, |added|);
    ChainHasNoFree(t, s, ch);
    var last := added[|added| - 1];
    assert last in added && (ch != [] ==> ch[i] in ch);
    assert Grown(ch, i, added)[|Grown(ch, i, added)| - 1] == last;
  }

  ghost predicate Ascending(a: seq<int>) {
    forall i, j :: 0 <= i < j < |a| ==> a[i] < a[j]
  }

  ghost predicate PartOf(a: seq<int>, b: seq<int>) {
    forall i {:trigger a[i]} :: 0 <= i < |a| ==> a[i] in b
  }

  // A sequence without repetition is no longer than one it is part of.
  lemma {:induction false} AscendingFits(a: seq<int>, b: seq<int>)
    requires Ascending(a) && PartOf(a, b)
    ensures |a| <= |b|
    decreases |a|
  {
    if a != [] {
      var x, m := a[|a| - 1], |a| - 1;
      var k :| 0 <= k < |b| && b[k] == x;
      var rest := b[..k] + b[k + 1..];
      forall i | 0 <= i < |a[..m]| ensures a[..m][i] in rest {
        assert a[i] in b && a[i] != x;
        var j :| 0 <= j < |b| && b[j] == a[i];
        if j < k { assert rest[j] == a[i]; } else { assert rest[j - 1] == a[i]; }
      }
      AscendingFits(a[..m], rest);
    }
  }

  // A sequence in ascending order is determined by its elements.
  lemma {:induction false} AscendingUnique(a: seq<int>, b: seq<int>)
    requires Ascending(a) && Ascending(b) && PartOf(a, b) && PartOf(b, a)
    ensures a == b
    decreases |a|
  {
    hide PartOf, Ascending;
    AscendingFits(a, b);
    AscendingFits(b, a);
    if a != [] {
      var n := |a| - 1;
      NoneAbove(a, b);
      NoneAbove(b, a);
      PrefixIn(a, b, n);
      PrefixIn(b, a, n);
      AscendingUnique(a[..n], b[..n]);
    }
  }

  lemma NoneAbove(a: seq<int>, b: seq<int>)
    requires a != [] && b != [] && Ascending(b) && PartOf(a, b)
    ensures a[|a| - 1] <= b[|b| - 1]
  {
    assert a[|a| - 1] in b;
  }

  lemma PrefixIn(a: seq<int>, b: seq<int>, n: nat)
    requires |a| == |b| == n + 1 && a[n] == b[n] && Ascending(a) && PartOf(a, b)
    ensures Ascending(a[..n]) && PartOf(a[..n], b[..n])
  {
    forall i | 0 <= i < n ensures a[..n][i] in b[..n] {
      assert a[i] in b && a[i] < a[n];
      var j :| 0 <= j < |b| && b[j] == a[i];
      assert b[..n][j] == a[i];
    }
  }

  // When the first k free clusters are taken and no other entry becomes or stops
  // being free, the rest of the list is free.
  lemma FreeTail(t: Table, t': Table, k: nat)
    requires k <= |FreeClusters(t)| && |t'| == |t|
    requires forall c :: 0 <= c < |t| && c in FreeClusters(t)[..k] ==> t'[c] != FREE
    requires forall c {:trigger t'[c]} :: 0 <= c < |t| && c !in FreeClusters(t)[..k] ==>
      (t'[c] == FREE <==> t[c] == FREE)
    ensures FreeClusters(t') == FreeClusters(t)[k..]
  {
    hide FreeBelow;
    var free, free' := FreeClusters(t), FreeClusters(t');
    assert free == free[..k] + free[k..];
    forall i | 0 <= i < |free'| ensures free'[i] in free[k..] {
      var x := free'[i];
      assert InTable(t', x) && t'[x] == FREE && x in free;
    }
    forall i | 0 <= i < |free[k..]| ensures free[k..][i] in free' {
      var x := free[k + i];
      assert InTable(t, x) && x !in free[..k];
    }
    AscendingUnique(free', free[k..]);
  }

  // Growing by k clusters takes the first k of the free ones and gives nothing
  // back, not even what it cuts off behind the cursor.
  lemma FreeAfterGrown(t: Table, s: int, ch: seq<int>, i: nat, added: seq<int>, t': Table)
    requires Chain(t, s, ch) && (ch != [] ==> i < |ch|)
    requires |added| <= |FreeClusters(t)| && added == FreeClusters(t)[..|added|]
    requires t' == GrownTable(t, |added|, ch != [], ElemOrEnd(ch, i))
    ensures FreeClusters(t') == FreeClusters(t)[|added|..]
  {
    if added == [] {
      assert FreeClusters(t)[0..] == FreeClusters(t);
    } else {
      GrownIsChain(t, s, ch, i, added, t');
      ChainHasNoFree(t, s, ch);
      hide GrownTable, Chain, FreeBelow;
      FreeTail(t, t', |added|);
    }
  }

  // The growing of a file for n more bytes: v with chain ch becomes v' with ch'.
  ghost predicate GrowsTo(g: Geometry, v: Vol, v': Vol, s: int, s': int, ch: seq<int>, ch': seq<int>,
                          size: nat, n: nat, added: seq<int>) {
    && WellFormed(g, v) && WellFormed(g, v') && Chain(v.table, s, ch)
    && Covers(v, g.ClusterBytes(), ch, size) && 0 < n
    && (if ch == [] then size == 0 else Quot(size, g.ClusterBytes()) < |ch|)
    && |added| == Wanted(size, n, g.ClusterBytes()) <= |FreeClusters(v.table)|
    && added == FreeClusters(v.table)[..|added|]
    && ch' == Grown(ch, Quot(size, g.ClusterBytes()), added)
    && v' == v.(table := GrownTable(v.table, |added|, ch != [], ElemOrEnd(ch, Quot(size, g.ClusterBytes()))))
    && s' == if ch == [] then AllocStart(v.table, |added|) else s
  }

  lemma GrownTables(g: Geometry, v: Vol, v': Vol, s: int, s': int, ch: seq<int>, ch': seq<int>,
                    size: nat, n: nat, added: seq<int>)
    requires GrowsTo(g, v, v', s, s', ch, ch', size, n, added)
    ensures Chain(v'.table, s', ch')
    ensures OnlyTouches(g.ClusterBytes(), v, v', ch, added)
    ensures forall c :: c in ch || c in added ==> 0 <= c < |v'.table| && v'.table[c] != FREE
    ensures if added == [] then v' == v else EndsInEoc(v'.table, ch')
  {
    hide Quot, Rem, Fits, Covers, Wanted, Chain, DataFits, AllocTable, AllocStart, FreeBelow;
    var i := Quot(size, g.ClusterBytes());
    if added != [] {
      AllocStartsAt(v.table, |added|);
      GrownIsChain(v.table, s, ch, i, added, v'.table);
      GrownEnds(v.table, s, ch, i, added, v'.table);
    } else {
      ChainHasNoFree(v.table, s, ch);
      GrownHasRoom(size, n, g.ClusterBytes(), ch, added);
      assert ch' == ch && v' == v;
    }
  }

  lemma AllocStartsAt(t: Table, k: nat)
    requires 1 <= k <= |FreeClusters(t)|
    ensures AllocStart(t, k) == FreeClusters(t)[..k][0]
  {
  }

  // The same bytes, on a chain that has room for n more.
  lemma GrownContents(g: Geometry, v: Vol, v': Vol, s: int, s': int, ch: seq<int>, ch': seq<int>,
                      size: nat, n: nat, added: seq<int>)
    requires GrowsTo(g, v, v', s, s', ch, ch', size, n, added)
    ensures var cb := g.ClusterBytes();
      && Covers(v', cb, ch', size) && size + n <= |ch'| * cb
      && Content(v', cb, ch', size) == Content(v, cb, ch, size)
    ensures var i := Quot(size, g.ClusterBytes()); i < |ch'| && ch'[i] == (if ch == [] then s' else ch[i])
    ensures forall c :: c in ch' ==> c in ch || c in added
  {
    hide Quot, Rem, Fits, Wanted, GrownTable;
    var cb := g.ClusterBytes();
    GrownHasRoom(size, n, cb, ch, added);
    assert AllFit(v.data, cb, added) by {
      forall j | 0 <= j < |added| ensures Fits(|v.data|, cb, added[j]) { assert InTable(v.table, added[j]); }
    }
    GrownKeepsContent(v, cb, ch, size, added);
    GrownElements(ch, Quot(size, cb), added);
  }

  lemma GrownElements(ch: seq<int>, i: nat, added: seq<int>)
    ensures forall c :: c in Grown(ch, i, added) ==> c in ch || c in added
  {
  }

  // The chain grown for n more bytes has room for them.
  lemma GrownHasRoom(size: nat, n: nat, cb: nat, ch: seq<int>, added: seq<int>)
    requires 0 < cb && 0 < n && (if ch == [] then size == 0 else Quot(size, cb) < |ch|)
    requires |added| == Wanted(size, n, cb)
    ensures var ch' := Grown(ch, Quot(size, cb), added);
      size + n <= |ch'| * cb && Quot(size, cb) < |ch'| && (ch == [] ==> added != [] && Quot(size, cb) == 0)
    ensures ch != [] ==> Grown(ch, Quot(size, cb), added)[Quot(size, cb)] == ch[Quot(size, cb)]
  {
    hide Quot, Rem, Fits;
    WantedCovers(size, n, cb);
    DivMod(size, cb);
    DivModUnique(0, cb, 0, 0);
    if added == [] {
      TimesMonotone(Quot(size, cb) + 1, |ch|, cb);
    }
  }

  lemma GrownKeepsContent(v: Vol, cb: nat, ch: seq<int>, size: nat, added: seq<int>)
    requires Covers(v, cb, ch, size) && AllFit(v.data, cb, added)
      && (if ch == [] then size == 0 else Quot(size, cb) < |ch|)
    ensures Covers(v, cb, Grown(ch, Quot(size, cb), added), size)
    ensures Content(v, cb, Grown(ch, Quot(size, cb), added), size) == Content(v, cb, ch, size)
  {
    hide Quot, Rem, Fits;
    var i := Quot(size, cb);
    if ch == [] || added == [] {
      assert ch == [] ==> Grown(ch, i, added) == added;
      assert added == [] ==> Grown(ch, i, added) == ch;
      TimesMonotone(0, |added|, cb);
    } else {
      assert ch == ch[..i + 1] + ch[i + 1..];
      DivMod(size, cb);
      Times(i, 1, cb);
      ContentPrefix(v, cb, ch[..i + 1], ch[i + 1..], added, size);
    }
  }

  lemma ChainFits(g: Geometry, v: Vol, s: int, ch: seq<int>)
    requires WellFormed(g, v) && Chain(v.table, s, ch)
    ensures AllFit(v.data, g.ClusterBytes(), ch)
  {
    forall i | 0 <= i < |ch| ensures Fits(|v.data|, g.ClusterBytes(), ch[i]) {
      assert InTable(v.table, ch[i]);
    }
  }

  // A piece within the cursor's cluster fills the chain's last cluster exactly
  // when it ends where the chain ends.
  lemma FillsLast(pos: nat, k: nat, cb: nat, n: nat)
    requires 0 < cb && Quot(pos, cb) < n && Rem(pos, cb) + k <= cb
    ensures pos + k <= n * cb
    ensures Rem(pos, cb) + k == cb && Quot(pos, cb) + 1 == n <==> pos + k == n * cb
    ensures if pos + k == n * cb then Quot(pos + k, cb) == n else Quot(pos + k, cb) < n
  {
    hide Quot, Rem;
    DivMod(pos, cb);
    Times(Quot(pos, cb), 1, cb);
    TimesMonotone(Quot(pos, cb) + 1, n, cb);
    if Quot(pos, cb) + 1 < n { TimesMonotone(Quot(pos, cb) + 2, n, cb); Times(Quot(pos, cb) + 1, 1, cb); }
    QuotBelow(pos + k, cb, n);
    QuotBelow(pos + k, cb, n + 1);
    Times(n, 1, cb);
  }

  lemma PatchTouches(cb: nat, v: Vol, ch: seq<int>, c: int, off: nat, x: seq<byte>)
    requires c in ch && Fits(|v.data|, cb, c) && off + |x| <= cb
    ensures OnlyTouches(cb, v, v.(data := Patch(v.data, cb, c, off, x)), ch, [])
  {
    hide Fits, Cluster, Patch;
  }

  // A piece written at the end of a file, then a spare cluster perhaps linked.
  lemma PieceAppended(g: Geometry, v: Vol, m: Vol, v': Vol, s: int, ch: seq<int>, size: nat, x: seq<byte>,
                      spare: seq<int>)
    requires WellFormed(g, v) && WellFormed(g, v') && Chain(v.table, s, ch) && Covers(v, g.ClusterBytes(), ch, size)
    requires Quot(size, g.ClusterBytes()) < |ch| && Rem(size, g.ClusterBytes()) + |x| <= g.ClusterBytes()
    requires Fits(|v.data|, g.ClusterBytes(), ch[Quot(size, g.ClusterBytes())])
    requires m == v.(data := Patch(v.data, g.ClusterBytes(), ch[Quot(size, g.ClusterBytes())],
                                   Rem(size, g.ClusterBytes()), x))
    requires v'.data == m.data && Chain(v'.table, s, ch + spare)
    requires OnlyTouches(g.ClusterBytes(), m, v', ch, spare)
    ensures Covers(v', g.ClusterBytes(), ch + spare, size + |x|)
    ensures Content(v', g.ClusterBytes(), ch + spare, size + |x|) == Content(v, g.ClusterBytes(), ch, size) + x
    ensures OnlyTouches(g.ClusterBytes(), v, v', ch, spare)
  {
    hide Quot, Rem, Fits, Patch, Chain, Content, OnlyTouches, AllFit, Distinct;
    var cb, i := g.ClusterBytes(), Quot(size, g.ClusterBytes());
    ChainIsAcyclic(v.table, s, ch);
    ChainHasNoFree(v.table, s, ch);
    PatchTouches(cb, v, ch, ch[i], Rem(size, cb), x);
    TouchesTwice(cb, v, m, v', ch, [], ch, spare);
    assert [] + spare == spare;
    ContentAppended(v, cb, ch, size, x);
    ChainFits(g, v', s, ch + spare);
    FillsLast(size, |x|, cb, |ch|);
    ContentLonger(m, v', cb, ch, spare, size + |x|);
  }

  // Clusters linked behind the bytes of a file do not change its content.
  lemma ContentLonger(m: Vol, v': Vol, cb: nat, ch: seq<int>, spare: seq<int>, size: nat)
    requires Covers(m, cb, ch, size) && v'.data == m.data && AllFit(v'.data, cb, ch + spare)
    ensures Covers(v', cb, ch + spare, size) && Content(v', cb, ch + spare, size) == Content(m, cb, ch, size)
  {
    hide Fits;
    assert ch + [] == ch;
    assert AllFit(m.data, cb, spare) by {
      forall j | 0 <= j < |spare| ensures Fits(|m.data|, cb, spare[j]) { assert (ch + spare)[|ch| + j] == spare[j]; }
    }
    ContentPrefix(m, cb, ch, [], spare, size);
  }

  lemma GrownLength(ch: seq<int>, size: nat, n: nat, cb: nat)
    requires 0 < cb && 0 < n
    requires ch == [] ==> size == 0
    ensures ch == [] ==> 0 < Wanted(size, n, cb) && Quot(size, cb) == 0
    ensures ch != [] && Quot(size, cb) == |ch| && size <= |ch| * cb ==> 0 < Wanted(size, n, cb)
  {
    hide Quot, Rem;
    DivMod(size, cb);
    DivModUnique(0, cb, 0, 0);
    WantedCovers(size, n, cb);
  }

  // An append that asks for no cluster ends inside the cursor's cluster.
  lemma FewBytes(size: nat, n: nat, cb: nat, len: nat)
    requires 0 < cb && 0 < n && Wanted(size, n, cb) == 0 && size <= len * cb
    ensures size + n < len * cb
  {
    hide Quot, Rem;
    DivMod(size, cb);
    WantedCovers(size, n, cb);
    QuotBelow(size, cb, len);
    if Rem(size, cb) + n >= cb {
      CeilBounds(n, cb);
    } else {
      assert Rem(size, cb) != 0;
      if len <= Quot(size, cb) { TimesMonotone(len, Quot(size, cb), cb); }
      TimesMonotone(Quot(size, cb) + 1, len, cb);
      Times(Quot(size, cb), 1, cb);
    }
  }

  // Clusters allocated and then not linked are lost, and nothing else changes.
  lemma LostIsKept(g: Geometry, v: Vol, v': Vol, s: int, ch: seq<int>, size: nat, k: nat)
    requires WellFormed(g, v) && WellFormed(g, v') && Chain(v.table, s, ch) && Covers(v, g.ClusterBytes(), ch, size)
    requires v' == v.(table := AllocTable(v.table, k))
    ensures var lost := if k <= |FreeClusters(v.table)| then FreeClusters(v.table)[..k] else [];
      && Chain(v'.table, s, ch) && Covers(v', g.ClusterBytes(), ch, size)
      && Content(v', g.ClusterBytes(), ch, size) == Content(v, g.ClusterBytes(), ch, size)
      && OnlyTouches(g.ClusterBytes(), v, v', ch, lost)
      && (forall c :: c in ch || c in lost ==> 0 <= c < |v'.table| && v'.table[c] != FREE)
  {
    hide Fits, Chain, FreeBelow, DataFits, Linked;
    ChainHasNoFree(v.table, s, ch);
    if 1 <= k <= |FreeClusters(v.table)| {
      AllocIsChain(v.table, k);
      ChainFrame(v.table, v'.table, s, ch);
      ChainHasNoFree(v'.table, AllocStart(v.table, k), FreeClusters(v.table)[..k]);
    } else {
      assert v' == v;
    }
    hide AllocTable, AllocStart;
    FlatFrame(v.data, v'.data, g.ClusterBytes(), ch);
  }
}
