/** The allocation table of a FAT16 volume as a value: which clusters are free,
    which sequences of clusters are chains, and what freeing, allocating and
    linking do to the table. The methods of FatVolume are proved against these
    functions. */
module FatTable {

  const FREE: int := 0
  const EOC: int := 0xFFF8

  // A table holds one 16-bit entry per cluster number.
  type Table = t: seq<int> | forall k :: 0 <= k < |t| ==> 0 <= t[k] < 0x1_0000

  predicate IsCluster(c: int) {
    2 <= c < EOC
  }

  predicate InTable(t: Table, c: int) {
    IsCluster(c) && c < |t|
  }

  // What looking up and storing an entry mean for any number, valid or not.
  function Next(t: Table, c: int): int {
    if InTable(t, c) then t[c] else EOC
  }

  function SetNext(t: Table, c: int, v: int): (r: Table)
    requires 0 <= v < 0x1_0000
  {
    if InTable(t, c) then t[c := v] else t
  }

  // ------------------------------------------------------------ chains

  ghost predicate AllInTable(t: Table, cs: seq<int>) {
    forall i {:trigger cs[i]} :: 0 <= i < |cs| ==> InTable(t, cs[i])
  }

  // `ch` is the list of clusters met from `start` on. It ends at the first entry
  // that is no cluster number and not free: hosts end chains with values up to
  // 0xFFFF, this kernel with EOC. A file without clusters has an invalid start
  // and the empty chain.
  ghost predicate Chain(t: Table, start: int, ch: seq<int>) {
    if ch == [] then !IsCluster(start)
    else
      && ch[0] == start
      && AllInTable(t, ch)
      && (forall i {:trigger t[ch[i]]} :: 0 <= i < |ch| - 1 ==> t[ch[i]] == ch[i + 1])
      && !IsCluster(t[ch[|ch| - 1]]) && t[ch[|ch| - 1]] != FREE
  }

  // The mark behind the last cluster is the one this kernel writes, the only one
  // it takes for the end when it appends.
  ghost predicate EndsInEoc(t: Table, ch: seq<int>) {
    ch != [] && Next(t, ch[|ch| - 1]) == EOC
  }

  ghost predicate Distinct(s: seq<int>) {
    forall i, j :: 0 <= i < j < |s| ==> s[i] != s[j]
  }

  ghost predicate Disjoint(a: seq<int>, b: seq<int>) {
    forall x :: x in a ==> x !in b
  }

  lemma OnlyLastIsEnd(t: Table, start: int, ch: seq<int>, i: nat)
    requires Chain(t, start, ch) && i < |ch|
    ensures !IsCluster(t[ch[i]]) <==> i == |ch| - 1
  {
    if i < |ch| - 1 { assert InTable(t, ch[i + 1]); }
  }

  lemma {:induction false} TwinSuffixes(t: Table, start: int, ch: seq<int>, i: nat, j: nat)
    requires Chain(t, start, ch)
    requires i < j < |ch| && ch[i] == ch[j]
    ensures false
    decreases |ch| - j
  {
    OnlyLastIsEnd(t, start, ch, i);
    if j < |ch| - 1 {
      TwinSuffixes(t, start, ch, i + 1, j + 1);
    } else {
      OnlyLastIsEnd(t, start, ch, j);
    }
  }

  // A chain that ends can have no cycle.
  lemma {:induction false} ChainIsAcyclic(t: Table, start: int, ch: seq<int>)
    requires Chain(t, start, ch)
    ensures Distinct(ch)
  {
    forall i, j | 0 <= i < j < |ch| ensures ch[i] != ch[j] {
      if ch[i] == ch[j] { TwinSuffixes(t, start, ch, i, j); }
    }
  }

  // Two chains that share a cluster have the same tail: so they are one file.
  lemma {:induction false} SameStartSameChain(t: Table, s: int, a: seq<int>, b: seq<int>)
    requires Chain(t, s, a) && Chain(t, s, b)
    ensures a == b
  {
    var n := if |a| < |b| then |a| else |b|;
    var k := 0;
    while k < n
      invariant 0 <= k <= n
      invariant forall i :: 0 <= i < k ==> a[i] == b[i]
    {
      if k > 0 { assert t[a[k - 1]] == a[k] && t[b[k - 1]] == b[k]; }
      k := k + 1;
    }
    if 0 < n {
      OnlyLastIsEnd(t, s, a, n - 1);
      OnlyLastIsEnd(t, s, b, n - 1);
    }
  }

  // A chain depends on the entries of its own clusters only.
  lemma ChainFrame(t: Table, t': Table, start: int, ch: seq<int>)
    requires Chain(t, start, ch) && |t| == |t'|
    requires forall c :: c in ch ==> t'[c] == t[c]
    ensures Chain(t', start, ch)
  {
    forall i | 0 <= i < |ch| ensures InTable(t', ch[i]) && t'[ch[i]] == t[ch[i]] {
      assert InTable(t, ch[i]) && ch[i] in ch;
    }
  }

  lemma ChainHasNoFree(t: Table, start: int, ch: seq<int>)
    requires Chain(t, start, ch)
    ensures forall c :: c in ch ==> InTable(t, c) && t[c] != FREE
  {
    forall c | c in ch ensures InTable(t, c) && t[c] != FREE {
      var i :| 0 <= i < |ch| && ch[i] == c;
      if i < |ch| - 1 { assert IsCluster(ch[i + 1]); }
    }
  }

  // ------------------------------------------------------------ freeing a chain

  ghost function InUse(t: Table): (s: set<int>) {
    set k | 0 <= k < |t| && t[k] != FREE
  }

  lemma FreeingShrinks(t: Table, c: int)
    requires 0 <= c < |t| && t[c] != FREE
    ensures InUse(t[c := FREE]) < InUse(t)
  {
    assert c in InUse(t) && c !in InUse(t[c := FREE]);
  }

  // What walking from `start` and clearing every entry on the way leaves. The
  // walk ends on every table, a cyclic one too: each step frees an entry.
  ghost function FreeFrom(t: Table, start: int): (r: Table)
    ensures |r| == |t|
    ensures forall k :: 0 <= k < |t| ==> r[k] == t[k] || r[k] == FREE
    decreases InUse(t)
  {
    if InTable(t, start) && t[start] != FREE then
      FreeingShrinks(t, start);
      FreeFrom(t[start := FREE], t[start])
    else t
  }

  ghost function Cleared(t: Table, cs: seq<int>): (r: Table) {
    seq(|t|, k requires 0 <= k < |t| => if k in cs then FREE else t[k])
  }

  // On a chain that starts in the table and stops at any entry that is no
  // cluster number, exactly the clusters of the chain are freed.
  lemma {:induction false} FreeFromClears(t: Table, start: int, cs: seq<int>)
    requires Distinct(cs)
    requires cs == [] ==> !IsCluster(start)
    requires cs != [] ==> cs[0] == start
    requires AllInTable(t, cs)
    requires forall i {:trigger t[cs[i]]} :: 0 <= i < |cs| - 1 ==> t[cs[i]] == cs[i + 1]
    requires cs != [] ==> !IsCluster(t[cs[|cs| - 1]])
    ensures FreeFrom(t, start) == Cleared(t, cs)
    decreases |cs|
  {
    assert |cs| > 1 ==> InTable(t, cs[1]);
    if cs == [] {
      assert Cleared(t, cs) == t;
    } else if t[start] == FREE {
      assert Cleared(t, cs) == t;
    } else {
      var t1, rest := t[start := FREE], cs[1..];
      FreeingShrinks(t, start);
      assert AllInTable(t1, rest) by {
        assert forall i :: 0 <= i < |rest| ==> rest[i] == cs[i + 1];
      }
      assert forall i :: 0 <= i < |rest| ==> rest[i] == cs[i + 1] != start;
      FreeFromClears(t1, t[start], rest);
      ClearedHeadFirst(t, cs);
    }
  }

  lemma ClearedHeadFirst(t: Table, cs: seq<int>)
    requires cs != [] && InTable(t, cs[0])
    ensures Cleared(t[cs[0] := FREE], cs[1..]) == Cleared(t, cs)
  {
    assert cs == [cs[0]] + cs[1..];
  }

  lemma {:induction false} FreeingAChain(t: Table, start: int, ch: seq<int>)
    requires Chain(t, start, ch)
    ensures FreeFrom(t, start) == Cleared(t, ch)
  {
    ChainIsAcyclic(t, start, ch);
    FreeFromClears(t, start, ch);
  }

  // The clusters that this walk clears, in order.
  ghost function Walked(t: Table, start: int): (cs: seq<int>)
    decreases InUse(t)
  {
    if InTable(t, start) && t[start] != FREE then
      FreeingShrinks(t, start);
      [start] + Walked(t[start := FREE], t[start])
    else []
  }

  lemma {:induction false} WalkClears(t: Table, start: int)
    ensures FreeFrom(t, start) == Cleared(t, Walked(t, start))
    ensures forall c :: c in Walked(t, start) ==> InTable(t, c) && t[c] != FREE
    decreases InUse(t)
  {
    if InTable(t, start) && t[start] != FREE {
      FreeingShrinks(t, start);
      var t1 := t[start := FREE];
      WalkClears(t1, t[start]);
      var cs := Walked(t, start);
      assert cs[1..] == Walked(t1, t[start]);
      ClearedHeadFirst(t, cs);
    } else {
      assert Cleared(t, []) == t;
    }
  }

  // From the middle of a chain on its elements are a chain.
  lemma ChainFrom(t: Table, start: int, ch: seq<int>, i: nat)
    requires Chain(t, start, ch) && i < |ch|
    ensures Chain(t, ch[i], ch[i..])
  {
    var r := ch[i..];
    assert forall k :: 0 <= k < |r| ==> r[k] == ch[i + k];
  }

  lemma {:induction false} WalkOfChain(t: Table, start: int, ch: seq<int>)
    requires Chain(t, start, ch)
    ensures Walked(t, start) == ch
    decreases |ch|
  {
    if ch != [] {
      ChainHasNoFree(t, start, ch);
      ChainIsAcyclic(t, start, ch);
      var t1, rest := t[start := FREE], ch[1..];
      FreeingShrinks(t, start);
      if rest != [] {
        ChainFrom(t, start, ch, 1);
        assert t[ch[0]] == ch[1];
        ChainFrame(t, t1, ch[1], rest);
      }
      WalkOfChain(t1, t[start], rest);
      assert ch == [start] + rest;
    }
  }

  // A walk that begins inside a chain clears the chain from there on.
  lemma WalkInChain(t: Table, start: int, ch: seq<int>, i: nat)
    requires Chain(t, start, ch) && i < |ch|
    ensures Walked(t, ch[i]) == ch[i..]
  {
    ChainFrom(t, start, ch, i);
    WalkOfChain(t, ch[i], ch[i..]);
  }

  // ------------------------------------------------------------ free clusters

  // The free clusters below `hi`, in ascending order.
  ghost function FreeBelow(t: Table, hi: int): (r: seq<int>)
    requires hi <= |t|
    ensures forall i :: 0 <= i < |r| ==> InTable(t, r[i]) && r[i] < hi && t[r[i]] == FREE
    ensures forall i, j :: 0 <= i < j < |r| ==> r[i] < r[j]
    ensures forall k :: InTable(t, k) && k < hi && t[k] == FREE ==> k in r
    decreases if hi < 0 then 0 else hi
  {
    if hi <= 2 then []
    else if Next(t, hi - 1) == FREE then FreeBelow(t, hi - 1) + [hi - 1]
    else FreeBelow(t, hi - 1)
  }

  ghost function FreeClusters(t: Table): (r: seq<int>) {
    FreeBelow(t, |t|)
  }

  lemma NoneFree(t: Table)
    ensures FreeClusters(t) == [] <==> forall c :: InTable(t, c) ==> t[c] != FREE
  {
    var free := FreeClusters(t);
    if free != [] { assert InTable(t, free[0]) && t[free[0]] == FREE; }
  }

  lemma {:induction false} FreeBelowPrefix(t: Table, hi: int, hi': int)
    requires hi <= hi' <= |t|
    ensures FreeBelow(t, hi) <= FreeBelow(t, hi')
    decreases hi' - hi
  {
    if hi < hi' {
      FreeBelowPrefix(t, hi, hi' - 1);
      assert FreeBelow(t, hi' - 1) <= FreeBelow(t, hi');
    }
  }

  // In numbers: clusters 2 and 3 are a file that this kernel ended, 4 is one that a
  // host ended, and 5 is free.
  lemma TableExample(t: Table)
    requires t == [0xFFF8, 0xFFFF, 3, 0xFFF8, 0xFFFF, 0]
    ensures Chain(t, 2, [2, 3]) && EndsInEoc(t, [2, 3]) && Chain(t, 4, [4]) && !EndsInEoc(t, [4])
    ensures FreeClusters(t) == [5]
    ensures FreeFrom(t, 2) == [0xFFF8, 0xFFFF, 0, 0, 0xFFFF, 0]
    ensures forall c :: IsCluster(c) <==> 2 <= c <= 0xFFF7
  {
    assert FreeBelow(t, 2) == [] && FreeBelow(t, 3) == [] && FreeBelow(t, 4) == [] && FreeBelow(t, 5) == [];
    FreeingAChain(t, 2, [2, 3]);
    assert 2 in [2, 3] && 3 in [2, 3];
  }

  // ------------------------------------------------------------ linking

  // `t` with the clusters `cs` linked in order, the last one holding `last`.
  ghost function Linked(t: Table, cs: seq<int>, last: int): (r: Table)
    requires Distinct(cs) && AllInTable(t, cs)
    requires 0 <= last < 0x1_0000
    ensures |r| == |t|
    ensures forall k :: 0 <= k < |t| && k !in cs ==> r[k] == t[k]
    ensures forall i {:trigger r[cs[i]]} :: 0 <= i < |cs| - 1 ==> r[cs[i]] == cs[i + 1]
    ensures cs != [] ==> r[cs[|cs| - 1]] == last
    decreases |cs|
  {
    if cs == [] then t
    else
      var n := |cs| - 1;
      if n == 0 then t[cs[0] := last]
      else
        Linked(t, cs[..n], cs[n])[cs[n] := last]
  }

  lemma LinkedIsChain(t: Table, cs: seq<int>)
    requires Distinct(cs) && cs != [] && AllInTable(t, cs)
    ensures Chain(Linked(t, cs, EOC), cs[0], cs)
  {
  }

  // Two tables of one length with the same links and the same other entries.
  lemma LinkedUnique(t: Table, cs: seq<int>, last: int, r: Table)
    requires Distinct(cs) && AllInTable(t, cs)
    requires 0 <= last < 0x1_0000
    requires |r| == |t|
    requires forall k :: 0 <= k < |t| && k !in cs ==> r[k] == t[k]
    requires forall i {:trigger r[cs[i]]} :: 0 <= i < |cs| - 1 ==> r[cs[i]] == cs[i + 1]
    requires cs != [] ==> r[cs[|cs| - 1]] == last
    ensures r == Linked(t, cs, last)
  {
    var l := Linked(t, cs, last);
    forall k | 0 <= k < |t| ensures r[k] == l[k] {
      if k in cs {
        var i :| 0 <= i < |cs| && cs[i] == k;
        if i < |cs| - 1 { assert r[cs[i]] == cs[i + 1] == l[cs[i]]; }
      }
    }
  }

  // Freeing the start of freshly linked clusters undoes the linking.
  lemma {:induction false} FreeingUndoesLinking(t: Table, cs: seq<int>, last: int)
    requires Distinct(cs) && cs != [] && (last == EOC || last == FREE)
    requires forall i :: 0 <= i < |cs| ==> InTable(t, cs[i]) && t[cs[i]] == FREE
    ensures FreeFrom(Linked(t, cs, last), cs[0]) == t
  {
    var l := Linked(t, cs, last);
    FreeFromClears(l, cs[0], cs);
    forall k | 0 <= k < |t| ensures Cleared(l, cs)[k] == t[k] {
      if k in cs { var i :| 0 <= i < |cs| && cs[i] == k; }
    }
  }

  // ------------------------------------------------------------ growing a chain

  // Linking a added chain at element i of a chain keeps the elements up to i
  // and drops the ones after it.
  lemma {:induction false} ChainSpliced(t: Table, start: int, ch: seq<int>, i: nat, added: seq<int>)
    requires Chain(t, start, ch) && i < |ch|
    requires added != [] && Chain(t, added[0], added) && Disjoint(ch, added)
    ensures Chain(SetNext(t, ch[i], added[0]), start, ch[..i + 1] + added)
  {
    ChainIsAcyclic(t, start, ch);
    var t' := SetNext(t, ch[i], added[0]);
    var r := ch[..i + 1] + added;
    assert AllInTable(t', r) by {
      forall k | 0 <= k < |r| ensures InTable(t', r[k]) {
        if k <= i { assert r[k] == ch[k]; } else { assert r[k] == added[k - i - 1]; }
      }
    }
    forall k | 0 <= k < |r| - 1 ensures t'[r[k]] == r[k + 1] {
      if k < i {
        assert r[k] == ch[k] != ch[i] && r[k + 1] == ch[k + 1];
      } else if k == i {
        assert r[k] == ch[i] && r[k + 1] == added[0];
      } else {
        var m := k - i - 1;
        assert r[k] == added[m] != ch[i] by { assert ch[i] in ch && added[m] in added; }
        assert r[k + 1] == added[m + 1];
      }
    }
    assert r[|r| - 1] == added[|added| - 1] != ch[i] by { assert ch[i] in ch; }
  }
}
