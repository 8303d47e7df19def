/** Freeing a chain and allocating the first free clusters, on the mounted
    volume. */
module FatAlloc {
  import opened Bytes
  import opened FatTable
  import opened FatLayout
  import opened FatVolume

  method ClusterFreeChain(fat: Fat, first: int)
    requires fat.Valid()
    modifies fat, fat.buffer
    ensures fat.Valid()
    ensures fat.vol == old(fat.vol).(table := FreeFrom(old(fat.vol).table, first))
  {
    var start := first;
    ghost var v0 := fat.vol;
    while IsCluster(start)
      invariant fat.Valid()
      invariant fat.vol == v0.(table := fat.vol.table)
      invariant FreeFrom(fat.vol.table, start) == FreeFrom(v0.table, first)
      decreases InUse(fat.vol.table), IsCluster(start)
    {
      ghost var t := fat.vol.table;
      var next := fat.ClusterGetNext(start);
      if InTable(t, start) && t[start] != FREE { FreeingShrinks(t, start); }
      var _ := fat.ClusterSetNext(start, FREE);
      start := next;
    }
  }

  // What allocating `cnt` clusters does to a table, and the cluster it returns.
  ghost function AllocStart(t: Table, cnt: int): int {
    if 1 <= cnt <= |FreeClusters(t)| then FreeClusters(t)[0] else EOC
  }

  ghost function AllocTable(t: Table, cnt: int): (r: Table)
    ensures |r| == |t|
  {
    if 1 <= cnt <= |FreeClusters(t)| then
      Linked(t, FreeClusters(t)[..cnt], EOC)
    else t
  }

  // The table halfway: `found` linked so far, the last one still marked free.
  ghost predicate Halfway(t0: Table, t: Table, found: seq<int>, start: int, pre: int)
    requires Distinct(found) && AllInTable(t0, found)
  {
    && t == Linked(t0, found, FREE)
    && (found == [] ==> start == EOC && pre == EOC)
    && (found != [] ==> start == found[0] && pre == found[|found| - 1])
  }

  lemma LinkOneMore(t0: Table, found: seq<int>, c: int)
    requires Distinct(found) && AllInTable(t0, found)
    requires InTable(t0, c) && c !in found && t0[c] == FREE
    ensures Distinct(found + [c]) && AllInTable(t0, found + [c])
    ensures Linked(t0, found, FREE)[c] == FREE
    ensures found != [] ==> Linked(t0, found, FREE)[found[|found| - 1] := c] == Linked(t0, found + [c], FREE)
    ensures found == [] ==> t0 == Linked(t0, found + [c], FREE)
  {
    var more := found + [c];
    assert AllInTable(t0, more) by {
      forall i | 0 <= i < |more| ensures InTable(t0, more[i]) {
        if i < |found| { assert more[i] == found[i]; }
      }
    }
    if found == [] {
      LinkedUnique(t0, more, FREE, t0);
    } else {
      var r := Linked(t0, found, FREE)[found[|found| - 1] := c];
      assert forall k :: 0 <= k < |found| ==> more[k] == found[k];
      assert forall k :: k in found ==> k in more;
      LinkedUnique(t0, more, FREE, r);
    }
  }

  lemma LinkEnd(t0: Table, found: seq<int>)
    requires Distinct(found) && AllInTable(t0, found) && found != []
    ensures Linked(t0, found, FREE)[found[|found| - 1] := EOC] == Linked(t0, found, EOC)
  {
    LinkedUnique(t0, found, EOC, Linked(t0, found, FREE)[found[|found| - 1] := EOC]);
  }

  // The search before cluster `curr`: the free ones below it are linked, and
  // `cnt` are still wanted.
  ghost predicate Searching(v0: Vol, v: Vol, curr: int, cnt: int, wanted: int, start: int, pre: int) {
    && v == v0.(table := v.table)
    && 2 <= curr <= |v0.table|
    && cnt == wanted - |FreeBelow(v0.table, curr)| && (wanted >= 0 ==> cnt >= 0)
    && Halfway(v0.table, v.table, FreeBelow(v0.table, curr), start, pre)
  }

  lemma SearchBegins(v: Vol, wanted: int)
    requires 2 <= |v.table|
    ensures Searching(v, v, 2, wanted, wanted, EOC, EOC)
  {
  }

  lemma SearchSkips(v0: Vol, v: Vol, curr: int, cnt: int, wanted: int, start: int, pre: int)
    requires Searching(v0, v, curr, cnt, wanted, start, pre) && curr < |v0.table| && cnt != 0
    requires Next(v.table, curr) != FREE
    ensures Searching(v0, v, curr + 1, cnt, wanted, start, pre)
  {
  }

  lemma HalfwayStep(t0: Table, t: Table, found: seq<int>, start: int, pre: int, c: int)
    requires Distinct(found) && AllInTable(t0, found) && Halfway(t0, t, found, start, pre)
    requires InTable(t0, c) && c !in found && t0[c] == FREE
    ensures IsCluster(start) <==> found != []
    ensures IsCluster(pre) <==> found != []
    ensures IsCluster(pre) ==> InTable(t, pre)
    ensures Distinct(found + [c]) && AllInTable(t0, found + [c])
    ensures Halfway(t0, SetNext(t, pre, c), found + [c], if found == [] then c else start, c)
  {
    LinkOneMore(t0, found, c);
    hide Linked;
    assert found != [] ==> InTable(t0, found[0]) && InTable(t0, found[|found| - 1]);
  }

  lemma FoundNext(v0: Vol, v: Vol, curr: int, cnt: int, wanted: int, start: int, pre: int)
    requires Searching(v0, v, curr, cnt, wanted, start, pre) && curr < |v0.table| && Next(v.table, curr) == FREE
    ensures var found := FreeBelow(v0.table, curr);
      && Distinct(found) && AllInTable(v0.table, found) && curr !in found && InTable(v0.table, curr)
      && v0.table[curr] == FREE && FreeBelow(v0.table, curr + 1) == found + [curr]
  {
  }

  lemma SearchFinds(v0: Vol, v: Vol, curr: int, cnt: int, wanted: int, start: int, pre: int)
    requires Searching(v0, v, curr, cnt, wanted, start, pre) && curr < |v0.table| && cnt != 0
    requires Next(v.table, curr) == FREE
    ensures IsCluster(start) <==> IsCluster(pre)
    ensures IsCluster(pre) ==> InTable(v.table, pre)
    ensures var start', v' := if IsCluster(start) then start else curr, v.(table := SetNext(v.table, pre, curr));
      Searching(v0, v', curr + 1, cnt - 1, wanted, start', curr)
  {
    hide FreeBelow, Distinct, AllInTable;
    var found := FreeBelow(v0.table, curr);
    FoundNext(v0, v, curr, cnt, wanted, start, pre);
    hide Halfway;
    HalfwayStep(v0.table, v.table, found, start, pre, curr);
  }

  // The body of the allocation loop.
  method SearchStep(fat: Fat, start0: int, pre0: int, cnt0: int, curr: int, ghost v0: Vol, ghost wanted: int)
    returns (start: int, pre: int, cnt: int)
    requires fat.Valid() && Searching(v0, fat.vol, curr, cnt0, wanted, start0, pre0)
    requires curr < |v0.table| && cnt0 != 0
    modifies fat, fat.buffer
    ensures fat.Valid() && Searching(v0, fat.vol, curr + 1, cnt, wanted, start, pre)
  {
    hide Fat.Valid, Searching;
    start, pre, cnt := start0, pre0, cnt0;
    var free := fat.ClusterGetNext(curr);
    if free == FREE {
      SearchFinds(v0, fat.vol, curr, cnt, wanted, start, pre);
      if !IsCluster(start) {
        start := curr;
      }
      if IsCluster(pre) {
        var err := fat.ClusterSetNext(pre, curr);
        assert err == 0;
      }
      pre := curr;
      cnt := cnt - 1;
    } else {
      SearchSkips(v0, fat.vol, curr, cnt, wanted, start, pre);
    }
  }

  // The search stops with enough clusters or at the end of the table.
  lemma AllocOutcome(t: Table, curr: int, wanted: int)
    requires curr <= |t|
    requires |FreeBelow(t, curr)| == wanted || curr == |t|
    requires wanted >= 0 ==> |FreeBelow(t, curr)| <= wanted
    ensures var found := FreeBelow(t, curr);
      if |found| == wanted && found != []
      then AllocStart(t, wanted) == found[0] && AllocTable(t, wanted) == Linked(t, found, EOC)
      else AllocStart(t, wanted) == EOC && AllocTable(t, wanted) == t
  {
    FreeBelowPrefix(t, curr, |t|);
    var found := FreeBelow(t, curr);
    assert found == FreeClusters(t)[..|found|];
  }

  // After the loop: end the chain, or give back what was linked.
  method FinishAlloc(fat: Fat, start: int, pre: int, cnt: int, ghost v0: Vol, ghost curr: int, ghost wanted: int)
    returns (r: int)
    requires fat.Valid() && Searching(v0, fat.vol, curr, cnt, wanted, start, pre)
    requires cnt == 0 || curr == |v0.table|
    modifies fat, fat.buffer
    ensures fat.Valid()
    ensures r == AllocStart(v0.table, wanted) && fat.vol == v0.(table := AllocTable(v0.table, wanted))
  {
    hide Fat.Valid;
    ghost var found := FreeBelow(v0.table, curr);
    AllocOutcome(v0.table, curr, wanted);
    if cnt == 0 {
      var err := fat.ClusterSetNext(pre, EOC);
      if err == 0 {
        LinkEnd(v0.table, found);
        return start;
      }
    }
    if found != [] { FreeingUndoesLinking(v0.table, found, FREE); }
    ClusterFreeChain(fat, start);
    return EOC;
  }

  // All or nothing: the first `wanted` free clusters in ascending order, or the
  // table as it was.
  method ClusterAllocFree(fat: Fat, wanted: int) returns (r: int)
    requires fat.Valid()
    modifies fat, fat.buffer
    ensures fat.Valid()
    ensures r == AllocStart(old(fat.vol).table, wanted)
    ensures fat.vol == old(fat.vol).(table := AllocTable(old(fat.vol).table, wanted))
  {
    hide Fat.Valid, Searching;
    var pre, start, cnt := EOC, EOC, wanted;
    var total := fat.g.tblSectors * SECTOR / 2;
    var curr := 2;
    ghost var v0 := fat.vol;
    SearchBegins(v0, wanted);
    while curr < total && cnt != 0
      invariant curr <= total && fat.Valid()
      invariant Searching(v0, fat.vol, curr, cnt, wanted, start, pre)
    {
      start, pre, cnt := SearchStep(fat, start, pre, cnt, curr, v0, wanted);
      curr := curr + 1;
    }
    r := FinishAlloc(fat, start, pre, cnt, v0, curr, wanted);
  }
}
