/** The ideal directory: a row of entries with names and contents. It knows no
    clusters; a call is described by what it does to the row and by its result. */
module FatStore {
  import opened Bytes

  datatype Entry = End | Free | Other(name: seq<byte>) | File(name: seq<byte>, bytes: seq<byte>)

  // An open file is known by its entry. `index` is the entry that opening gives,
  // or -1; `back` are the bytes that reading gives.
  datatype Op =
    | Open(name: seq<byte>, trunc: bool, creat: bool, index: int)
    | Read(id: nat, at: nat, n: nat, back: seq<byte>)
    | Append(id: nat, buf: seq<byte>, ok: bool)
    | Close(id: nat)
    | Unlink(name: seq<byte>, ok: bool)

  // The first entry of that name from i on, in front of the END mark, or -1.
  ghost function Lookup(st: seq<Entry>, i: nat, name: seq<byte>): (r: int)
    ensures r == -1 || (i <= r < |st| && (st[r].Other? || st[r].File?) && st[r].name == name)
    decreases |st| - i
  {
    if i >= |st| || st[i].End? then -1
    else if !st[i].Free? && st[i].name == name then i
    else Lookup(st, i + 1, name)
  }

  // Where a new entry goes: the END mark, or else the last free entry, or else p.
  ghost function Place(st: seq<Entry>, i: nat, p: int): (r: int)
    ensures r == p || i <= r < |st|
    decreases |st| - i
  {
    if i >= |st| then p
    else if st[i].End? then i
    else Place(st, i + 1, if st[i].Free? then i else p)
  }

  ghost predicate IsFile(st: seq<Entry>, id: int) {
    0 <= id < |st| && st[id].File?
  }

  // The results that the row of entries makes the calls give.
  ghost predicate Applicable(st: seq<Entry>, op: Op) {
    match op
    case Open(name, _, creat, index) =>
      var k := Lookup(st, 0, name);
      && index == (if 0 <= k then k else if creat then Place(st, 0, -1) else -1)
      && (0 <= k ==> IsFile(st, k))
    case Read(id, at, n, back) =>
      && IsFile(st, id) && at <= |st[id].bytes|
      && back == st[id].bytes[at..if at + n > |st[id].bytes| then |st[id].bytes| else at + n]
    case Append(id, _, _) => IsFile(st, id)
    case Close(id) => IsFile(st, id)
    case Unlink(name, ok) => ok == (0 <= Lookup(st, 0, name))
  }

  ghost function Apply(st: seq<Entry>, op: Op): (r: seq<Entry>)
    requires Applicable(st, op)
  {
    match op
    case Open(name, trunc, creat, index) =>
      if index == -1 || (Lookup(st, 0, name) == index && !trunc) then st else st[index := File(name, [])]
    case Read(_, _, _, _) => st
    case Append(id, buf, ok) =>
      if ok then st[id := File(st[id].name, st[id].bytes + buf)] else st
    case Close(_) => st
    case Unlink(name, ok) =>
      if ok then st[Lookup(st, 0, name) := End] else st
  }

  // st becomes st' when the calls are made in order.
  ghost predicate Replays(st: seq<Entry>, ops: seq<Op>, st': seq<Entry>)
    decreases |ops|
  {
    if ops == [] then st' == st
    else Applicable(st, ops[0]) && Replays(Apply(st, ops[0]), ops[1..], st')
  }

  // Removing an entry writes the END mark there: of the other names exactly those
  // in front of it can still be found.
  lemma {:induction false} UnlinkHides(st: seq<Entry>, i: nat, k: nat, other: seq<byte>)
    requires i <= k < |st|
    ensures Lookup(st[k := End], i, other)
         == if Lookup(st, i, other) < k then Lookup(st, i, other) else -1
    decreases k - i
  {
    if i < k { UnlinkHides(st, i + 1, k, other); }
  }

  // The entries behind a removed one come back with the next file created: it
  // takes the END mark's place, and what is behind it is found again, bytes and all.
  lemma {:induction false} CreateShowsAgain(st: seq<Entry>, a: seq<byte>, b: seq<byte>, c: seq<byte>)
    requires Lookup(st, 0, a) < Lookup(st, 0, c) && IsFile(st, Lookup(st, 0, a))
    requires var hidden := Apply(st, Unlink(a, true)); Lookup(hidden, 0, b) == -1
    requires b != c
    ensures var k, j := Lookup(st, 0, a), Lookup(st, 0, c);
      var hidden := Apply(st, Unlink(a, true));
      && Lookup(hidden, 0, c) == -1
      && Applicable(hidden, Open(b, false, true, k))
      && var again := Apply(hidden, Open(b, false, true, k));
        Lookup(again, 0, b) == k && Lookup(again, 0, c) == j && again[j] == st[j]
  {
    var k := Lookup(st, 0, a);
    UnlinkHides(st, 0, k, c);
    TakesTheEnd(st, 0, k, a, b, -1);
    FoundBehind(st, 0, k, a, File(b, []), c);
    assert st[k := End][k := File(b, [])] == st[k := File(b, [])];
  }

  lemma {:induction false} TakesTheEnd(st: seq<Entry>, i: nat, k: nat, a: seq<byte>, b: seq<byte>, p: int)
    requires i <= k < |st| && Lookup(st, i, a) == k && Lookup(st[k := End], i, b) == -1
    ensures Place(st[k := End], i, p) == k
    ensures Lookup(st[k := File(b, [])], i, b) == k
    decreases k - i
  {
    if i < k { TakesTheEnd(st, i + 1, k, a, b, if st[i].Free? then i else p); }
  }

  lemma {:induction false} FoundBehind(st: seq<Entry>, i: nat, k: nat, a: seq<byte>, slot: Entry, c: seq<byte>)
    requires i <= k < |st| && Lookup(st, i, a) == k < Lookup(st, i, c)
    requires slot.File? && slot.name != c
    ensures Lookup(st[k := slot], i, c) == Lookup(st, i, c)
    decreases k - i
  {
    if i < k { FoundBehind(st, i + 1, k, a, slot, c); } else { SameBehind(st, st[k := slot], k + 1, c); }
  }

  lemma {:induction false} SameBehind(st: seq<Entry>, st': seq<Entry>, i: nat, c: seq<byte>)
    requires |st'| == |st| && forall m :: i <= m < |st| ==> st'[m] == st[m]
    ensures Lookup(st', i, c) == Lookup(st, i, c)
    decreases |st| - i
  {
    if i < |st| { SameBehind(st, st', i + 1, c); }
  }
}
