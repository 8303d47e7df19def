/** Terminal output: the ring buffer, and the token protocol by which any number
    of writers share it without ever finding it full. */
module Tty {

  // ------------------------------------------------------------ the ring buffer

  class Fifo {
    const buf: array<char>
    const size: nat
    var read: nat
    var write: nat
    var count: nat
    ghost var queue: seq<char>

    ghost function Slot(i: nat): nat
      reads this
    {
      if read + i < size then read + i else read + i - size
    }

    ghost predicate Valid()
      reads this, buf
    {
      && 0 < size == buf.Length && read < size && count == |queue| <= size
      && write == (if read + count < size then read + count else read + count - size)
      && forall i {:trigger queue[i]} :: 0 <= i < count ==> queue[i] == buf[Slot(i)]
    }

    constructor (buf: array<char>)
      requires 0 < buf.Length
      ensures Valid() && queue == [] && size == buf.Length && this.buf == buf
    {
      this.buf, size := buf, buf.Length;
      read, write, count, queue := 0, 0, 0, [];
    }

    // Full: -1 and nothing happens.
    method Put(c: char) returns (err: int)
      requires Valid()
      modifies this, buf
      ensures Valid()
      ensures |old(queue)| == size ==> err == -1 && queue == old(queue)
      ensures |old(queue)| < size ==> err == 0 && queue == old(queue) + [c]
    {
      if count >= size {
        return -1;
      }
      buf[write] := c;
      write := write + 1;
      if write >= size {
        write := 0;
      }
      count := count + 1;
      queue := queue + [c];
      return 0;
    }

    // Empty: -1 and nothing happens.
    method Get() returns (err: int, c: char)
      requires Valid()
      modifies this
      ensures Valid()
      ensures old(queue) == [] ==> err == -1 && queue == []
      ensures old(queue) != [] ==> err == 0 && c == old(queue)[0] && queue == old(queue)[1..]
    {
      c := '0';
      if count <= 0 {
        return -1, c;
      }
      c := buf[read];
      read := read + 1;
      if read >= size {
        read := 0;
      }
      count := count - 1;
      queue := queue[1..];
      return 0, c;
    }
  }

  // ------------------------------------------------------------ the writers

  const OBUF: nat := 512

  // What a program sends: a line feed goes out as carriage return and line feed.
  ghost function Expand(s: seq<char>, crlf: bool): seq<char> {
    if s == [] then []
    else (if s[0] == '\n' && crlf then ['\r', '\n'] else [s[0]]) + Expand(s[1..], crlf)
  }

  // Every line feed has a carriage return directly in front of it.
  ghost predicate FeedsReturned(s: seq<char>) {
    forall i :: 0 <= i < |s| && s[i] == '\n' ==> 0 < i && s[i - 1] == '\r'
  }

  // The characters without the carriage return directly in front of each line feed.
  ghost function WithoutReturns(s: seq<char>): seq<char> {
    if s == [] then []
    else if |s| > 1 && s[0] == '\r' && s[1] == '\n' then ['\n'] + WithoutReturns(s[2..])
    else [s[0]] + WithoutReturns(s[1..])
  }

  lemma {:induction false} ExpandReturns(s: seq<char>)
    ensures var r := Expand(s, true);
      FeedsReturned(r) && WithoutReturns(r) == s && (r != [] ==> r[0] != '\n')
  {
    if s != [] {
      var r, rest := Expand(s, true), Expand(s[1..], true);
      ExpandReturns(s[1..]);
      if s[0] == '\n' {
        assert r[2..] == rest && forall i :: 2 <= i < |r| ==> r[i] == rest[i - 2];
        assert FeedsReturned(r) && WithoutReturns(r) == ['\n'] + WithoutReturns(rest);
      } else {
        assert r[1..] == rest && forall i :: 1 <= i < |r| ==> r[i] == rest[i - 1];
      }
    }
  }

  lemma {:induction false} ReturnsExpand(r: seq<char>)
    requires FeedsReturned(r)
    ensures Expand(WithoutReturns(r), true) == r
    decreases |r|
  {
    if r != [] {
      if |r| > 1 && r[0] == '\r' && r[1] == '\n' {
        assert forall i :: 0 <= i < |r[2..]| ==> r[2..][i] == r[i + 2];
        ReturnsExpand(r[2..]);
        assert WithoutReturns(r)[1..] == WithoutReturns(r[2..]) && r == ['\r', '\n'] + r[2..];
      } else {
        assert forall i :: 0 <= i < |r[1..]| ==> r[1..][i] == r[i + 1];
        ReturnsExpand(r[1..]);
        assert WithoutReturns(r)[1..] == WithoutReturns(r[1..]) && r == [r[0]] + r[1..];
      }
    }
  }

  lemma {:induction false} ExpandNot(s: seq<char>)
    ensures Expand(s, false) == s
  {
    if s != [] { ExpandNot(s[1..]); }
  }

  // `out` is how `s` must look on the screen: without the flag it is `s`; with it
  // every line feed has a carriage return in front, and with one taken away in front
  // of each it is `s`.
  ghost predicate Shows(out: seq<char>, s: seq<char>, crlf: bool) {
    if crlf then FeedsReturned(out) && WithoutReturns(out) == s else out == s
  }

  // What a program sends is the one string that shows what it was given.
  lemma ExpandIs(s: seq<char>, crlf: bool, r: seq<char>)
    ensures r == Expand(s, crlf) <==> Shows(r, s, crlf)
  {
    ExpandNot(s);
    ExpandReturns(s);
    if crlf && FeedsReturned(r) { ReturnsExpand(r); }
  }

  // Between its kernel calls a writer holds at most one token: granted and not
  // yet used for a character, or of a character taken out and not yet given back.
  datatype Stage = Outside | Blocked | Granted | Taken | Failed

  datatype Writer = Writer(todo: seq<char>, stage: Stage)

  // tokens and waiters make up osem; out is what the console has taken.
  datatype Term = Term(tokens: int, waiters: seq<nat>, ws: seq<Writer>, queue: seq<(nat, char)>, out: seq<(nat, char)>)

  datatype Event = Wait(w: nat) | PutChar(w: nat) | GetChar(w: nat) | Notify(w: nat)

  ghost predicate Can(t: Term, e: Event) {
    e.w < |t.ws|
    && match e
       case Wait(w) => t.ws[w].stage == Outside && t.ws[w].todo != []
       case PutChar(w) => t.ws[w].stage == Granted && t.ws[w].todo != []
       case GetChar(w) => t.ws[w].stage == Outside && t.queue != []
       case Notify(w) => t.ws[w].stage == Taken
  }

  ghost function Put(t: Term, w: nat, x: Writer): Term
    requires w < |t.ws|
  {
    t.(ws := t.ws[w := x])
  }

  ghost function Step(t: Term, e: Event): (r: Term)
    requires Can(t, e) && forall i {:trigger t.waiters[i]} :: 0 <= i < |t.waiters| ==> t.waiters[i] < |t.ws|
    ensures |r.ws| == |t.ws|
  {
    var x := t.ws[e.w];
    match e
    case Wait(w) =>
      if t.tokens > 0 then Put(t, w, x.(stage := Granted)).(tokens := t.tokens - 1)
      else Put(t, w, x.(stage := Blocked)).(waiters := t.waiters + [w])
    case PutChar(w) =>
      if |t.queue| >= OBUF then Put(t, w, x.(stage := Failed))
      else Put(t, w, Writer(x.todo[1..], Outside)).(queue := t.queue + [(w, x.todo[0])])
    case GetChar(w) => Put(t, w, x.(stage := Taken)).(queue := t.queue[1..], out := t.out + [t.queue[0]])
    case Notify(w) =>
      var a := Put(t, w, x.(stage := Outside));
      if t.waiters != [] then
        Put(a, t.waiters[0], a.ws[t.waiters[0]].(stage := Granted)).(waiters := t.waiters[1..])
      else a.(tokens := t.tokens + 1)
  }

  // ------------------------------------------------------------ tokens

  ghost function Holds(x: Writer): nat {
    if x.stage == Granted || x.stage == Taken then 1 else 0
  }

  ghost function Holding(ws: seq<Writer>): nat {
    if ws == [] then 0 else Holding(ws[..|ws| - 1]) + Holds(ws[|ws| - 1])
  }

  lemma {:induction false} HoldingPut(ws: seq<Writer>, w: nat, x: Writer)
    requires w < |ws|
    ensures Holding(ws[w := x]) == Holding(ws) - Holds(ws[w]) + Holds(x)
  {
    var n := |ws| - 1;
    if w == n {
      assert ws[w := x][..n] == ws[..n];
    } else {
      assert ws[w := x][..n] == ws[..n][w := x];
      HoldingPut(ws[..n], w, x);
    }
  }

  ghost predicate Counts(t: Term) {
    t.tokens >= 0 && t.tokens + Holding(t.ws) + |t.queue| == OBUF && (t.waiters != [] ==> t.tokens == 0)
  }

  ghost predicate Stages(t: Term) {
    && (forall i {:trigger t.waiters[i]} :: 0 <= i < |t.waiters| ==>
          t.waiters[i] < |t.ws| && t.ws[t.waiters[i]].stage == Blocked)
    && (forall i, j {:trigger t.waiters[i], t.waiters[j]} :: 0 <= i < j < |t.waiters| ==> t.waiters[i] != t.waiters[j])
    && (forall w: nat {:trigger t.ws[w]} :: w < |t.ws| ==>
          t.ws[w].stage != Failed && (t.ws[w].stage == Blocked || t.ws[w].stage == Granted ==> t.ws[w].todo != []))
  }

  ghost predicate Inv(t: Term) {
    Counts(t) && Stages(t)
  }

  lemma {:induction false} HoldingOne(ws: seq<Writer>, w: nat)
    requires w < |ws|
    ensures Holds(ws[w]) <= Holding(ws)
  {
    var n := |ws| - 1;
    if w < n { HoldingOne(ws[..n], w); }
  }

  lemma StepCounts(t: Term, e: Event)
    requires Inv(t) && Can(t, e)
    ensures Counts(Step(t, e)) && (e.PutChar? ==> |t.queue| < OBUF)
  {
    hide Holding;
    var x, w := t.ws[e.w], e.w;
    HoldingOne(t.ws, w);
    match e
    case Wait(_) =>
      HoldingPut(t.ws, w, x.(stage := Granted));
      HoldingPut(t.ws, w, x.(stage := Blocked));
    case PutChar(_) => HoldingPut(t.ws, w, Writer(x.todo[1..], Outside));
    case GetChar(_) => HoldingPut(t.ws, w, x.(stage := Taken));
    case Notify(_) =>
      var a := t.ws[w := x.(stage := Outside)];
      HoldingPut(t.ws, w, x.(stage := Outside));
      if t.waiters != [] { HoldingPut(a, t.waiters[0], a[t.waiters[0]].(stage := Granted)); }
  }

  lemma StepStages(t: Term, e: Event)
    requires Inv(t) && Can(t, e)
    ensures Stages(Step(t, e))
  {
    hide Holding, Counts;
    var w := e.w;
    StepCounts(t, e);
    forall i | 0 <= i < |t.waiters| ensures t.waiters[i] != w {
      assert t.ws[t.waiters[i]].stage == Blocked;
    }
  }

  // Free tokens, tokens in the writers' hands and queued characters add up to the
  // size of the buffer; so who puts with a token finds room.
  lemma StepKeepsInv(t: Term, e: Event)
    requires Inv(t) && Can(t, e)
    ensures Inv(Step(t, e))
    ensures e.PutChar? ==> |t.queue| < OBUF
  {
    StepCounts(t, e);
    StepStages(t, e);
    hide Counts, Stages, Step;
  }

  // ------------------------------------------------------------ order

  ghost function From(log: seq<(nat, char)>, w: nat): seq<char> {
    if log == [] then [] else From(log[..|log| - 1], w) + if log[|log| - 1].0 == w then [log[|log| - 1].1] else []
  }

  lemma {:induction false} FromSplit(a: seq<(nat, char)>, b: seq<(nat, char)>, w: nat)
    ensures From(a + b, w) == From(a, w) + From(b, w)
  {
    if b == [] {
      assert a + b == a;
    } else {
      assert (a + b)[..|a + b| - 1] == a + b[..|b| - 1];
      FromSplit(a, b[..|b| - 1], w);
    }
  }

  // What w has sent, on the screen or in the queue, and what it has still to send.
  ghost function Sent(t: Term, w: nat): seq<char>
    requires w < |t.ws|
  {
    From(Log(t), w) + t.ws[w].todo
  }

  ghost function Log(t: Term): seq<(nat, char)> {
    t.out + t.queue
  }

  lemma StepLog(t: Term, e: Event)
    requires Inv(t) && Can(t, e)
    ensures Log(Step(t, e)) == if e.PutChar? then Log(t) + [(e.w, t.ws[e.w].todo[0])] else Log(t)
  {
    hide Holding;
    StepCounts(t, e);
    if e.GetChar? { assert t.queue == [t.queue[0]] + t.queue[1..]; }
  }

  lemma StepTodo(t: Term, e: Event, w: nat)
    requires Inv(t) && Can(t, e) && w < |t.ws|
    ensures Step(t, e).ws[w].todo == if e == PutChar(w) then t.ws[w].todo[1..] else t.ws[w].todo
  {
    hide Holding;
    StepCounts(t, e);
  }

  lemma StepKeepsOrder(t: Term, e: Event, w: nat)
    requires Inv(t) && Can(t, e) && w < |t.ws|
    ensures Sent(Step(t, e), w) == Sent(t, w) && Log(t) <= Log(Step(t, e))
  {
    hide Inv, Step, From;
    StepLog(t, e);
    StepTodo(t, e, w);
    if e.PutChar? {
      var c := t.ws[e.w].todo[0];
      FromSplit(Log(t), [(e.w, c)], w);
      FromOne(e.w, c, w);
      assert t.ws[e.w].todo == [c] + t.ws[e.w].todo[1..];
    }
  }

  lemma FromOne(v: nat, c: char, w: nat)
    ensures From([(v, c)], w) == if v == w then [c] else []
  {
  }

  // ------------------------------------------------------------ whole runs

  ghost predicate Legal(t: Term, es: seq<Event>)
    requires Inv(t)
    decreases |es|
  {
    es == [] || (Can(t, es[0]) && (StepKeepsInv(t, es[0]); Legal(Step(t, es[0]), es[1..])))
  }

  ghost function After(t: Term, es: seq<Event>): (r: Term)
    requires Inv(t) && Legal(t, es)
    ensures Inv(r) && |r.ws| == |t.ws|
    decreases |es|
  {
    if es == [] then t
    else
      StepKeepsInv(t, es[0]);
      After(Step(t, es[0]), es[1..])
  }

  // tty_open, and programs that are about to write.
  ghost function Opened(bufs: seq<seq<char>>, crlf: bool): (t: Term)
    ensures |t.ws| == |bufs|
  {
    Term(OBUF, [], seq(|bufs|, i requires 0 <= i < |bufs| => Writer(Expand(bufs[i], crlf), Outside)), [], [])
  }

  lemma {:induction false} NobodyHolds(ws: seq<Writer>)
    requires forall w: nat {:trigger ws[w]} :: w < |ws| ==> ws[w].stage == Outside
    ensures Holding(ws) == 0
  {
    if ws != [] { NobodyHolds(ws[..|ws| - 1]); }
  }

  lemma OpenedInv(bufs: seq<seq<char>>, crlf: bool)
    ensures Inv(Opened(bufs, crlf))
  {
    NobodyHolds(Opened(bufs, crlf).ws);
  }

  lemma {:induction false} RunsKeepOrder(t: Term, es: seq<Event>, w: nat)
    requires Inv(t) && Legal(t, es) && w < |t.ws|
    ensures Sent(After(t, es), w) == Sent(t, w)
    ensures Log(t) <= Log(After(t, es))
    decreases |es|
  {
    if es != [] {
      StepKeepsInv(t, es[0]);
      StepKeepsOrder(t, es[0], w);
      RunsKeepOrder(Step(t, es[0]), es[1..], w);
    }
  }

  // Any number of writers, any interleaving: no put ever fails, and what comes
  // out of each writer, followed by what is queued and what it has left, shows
  // exactly what it was given, in that order; and so does what came out alone once
  // it has finished and the queue is empty.
  lemma OutputIsFaithful(bufs: seq<seq<char>>, crlf: bool, es: seq<Event>, w: nat)
    requires Inv(Opened(bufs, crlf)) && Legal(Opened(bufs, crlf), es) && w < |bufs|
    ensures var r := After(Opened(bufs, crlf), es);
      && r.ws[w].stage != Failed && r.tokens >= 0 && r.tokens + Holding(r.ws) + |r.queue| == 512
      && Shows(From(r.out, w) + From(r.queue, w) + r.ws[w].todo, bufs[w], crlf)
      && (r.ws[w].todo == [] ==> Shows(From(r.out, w) + From(r.queue, w), bufs[w], crlf))
      && (r.ws[w].todo == [] && r.queue == [] ==> Shows(From(r.out, w), bufs[w], crlf))
  {
    var t := Opened(bufs, crlf);
    ExpandIs(bufs[w], crlf, Expand(bufs[w], crlf));
    var r := After(t, es);
    RunsKeepOrder(t, es, w);
    FromSplit(r.out, r.queue, w);
    assert Log(t) == [];
    hide Shows;
    var sent := From(r.out, w) + From(r.queue, w);
    assert sent + r.ws[w].todo == Expand(bufs[w], crlf);
    assert sent + [] == sent && From(r.out, w) + [] == From(r.out, w);
  }
}
