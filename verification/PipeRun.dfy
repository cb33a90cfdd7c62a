/**
 Any number of writers and readers of one pipe.  Each step is one pass with the pipe's lock held, so
 that the states are those with the lock free.
 */
module PipeRun {

  import opened Bytes
  import opened Pipes

  datatype Proc =
    | Out
    | Writing(rest: seq<byte>)        // wants the lock, with these bytes still to write
    | WriteAsleep(rest: seq<byte>)    // asleep on nwrite
    | Reading(n: nat)
    | ReadAsleep(n: nat)              // asleep on nread

  // The call that a process is in, or has last been in: what it was asked to write, what it has written
  // and how it has ended; or what it was asked to read, and how that has ended.
  datatype Call =
    | NoCall
    | Write(addr: seq<byte>, put: seq<byte>, wrote: Option<WriteEnd>)
    | Read(n: nat, read: Option<ReadEnd>)

  // q: the pipe's contents; sent, got: every byte appended and every byte read
  datatype World = World(q: seq<byte>, sent: seq<byte>, got: seq<byte>, readopen: bool, writeopen: bool,
                         procs: seq<Proc>, killed: seq<bool>, calls: seq<Call>)

  predicate Sized(w: World) { |w.q| <= PIPESIZE && |w.procs| == |w.killed| == |w.calls| }

  // Process p is in such a call.
  predicate Writes(w: World, p: nat)
  {
    Sized(w) && p < |w.procs| && w.procs[p].Writing? && w.calls[p].Write?
  }

  predicate WantsData(w: World, p: nat)
  {
    Sized(w) && p < |w.procs| && w.procs[p].Reading?
  }

  datatype Event =
    | StartWrite(p: nat, addr: seq<byte>)
    | StartRead(p: nat, n: nat)
    | WriteStep(p: nat)
    | ReadStep(p: nat)
    | CloseWrite
    | CloseRead
    | Kill(p: nat)
    | WriteKilled(p: nat)   // a pass that ends asleep; kill, which does not take the pipe's lock, falls between
    | ReadKilled(p: nat)    // the test of p->killed and the sleep

  function WakeReader(p: Proc): Proc { if p.ReadAsleep? then Reading(p.n) else p }

  function WakeWriter(p: Proc): Proc { if p.WriteAsleep? then Writing(p.rest) else p }

  function WakeReaders(ps: seq<Proc>): (r: seq<Proc>)
    ensures |r| == |ps| && forall i | 0 <= i < |ps| :: r[i] == WakeReader(ps[i])
  {
    if ps == [] then [] else WakeReaders(ps[..|ps| - 1]) + [WakeReader(ps[|ps| - 1])]
  }

  function WakeWriters(ps: seq<Proc>): (r: seq<Proc>)
    ensures |r| == |ps| && forall i | 0 <= i < |ps| :: r[i] == WakeWriter(ps[i])
  {
    if ps == [] then [] else WakeWriters(ps[..|ps| - 1]) + [WakeWriter(ps[|ps| - 1])]
  }

  // A pass of pipewrite by p.  The early return leaves the sleeping readers as they are.
  function AfterWrite(w: World, p: nat): (w': World)
    requires Writes(w, p)
    ensures w'.killed == w.killed && |w'.procs| == |w.procs| && |w'.calls| == |w.calls|
  {
    var rest, call := w.procs[p].rest, w.calls[p];
    var m := Fitting(w.q, rest);
    var end := WriteEnds(w.q, rest, w.readopen, w.killed[p]);
    var put := Write(call.addr, call.put + rest[..m], if end.NoRoom? then None else Some(end));
    var w1 := w.(q := w.q + rest[..m], sent := w.sent + rest[..m], calls := w.calls[p := put]);
    match end
    case Done => w1.(procs := WakeReaders(w.procs)[p := Out])
    case Refused => w1.(procs := w.procs[p := Out])
    case NoRoom => w1.(procs := WakeReaders(w.procs)[p := WriteAsleep(rest[m..])])
  }

  function AfterRead(w: World, p: nat): (w': World)
    requires WantsData(w, p)
    ensures w'.killed == w.killed && |w'.procs| == |w.procs| && |w'.calls| == |w.calls|
  {
    var n := w.procs[p].n;
    var end := ReadEnds(w.q, n, w.writeopen, w.killed[p]);
    var w1 := w.(calls := w.calls[p := Read(n, if end.NoData? then None else Some(end))]);
    match end
    case Stopped => w1.(procs := w.procs[p := Out])
    case NoData => w1.(procs := w.procs[p := ReadAsleep(n)])
    case Got(bytes) =>
      w1.(q := w.q[|bytes|..], got := w.got + bytes, procs := WakeWriters(w.procs)[p := Out])
  }

  ghost predicate Next(w: World, e: Event, w': World)
  {
    Sized(w) &&
    match e
    case StartWrite(p, addr) =>
      && p < |w.procs| && w.procs[p].Out? && w.writeopen
      && w' == w.(procs := w.procs[p := Writing(addr)], calls := w.calls[p := Write(addr, [], None)])
    case StartRead(p, n) =>
      && p < |w.procs| && w.procs[p].Out? && w.readopen
      && w' == w.(procs := w.procs[p := Reading(n)], calls := w.calls[p := Read(n, None)])
    case WriteStep(p) => Writes(w, p) && w' == AfterWrite(w, p)
    case ReadStep(p) => WantsData(w, p) && w' == AfterRead(w, p)
    case CloseWrite => w' == w.(writeopen := false, procs := WakeReaders(w.procs))
    case CloseRead => w' == w.(readopen := false, procs := WakeWriters(w.procs))
    case Kill(p) =>
      && p < |w.procs|
      && w' == w.(killed := w.killed[p := true], procs := w.procs[p := WakeReader(WakeWriter(w.procs[p]))])
    case WriteKilled(p) =>
      && Writes(w, p) && AfterWrite(w, p).procs[p].WriteAsleep?
      && w' == AfterWrite(w, p).(killed := w.killed[p := true])
    case ReadKilled(p) =>
      && WantsData(w, p) && AfterRead(w, p).procs[p].ReadAsleep?
      && w' == AfterRead(w, p).(killed := w.killed[p := true])
  }

  ghost predicate Initial(w: World)
  {
    && w.q == [] && w.sent == [] && w.got == [] && w.readopen && w.writeopen && Sized(w)
    && forall p | 0 <= p < |w.procs| :: w.procs[p].Out? && w.calls[p].NoCall?
  }

  ghost predicate Linked(ws: seq<World>, es: seq<Event>, k: nat)
  {
    k < |es| && k + 1 < |ws| ==> Next(ws[k], es[k], ws[k + 1])
  }

  ghost predicate Run(ws: seq<World>, es: seq<Event>)
  {
    |ws| == |es| + 1 && Initial(ws[0]) && forall k: nat {:trigger Linked(ws, es, k)} :: Linked(ws, es, k)
  }

  // ---- What every step keeps ----

  // A writer sleeps only on a full pipe that somebody can still read.
  ghost predicate WriterOk(w: World, p: nat)
  {
    p < |w.procs| && w.procs[p].WriteAsleep? ==> |w.q| == PIPESIZE && w.readopen && w.procs[p].rest != []
  }

  ghost predicate Over(call: Call)
  {
    match call
    case NoCall => true
    case Write(addr, put, wrote) =>
      wrote.Some? && !wrote.value.NoRoom? && put <= addr && (wrote.value.Done? <==> put == addr)
    case Read(n, read) => read.Some? && !read.value.NoData? && (read.value.Got? ==> |read.value.bytes| <= n)
  }

  // A call under way has written what is not left; one that is over has written all if it is done, and
  // less otherwise.
  ghost predicate CallOk(w: World, p: nat)
  {
    p < |w.procs| == |w.calls| ==>
      match w.procs[p]
      case Out => Over(w.calls[p])
      case Writing(rest) => w.calls[p].Write? && w.calls[p].wrote.None? && w.calls[p].addr == w.calls[p].put + rest
      case WriteAsleep(rest) =>
        w.calls[p].Write? && w.calls[p].wrote.None? && w.calls[p].addr == w.calls[p].put + rest
      case Reading(n) => w.calls[p] == Read(n, None)
      case ReadAsleep(n) => w.calls[p] == Read(n, None)
  }

  ghost predicate Inv(w: World)
  {
    && w.sent == w.got + w.q && Sized(w)
    && (forall p: nat {:trigger WriterOk(w, p)} :: WriterOk(w, p))
    && (forall p: nat {:trigger CallOk(w, p)} :: CallOk(w, p))
  }

  lemma WriteCall(w: World, p: nat, r: nat)
    requires Writes(w, p) && CallOk(w, r) && CallOk(w, p)
    ensures CallOk(AfterWrite(w, p), r)
  {
    if r == p {
      PutMore(w.calls[p].addr, w.calls[p].put, w.procs[p].rest, Fitting(w.q, w.procs[p].rest));
    }
  }

  lemma PutMore(addr: seq<byte>, put: seq<byte>, rest: seq<byte>, m: nat)
    requires addr == put + rest && m <= |rest|
    ensures addr == (put + rest[..m]) + rest[m..] && put + rest[..m] <= addr
    ensures put + rest[..m] == addr <==> m == |rest|
  {
    assert rest == rest[..m] + rest[m..];
    assert m == |rest| ==> rest[..m] == rest;
    assert |put + rest[..m]| == |put| + m;
  }

  lemma WriteKeeps(w: World, p: nat, w': World)
    requires Inv(w) && Writes(w, p) && w' == AfterWrite(w, p)
    ensures Inv(w')
  {
    hide CallOk;
    forall r: nat ensures WriterOk(w', r) {
      assert WriterOk(w, r);
    }
    forall r: nat ensures CallOk(w', r) {
      assert CallOk(w, r) && CallOk(w, p);
      WriteCall(w, p, r);
    }
  }

  lemma ReadCall(w: World, p: nat, r: nat)
    requires WantsData(w, p) && CallOk(w, r)
    ensures CallOk(AfterRead(w, p), r)
  {
  }

  lemma ReadKeeps(w: World, p: nat, w': World)
    requires Inv(w) && WantsData(w, p) && w' == AfterRead(w, p)
    ensures Inv(w')
  {
    hide CallOk;
    forall r: nat ensures WriterOk(w', r) {
      assert WriterOk(w, r);
    }
    forall r: nat ensures CallOk(w', r) {
      assert CallOk(w, r);
      ReadCall(w, p, r);
    }
    var m := Min(w.procs[p].n, |w.q|);
    assert w.q == w.q[..m] + w.q[m..];
  }

  lemma KilledKeeps(w: World, w': World)
    requires Inv(w) && w' == w.(killed := w'.killed) && |w'.killed| == |w.killed|
    ensures Inv(w')
  {
    forall p: nat ensures WriterOk(w', p) && CallOk(w', p) {
      assert WriterOk(w, p) && CallOk(w, p);
    }
  }

  lemma StepKeeps(w: World, e: Event, w': World)
    requires Inv(w) && Next(w, e, w')
    ensures Inv(w')
  {
    hide AfterWrite;
    hide AfterRead;
    if e.WriteStep? {
      WriteKeeps(w, e.p, w');
    } else if e.ReadStep? {
      ReadKeeps(w, e.p, w');
    } else if e.WriteKilled? {
      WriteKeeps(w, e.p, AfterWrite(w, e.p));
      KilledKeeps(AfterWrite(w, e.p), w');
    } else if e.ReadKilled? {
      ReadKeeps(w, e.p, AfterRead(w, e.p));
      KilledKeeps(AfterRead(w, e.p), w');
    } else {
      forall p: nat ensures WriterOk(w', p) && CallOk(w', p) {
        assert WriterOk(w, p) && CallOk(w, p);
      }
    }
  }

  // A reader sleeps only on an empty pipe that somebody can still write.
  ghost predicate ReaderOk(w: World, p: nat)
  {
    p < |w.procs| && w.procs[p].ReadAsleep? ==> w.q == [] && w.writeopen
  }

  ghost predicate ReadersOk(w: World) { forall p: nat {:trigger ReaderOk(w, p)} :: ReaderOk(w, p) }

  ghost predicate SleepingReader(w: World) { exists p: nat :: p < |w.procs| && w.procs[p].ReadAsleep? }

  // A writer gives up on a full pipe while a reader sleeps.
  ghost predicate Strands(w: World, e: Event)
  {
    && e.WriteStep? && Writes(w, e.p)
    && WriteEnds(w.q, w.procs[e.p].rest, w.readopen, w.killed[e.p]).Refused? && SleepingReader(w)
  }

  lemma ReadersStep(w: World, e: Event, w': World)
    requires Inv(w) && ReadersOk(w) && Next(w, e, w')
    ensures ReadersOk(w') <==> !Strands(w, e)
  {
    if Strands(w, e) {
      var p: nat :| p < |w.procs| && w.procs[p].ReadAsleep?;
      assert !ReaderOk(w', p);
    } else {
      forall p: nat ensures ReaderOk(w', p) {
        assert ReaderOk(w, p);
      }
    }
  }

  lemma {:induction false} Reachable(ws: seq<World>, es: seq<Event>, k: nat)
    requires Run(ws, es) && k < |ws|
    ensures Inv(ws[k])
  {
    if k > 0 {
      Reachable(ws, es, k - 1);
      assert Linked(ws, es, k - 1);
      StepKeeps(ws[k - 1], es[k - 1], ws[k]);
    }
  }

  // ---- Main results ----

  // The bytes read are the first of the bytes written, in order, and the rest is in the pipe.
  lemma Fifo(ws: seq<World>, es: seq<Event>, k: nat)
    requires Run(ws, es) && k < |ws|
    ensures ws[k].got <= ws[k].sent && ws[k].sent == ws[k].got + ws[k].q && |ws[k].q| <= PIPESIZE
  {
    Reachable(ws, es, k);
  }

  lemma NoStuckWriter(ws: seq<World>, es: seq<Event>, k: nat, p: nat)
    requires Run(ws, es) && k < |ws| && p < |ws[k].procs| && ws[k].procs[p].WriteAsleep?
    ensures |ws[k].q| == PIPESIZE && ws[k].readopen
  {
    Reachable(ws, es, k);
    assert WriterOk(ws[k], p);
  }

  // Readers sleep only on an empty, writable pipe throughout a run, exactly if no step of it takes
  // the early return of pipewrite while a reader sleeps.
  lemma {:induction false} ReadersOkIff(ws: seq<World>, es: seq<Event>, n: nat)
    requires Run(ws, es) && n <= |es|
    ensures (forall k: nat {:trigger ReadersOk(ws[k])} | k <= n ::
              ReadersOk(ws[k])) <==> (forall k: nat {:trigger Strands(ws[k], es[k])} | k < n :: !Strands(ws[k], es[k]))
  {
    if n > 0 {
      ReadersOkIff(ws, es, n - 1);
      Reachable(ws, es, n - 1);
      assert Linked(ws, es, n - 1);
      if ReadersOk(ws[n - 1]) {
        ReadersStep(ws[n - 1], es[n - 1], ws[n]);
      }
    }
  }

  // It does happen: a reader waits, a writer is killed and offers more than fits.
  lemma StrandedReader(addr: seq<byte>) returns (ws: seq<World>, es: seq<Event>)
    requires |addr| > PIPESIZE
    ensures |es| == 5 && Run(ws, es) && Strands(ws[4], es[4])
    ensures |ws[5].procs| == 2 && ws[5].procs[0].ReadAsleep? && ws[5].q == addr[..PIPESIZE]
  {
    var w0 := World([], [], [], true, true, [Out, Out], [false, false], [NoCall, NoCall]);
    var w1 := w0.(procs := [Reading(1), Out], calls := [Read(1, None), NoCall]);
    var w2 := w1.(procs := [ReadAsleep(1), Out]);
    var w3 := w2.(killed := [false, true]);
    var w4 := w3.(procs := [ReadAsleep(1), Writing(addr)], calls := [Read(1, None), Write(addr, [], None)]);
    assert WriteEnds([], addr, true, true) == Refused && Fitting([], addr) == PIPESIZE;
    var w5 := AfterWrite(w4, 1);
    ws, es := [w0, w1, w2, w3, w4, w5], [StartRead(0, 1), ReadStep(0), Kill(1), StartWrite(1, addr), WriteStep(1)];
    assert Next(w0, es[0], w1) && Next(w1, es[1], w2) && Next(w2, es[2], w3);
    assert Next(w3, es[3], w4) && Next(w4, es[4], w5);
    assert w4.procs[0].ReadAsleep? && SleepingReader(w4);
    hide Next;
    forall k: nat ensures Linked(ws, es, k) {
      assert k < 5 ==> k == 0 || k == 1 || k == 2 || k == 3 || k == 4;
    }
  }

  // A killed process does not sleep in the pipe.
  ghost predicate AwakeIfKilled(w: World)
  {
    forall p: nat {:trigger w.procs[p]} | p < |w.procs| == |w.killed| && w.killed[p] ::
      !w.procs[p].WriteAsleep? && !w.procs[p].ReadAsleep?
  }

  lemma KilledStep(w: World, e: Event, w': World)
    requires AwakeIfKilled(w) && Next(w, e, w')
    ensures AwakeIfKilled(w') <==> !e.WriteKilled? && !e.ReadKilled?
  {
    if e.WriteKilled? || e.ReadKilled? {
      assert w'.killed[e.p] && (w'.procs[e.p].WriteAsleep? || w'.procs[e.p].ReadAsleep?);
    } else {
      forall p: nat | p < |w'.procs| == |w'.killed| && w'.killed[p]
        ensures !w'.procs[p].WriteAsleep? && !w'.procs[p].ReadAsleep?
      {
        assert w.killed[p] ==> !w.procs[p].WriteAsleep? && !w.procs[p].ReadAsleep?;
      }
    }
  }

  // Kill gets a process out of the pipe, exactly if it never falls between a test and a sleep.
  lemma {:induction false} AwakeIff(ws: seq<World>, es: seq<Event>, n: nat)
    requires Run(ws, es) && n <= |es|
    ensures (forall k: nat {:trigger AwakeIfKilled(ws[k])} | k <= n ::
              AwakeIfKilled(ws[k])) <==> (forall k: nat {:trigger es[k]} | k < n ::
                !es[k].WriteKilled? && !es[k].ReadKilled?)
  {
    if n > 0 {
      AwakeIff(ws, es, n - 1);
      assert Linked(ws, es, n - 1);
      if AwakeIfKilled(ws[n - 1]) {
        KilledStep(ws[n - 1], es[n - 1], ws[n]);
      }
    }
  }

  // That happens too: the reader is killed, and sleeps until somebody writes.
  lemma KilledSleeper(n: nat) returns (ws: seq<World>, es: seq<Event>)
    ensures |es| == 2 && Run(ws, es) && |ws[2].procs| == |ws[2].killed| == 1 && ws[2].killed[0]
    ensures ws[2].procs[0] == ReadAsleep(n)
  {
    var w0 := World([], [], [], true, true, [Out], [false], [NoCall]);
    var w1 := w0.(procs := [Reading(n)], calls := [Read(n, None)]);
    var w2 := w1.(procs := [ReadAsleep(n)], killed := [true]);
    ws, es := [w0, w1, w2], [StartRead(0, n), ReadKilled(0)];
    assert Next(w0, es[0], w1) && Next(w1, es[1], w2);
    forall k: nat ensures Linked(ws, es, k) {
      assert k < 2 ==> k == 0 || k == 1;
    }
  }

  // ---- What a call does ----

  // A pass appends bytes until there are no more or the pipe is full.  A writer whose bytes are all written
  // leaves; one with bytes left leaves exactly if it has been killed or nobody can read, and sleeps otherwise.
  lemma WriteOutcome(w: World, p: nat, w': World)
    requires Inv(w) && Next(w, WriteStep(p), w')
    ensures |w'.q| >= |w.q| && |w'.q| - |w.q| <= |w.procs[p].rest| && |w'.procs| == |w.procs| && |w'.calls| == |w.calls|
    ensures var rest, m := w.procs[p].rest, |w'.q| - |w.q|;
      && w'.q == w.q + rest[..m] && w'.got == w.got && (m < |rest| ==> |w'.q| == PIPESIZE)
      && w'.calls[p].Write? && w'.calls[p].addr == w.calls[p].addr && w'.calls[p].put == w.calls[p].put + rest[..m]
      && (m == |rest| <==> w'.procs[p].Out? && w'.calls[p].wrote == Some(Done))
      && (m < |rest| && (w.killed[p] || !w.readopen) <==> w'.procs[p].Out? && w'.calls[p].wrote == Some(Refused))
      && (m < |rest| && !w.killed[p] && w.readopen <==> w'.procs[p] == WriteAsleep(rest[m..]))
  {
  }

  // A reader sleeps exactly if the pipe is empty, can be written, and it has not been killed; it leaves with
  // nothing exactly if it has been; otherwise it leaves with the oldest bytes, n of them or all there are.
  lemma ReadOutcome(w: World, p: nat, w': World)
    requires Inv(w) && Next(w, ReadStep(p), w')
    ensures |w'.procs| == |w.procs| && |w'.calls| == |w.calls|
    ensures var n := w.procs[p].n;
      && (w.q == [] && w.writeopen && !w.killed[p] <==> w'.procs[p] == ReadAsleep(n))
      && (w.q == [] && w.writeopen && w.killed[p] <==> w'.procs[p].Out? && w'.calls[p] == Read(n, Some(Stopped)))
      && (w.q != [] || !w.writeopen ==>
            && w'.procs[p].Out? && w'.calls[p].Read? && w'.calls[p].read.Some? && w'.calls[p].read.value.Got?
            && var bytes := w'.calls[p].read.value.bytes;
               w.q == bytes + w'.q && w'.got == w.got + bytes && |bytes| <= n && (|bytes| == n || w'.q == []))
  {
  }

  // Over all its passes a call of pipewrite has written the first bytes of what it was asked to, and all of
  // them if it ends as done; and it was asked when it started.
  lemma WriterProgress(ws: seq<World>, es: seq<Event>, k: nat, p: nat)
    requires Run(ws, es) && k < |ws| && p < |ws[k].calls| && ws[k].calls[p].Write?
    ensures ws[k].calls[p].put <= ws[k].calls[p].addr
    ensures ws[k].calls[p].wrote == Some(Done) ==> ws[k].calls[p].put == ws[k].calls[p].addr
    ensures exists j :: 0 <= j < k && j < |es| && es[j] == StartWrite(p, ws[k].calls[p].addr)
  {
    Reachable(ws, es, k);
    assert CallOk(ws[k], p);
    Asked(ws, es, k, p);
  }

  lemma {:induction false} Asked(ws: seq<World>, es: seq<Event>, k: nat, p: nat)
    requires Run(ws, es) && k < |ws| && p < |ws[k].calls| && ws[k].calls[p].Write?
    ensures exists j :: 0 <= j < k && j < |es| && es[j] == StartWrite(p, ws[k].calls[p].addr)
  {
    Reachable(ws, es, k);
    if k > 0 {
      Reachable(ws, es, k - 1);
      assert Linked(ws, es, k - 1);
      if es[k - 1] == StartWrite(p, ws[k].calls[p].addr) {
      } else {
        Asked(ws, es, k - 1, p);
      }
    }
  }

  // A writer leaves with bytes unwritten only if it has been killed or the read end is closed.
  lemma WriterLeaves(ws: seq<World>, es: seq<Event>, k: nat, p: nat)
    requires Run(ws, es) && k < |es| && p < |ws[k].procs| == |ws[k].killed| && p < |ws[k + 1].procs|
    requires ws[k].procs[p].Writing? && ws[k + 1].procs[p].Out?
    ensures p < |ws[k + 1].calls| && ws[k + 1].calls[p].Write? && ws[k + 1].calls[p].put <= ws[k + 1].calls[p].addr
    ensures ws[k + 1].calls[p].put != ws[k + 1].calls[p].addr ==> ws[k].killed[p] || !ws[k].readopen
  {
    Reachable(ws, es, k);
    Reachable(ws, es, k + 1);
    assert Linked(ws, es, k) && CallOk(ws[k + 1], p);
    if es[k] == WriteStep(p) { WriteOutcome(ws[k], p, ws[k + 1]); }
  }
}
