/**
 Whole runs of log.c: a boot, and any script of file-system operations after it.

 The specification knows nothing of buffers, the log or the disk: it has the blocks as the file system
 sees them, and the states it has committed.  The code, with any other processes reading and waiting at
 every bread, refines it, and a crash at any moment recovers to a state that it has committed.
 */
module LogRun {
  import opened Bytes
  import opened LogImage
  import Code = Log
  import R = LogReservation

  // begin_op, a logged change of a block, and end_op, each by one of the outstanding operations.
  datatype Cmd = Begin | Put(op: nat, b: uint, data: Block) | End(op: nat)

  // Who makes a step, and what others do with the cache meanwhile.
  datatype Step = Step(cmd: Cmd, pid: int, others: seq<seq<Code.Act>>)

  datatype World = World(st: R.State, view: Image, commits: seq<Image>)

  function Start(d: Image): World { World(R.INIT, d, [d]) }

  function Do(w: World, cmd: Cmd, l: Layout): World
  {
    match cmd
    case Begin => if R.Admits(w.st) then w.(st := R.Begin(w.st)) else w
    case Put(op, b, data) =>
      if op >= |w.st.ops| || b >= |w.view| || InLog(l, b) then w
      else if R.Full(w.st.lh, l.size) then w.(st := w.st.(panicked := true))
      else World(R.Append(R.Test(w.st, op, b, l.size), op), w.view[b := data], w.commits)
    case End(op) =>
      if op >= |w.st.ops| then w
      else if |w.st.ops| > 1 then w.(st := R.End(w.st, op))
      else World(R.INIT, w.view, if w.st.lh == [] then w.commits else w.commits + [w.view])
  }

  function Play(w: World, steps: seq<Step>, l: Layout): World
  {
    if steps == [] then w
    else
      var v := Play(w, steps[..|steps| - 1], l);
      if v.st.panicked then v else Do(v, steps[|steps| - 1].cmd, l)
  }

  lemma PlayNext(w: World, steps: seq<Step>, l: Layout, k: nat)
    requires k < |steps|
    ensures var v := Play(w, steps[..k], l);
            Play(w, steps[..k + 1], l) == if v.st.panicked then v else Do(v, steps[k].cmd, l)
  {
    assert steps[..k + 1][..k] == steps[..k];
  }

  // The two agree outside the log, state by state.
  ghost predicate SameStates(l: Layout, a: seq<Image>, b: seq<Image>)
  {
    |a| == |b| && forall i | 0 <= i < |a| :: SameHome(l, a[i], b[i])
  }

  lemma EpochsAlike(l: Layout, history: seq<Image>, a: seq<Image>, b: seq<Image>, epoch: seq<nat>)
    requires Epochs(l, history, a, epoch) && SameStates(l, a, b)
    ensures Epochs(l, history, b, epoch)
  {
    hide Recovered;
    hide Sound;
    forall t | 0 <= t < |history| ensures Sound(l, history[t]) && SameHome(l, Recovered(l, history[t]), b[epoch[t]]) {
      assert SameHome(l, a[epoch[t]], b[epoch[t]]);
    }
  }

  ghost predicate NonePending(s: R.State) { forall i | 0 <= i < |s.ops| :: s.ops[i].pending == None }

  // The code is where the specification is.
  ghost predicate Agrees(log: Code.Log, w: World)
    reads log, log.cache, log.cache.buf, log.cache.list, log.cache.list.next, log.cache.list.prev
  {
    && log.Valid() && log.OnlyReaders() && log.St() == w.st && NonePending(w.st)
    && SameHome(log.layout, log.cache.logical, w.view) && SameStates(log.layout, log.commits, w.commits)
  }

  // One step.  When it does not get through, what is on disk still recovers as the specification says.
  method DoStep(log: Code.Log, step: Step, ghost w: World) returns (e: Code.End)
    requires Agrees(log, w)
    modifies log, log.cache, log.cache.buf, log.cache.list, log.cache.list.next, log.cache.list.prev
    ensures SameStates(log.layout, log.commits, Do(w, step.cmd, log.layout).commits)
    ensures Epochs(log.layout, log.cache.history, log.commits, log.epoch)
    ensures e.Finished? ==> Agrees(log, Do(w, step.cmd, log.layout)) && !Do(w, step.cmd, log.layout).st.panicked
    ensures e.Panicked? ==> log.NoneEligible() || Do(w, step.cmd, log.layout).st.panicked
    ensures e.Asleep? ==> log.Stuck()
  {
    hide Code.Log.Stable;
    hide Code.Log.OnlyReaders;
    hide Epochs;
    log.StableEpochs();
    log.StableSizes();
    log.others := step.others;
    e := Code.Finished;
    match step.cmd
    case Begin =>
      var admitted := log.BeginOp();
    case Put(op, b, data) =>
      if op < log.outstanding && b < |log.cache.disk| && !InLog(log.layout, b) {
        e := log.Update(b, data, step.pid, op);
      }
    case End(op) =>
      if op < log.outstanding {
        e := log.EndOp(step.pid, op);
        if e.Finished? && |w.st.ops| == 1 { log.Settled(); }
      }
  }

  // Boot, and then the script.  k counts the steps begun.
  method Session(nbuf: nat, disk: Image, layout: Layout, pid: int, steps: seq<Step>)
    returns (log: Code.Log, e: Code.End, ghost k: nat)
    requires Sound(layout, disk) && |disk| <= UINT_LIMIT
    ensures k <= |steps| && (e.Finished? ==> k == |steps|) && log.layout == layout
    // A crash at any moment recovers to one of the states that the specification has committed, and
    // later moments never to an older one.
    ensures Epochs(layout, log.cache.history, Play(Start(Recovered(layout, disk)), steps[..k], layout).commits,
                   log.epoch)
    ensures e.Finished? ==> Agrees(log, Play(Start(Recovered(layout, disk)), steps, layout))
    // What can keep the script from getting through: too few buffers, too big a transaction, or a
    // process that never lets go of a buffer.
    ensures e.Panicked? ==> log.NoneEligible() || Play(Start(Recovered(layout, disk)), steps[..k], layout).st.panicked
    ensures e.Asleep? ==> log.Stuck()
  {
    hide Recovered;
    hide Epochs;
    hide Agrees;
    hide Do;
    hide Sound;
    hide SameStates;
    ghost var start := Start(Recovered(layout, disk));
    k := 0;
    log, e := Code.Boot(nbuf, disk, layout, pid);
    Booted(layout, log.cache.history, log.commits, log.epoch, start);
    if !e.Finished? { return; }
    AgreesAtBoot(log, start);
    for i := 0 to |steps|
      invariant k == i && e.Finished? && log.layout == layout && Agrees(log, Play(start, steps[..i], layout))
      invariant fresh(log) && fresh(log.cache) && fresh(log.cache.buf) && fresh(log.cache.list)
      invariant fresh(log.cache.list.next) && fresh(log.cache.list.prev)
      invariant Epochs(layout, log.cache.history, Play(start, steps[..i], layout).commits, log.epoch)
      invariant !Play(start, steps[..i], layout).st.panicked
    {
      ghost var w := Play(start, steps[..i], layout);
      PlayNext(start, steps, layout, i);
      e := DoStep(log, steps[i], w);
      EpochsAlike(layout, log.cache.history, log.commits, Do(w, steps[i].cmd, layout).commits, log.epoch);
      k := i + 1;
      if !e.Finished? { return; }
    }
    assert steps[..|steps|] == steps;
  }

  lemma Booted(l: Layout, history: seq<Image>, commits: seq<Image>, epoch: seq<nat>, w: World)
    requires Epochs(l, history, commits, epoch) && commits == w.commits
    ensures Epochs(l, history, Play(w, [], l).commits, epoch)
  {
  }

  lemma AgreesAtBoot(log: Code.Log, w: World)
    requires log.Valid() && log.OnlyReaders() && log.cache.pinned == {} && log.St() == R.INIT
    requires w == Start(log.cache.disk) && log.commits == [log.cache.disk]
    ensures Agrees(log, w)
  {
    log.Settled();
  }
}
