/**
 The schedulers of any number of CPUs over one process table, step by step, with ptable.lock taken by
 one side of a context switch and released by the other.
 */
module Scheduler {

  import opened Bytes
  import opened ProcTable

  datatype Pc =
    | Idle               // between passes, lock not held
    | Scan(pos: nat)     // in scheduler() with the lock, at slot pos
    | Chosen(p: nat)     // c->proc is set, p not yet marked
    | Started(p: nat)    // p is marked RUNNING and runs, still with the scheduler's lock
    | Out(p: nat)        // p runs without the lock
    | In(p: nat)         // p runs with the lock
    | Left(p: nat)       // p has marked itself otherwise and is about to call sched
    | Back(p: nat)       // in scheduler() again, c->proc still set

  // cur: each CPU's c->proc
  datatype State = State(st: seq<ProcState>, lock: Option<nat>, pc: seq<Pc>, cur: seq<Option<nat>>)

  predicate HasLock(c: Pc) { !c.Idle? && !c.Out? }

  // A CPU whose registers or kernel stack are those of process p.
  predicate On(c: Pc, p: nat) { !c.Idle? && !c.Scan? && c.p == p }

  predicate Runs(c: Pc, p: nat) { (c.Started? || c.Out? || c.In?) && c.p == p }

  // What a process may do to another slot with the lock: wakeup and kill, wait, allocproc, fork.
  predicate Edit(a: ProcState, b: ProcState)
  {
    || (a.Sleeping? && b.Runnable?) || (a.Zombie? && b.Unused?)
    || (a.Unused? && b.Embryo?) || (a.Embryo? && b.Runnable?)
  }

  function Go(s: State, c: nat, pc: Pc): State
    requires c < |s.pc|
  {
    s.(pc := s.pc[c := pc])
  }

  // CPU c takes a step; q is the slot it changes, if any.
  ghost predicate Step(s: State, c: nat, q: nat, s': State)
  {
    && c < |s.pc| == |s.cur| && |s'.st| == |s.st|
    && match s.pc[c]
       case Idle => s.lock.None? && s' == Go(s, c, Scan(0)).(lock := Some(c))
       case Scan(pos) =>
         if pos >= |s.st| then s' == Go(s, c, Idle).(lock := None)
         else if !s.st[pos].Runnable? then s' == Go(s, c, Scan(pos + 1))
         else s' == Go(s, c, Chosen(pos)).(cur := s.cur[c := Some(pos)])
       case Chosen(p) => p < |s.st| && s' == Go(s, c, Started(p)).(st := s.st[p := Running])
       case Started(p) => s' == Go(s, c, Out(p)).(lock := None)
       case Out(p) =>
         || (s.lock.None? && s' == Go(s, c, In(p)).(lock := Some(c)))
         || (q < |s.st| && s.st[q].Embryo? && s' == s.(st := s.st[q := Unused]))
       case In(p) =>
         || s' == Go(s, c, Out(p)).(lock := None)
         || (q < |s.st| && Edit(s.st[q], s'.st[q]) && s' == s.(st := s.st[q := s'.st[q]]))
         || (p < |s.st| && (s'.st[p].Runnable? || s'.st[p].Sleeping? || s'.st[p].Zombie?)
             && s' == Go(s, c, Left(p)).(st := s.st[p := s'.st[p]]))
       case Left(p) => s' == Go(s, c, Back(p))
       case Back(p) => s' == Go(s, c, Scan(p + 1)).(cur := s.cur[c := None])
  }

  ghost predicate Initial(s: State)
  {
    && s.lock.None? && |s.pc| == |s.cur| && (forall c | 0 <= c < |s.pc| :: s.pc[c].Idle? && s.cur[c].None?)
    && forall p | 0 <= p < |s.st| :: !s.st[p].Running?
  }

  // cs: which CPU moves at each step, and the slot it changes
  ghost predicate Linked(ss: seq<State>, cs: seq<(nat, nat)>, k: nat)
  {
    k < |cs| && k + 1 < |ss| ==> Step(ss[k], cs[k].0, cs[k].1, ss[k + 1])
  }

  ghost predicate Steps(ss: seq<State>, cs: seq<(nat, nat)>)
  {
    |ss| == |cs| + 1 && forall k: nat {:trigger Linked(ss, cs, k)} :: Linked(ss, cs, k)
  }

  // ---- What every step keeps ----

  ghost predicate CpuOk(s: State, c: nat)
  {
    c < |s.pc| && c < |s.cur| ==>
      && (s.lock == Some(c) <==> HasLock(s.pc[c]))
      && (if s.pc[c].Idle? || s.pc[c].Scan? then s.cur[c].None? else s.pc[c].p < |s.st| && s.cur[c] == Some(s.pc[c].p))
      && (s.pc[c].Scan? ==> s.pc[c].pos <= |s.st|)
      && (s.pc[c].Chosen? ==> s.st[s.pc[c].p].Runnable?)
      && (s.pc[c].Started? || s.pc[c].Out? || s.pc[c].In? ==> s.st[s.pc[c].p].Running?)
      && (s.pc[c].Left? || s.pc[c].Back? ==> !s.st[s.pc[c].p].Running?)
  }

  // No two CPUs are on the same process.
  ghost predicate Apart(s: State, c: nat, d: nat)
  {
    c < |s.pc| && d < |s.pc| && !s.pc[c].Idle? && !s.pc[c].Scan? && On(s.pc[d], s.pc[c].p) ==> c == d
  }

  ghost predicate Run(s: State, p: nat)
  {
    p < |s.st| && s.st[p].Running? ==> exists c: nat :: c < |s.pc| && Runs(s.pc[c], p)
  }

  ghost predicate Inv(s: State)
  {
    && |s.pc| == |s.cur|
    && (forall c: nat {:trigger CpuOk(s, c)} :: CpuOk(s, c))
    && (forall c: nat, d: nat {:trigger Apart(s, c, d)} :: Apart(s, c, d))
    && (forall p: nat {:trigger Run(s, p)} :: Run(s, p))
  }

  lemma StepCpu(s: State, c: nat, q: nat, s': State, d: nat)
    requires Inv(s) && Step(s, c, q, s')
    ensures CpuOk(s', d)
  {
    assert CpuOk(s, c) && CpuOk(s, d) && Apart(s, c, d);
  }

  lemma StepApart(s: State, c: nat, q: nat, s': State, d: nat, e: nat)
    requires Inv(s) && Step(s, c, q, s')
    ensures Apart(s', d, e)
  {
    assert CpuOk(s, c) && CpuOk(s, d) && CpuOk(s, e) && Apart(s, d, e) && Apart(s, e, d);
  }

  lemma StepRun(s: State, c: nat, q: nat, s': State, p: nat)
    requires Inv(s) && Step(s, c, q, s')
    ensures Run(s', p)
  {
    assert Run(s, p) && CpuOk(s, c);
    if p < |s'.st| && s'.st[p].Running? {
      if s.st[p].Running? {
        var d: nat :| d < |s.pc| && Runs(s.pc[d], p);
        assert Runs(s'.pc[d], p);
      } else {
        assert Runs(s'.pc[c], p);
      }
    }
  }

  lemma StepKeeps(s: State, c: nat, q: nat, s': State)
    requires Inv(s) && Step(s, c, q, s')
    ensures Inv(s')
  {
    hide CpuOk;
    hide Apart;
    hide Run;
    forall d: nat ensures CpuOk(s', d) {
      StepCpu(s, c, q, s', d);
    }
    forall d: nat, e: nat ensures Apart(s', d, e) {
      StepApart(s, c, q, s', d, e);
    }
    forall p: nat ensures Run(s', p) {
      StepRun(s, c, q, s', p);
    }
  }

  lemma {:induction false} Reachable(ss: seq<State>, cs: seq<(nat, nat)>, k: nat)
    requires Steps(ss, cs) && Initial(ss[0]) && k < |ss|
    ensures Inv(ss[k])
  {
    if k > 0 {
      Reachable(ss, cs, k - 1);
      assert Linked(ss, cs, k - 1);
      StepKeeps(ss[k - 1], cs[k - 1].0, cs[k - 1].1, ss[k]);
    }
  }

  // ---- Main results ----

  // With the lock free, the running processes are the current processes, each of one CPU.
  lemma RunningIsCurrent(ss: seq<State>, cs: seq<(nat, nat)>, k: nat, p: nat)
    requires Steps(ss, cs) && Initial(ss[0]) && k < |ss| && ss[k].lock.None? && p < |ss[k].st|
    ensures ss[k].st[p].Running? <==> exists c: nat :: c < |ss[k].cur| && ss[k].cur[c] == Some(p)
    ensures forall c: nat, d: nat | c < |ss[k].cur| && d < |ss[k].cur| ::
              ss[k].cur[c] == Some(p) && ss[k].cur[d] == Some(p) ==> c == d
  {
    Reachable(ss, cs, k);
    var s := ss[k];
    assert Run(s, p);
    if s.st[p].Running? {
      var c: nat :| c < |s.pc| && Runs(s.pc[c], p);
      assert CpuOk(s, c) && s.cur[c] == Some(p);
    }
    forall c: nat | c < |s.cur| && s.cur[c] == Some(p) ensures s.st[p].Running? && On(s.pc[c], p) {
      assert CpuOk(s, c);
    }
    forall c: nat, d: nat | c < |s.cur| && d < |s.cur| && s.cur[c] == Some(p) && s.cur[d] == Some(p) ensures c == d {
      assert Apart(s, c, d);
    }
  }

  // At no moment, lock or no lock, do two CPUs run on the stack of one process.
  lemma OneCpu(ss: seq<State>, cs: seq<(nat, nat)>, k: nat, p: nat, c: nat, d: nat)
    requires Steps(ss, cs) && Initial(ss[0]) && k < |ss| && c < |ss[k].pc| && d < |ss[k].pc|
    requires On(ss[k].pc[c], p) && On(ss[k].pc[d], p)
    ensures c == d
  {
    Reachable(ss, cs, k);
    assert Apart(ss[k], c, d);
  }

  // ---- Nobody is passed over for long ----

  // Where CPU pc will look next.
  function Pos(c: Pc): nat
  {
    match c
    case Idle => 0
    case Scan(pos) => pos
    case _ => c.p + 1
  }

  // Slots that the scan meets before it comes to slot q.
  function Dist(pos: nat, q: nat, n: nat): int { if pos <= q then q - pos else n - pos + q }

  // The step picks a slot other than q on CPU c.
  ghost predicate Passes(s: State, c: nat, s': State, q: nat)
  {
    c < |s.pc| && c < |s'.pc| && s.pc[c].Scan? && s'.pc[c].Chosen? && s'.pc[c].p != q
  }

  ghost function PassCount(ss: seq<State>, cs: seq<(nat, nat)>, c: nat, q: nat, k: nat): nat
    requires |ss| == |cs| + 1 && k <= |cs|
  {
    if k == 0 then 0
    else PassCount(ss, cs, c, q, k - 1) + if cs[k - 1].0 == c && Passes(ss[k - 1], c, ss[k], q) then 1 else 0
  }

  lemma PassStep(s: State, c: nat, e: nat, x: nat, s': State, q: nat)
    requires Inv(s) && Step(s, e, x, s') && c < |s.pc| && q < |s.st| && s.st[q].Runnable? && s'.st[q].Runnable?
    ensures |s'.st| == |s.st| && |s'.pc| == |s.pc|
    ensures s.pc[c] == Chosen(q) ==> s'.pc[c] == Chosen(q) && !(e == c && Passes(s, c, s', q))
    ensures s.pc[c] != Chosen(q) && s'.pc[c] == Chosen(q) ==> !(e == c && Passes(s, c, s', q))
    ensures s.pc[c] != Chosen(q) && s'.pc[c] == Chosen(q) ==> 0 <= Dist(Pos(s.pc[c]), q, |s.st|)
    ensures s'.pc[c] != Chosen(q) ==>
      Dist(Pos(s'.pc[c]), q, |s.st|) + (if e == c && Passes(s, c, s', q) then 1 else 0) <= Dist(Pos(s.pc[c]), q, |s.st|)
    ensures s'.pc[c] != Chosen(q) ==> 0 <= Dist(Pos(s'.pc[c]), q, |s.st|)
  {
    assert CpuOk(s, c) && CpuOk(s, e);
    StepKeeps(s, e, x, s');
    assert CpuOk(s', c);
  }

  // While slot q stays RUNNABLE, no CPU dispatches NPROC others before it.
  lemma {:induction false} BoundedPasses(ss: seq<State>, cs: seq<(nat, nat)>, c: nat, q: nat, k: nat)
    requires Steps(ss, cs) && Inv(ss[0]) && k <= |cs| && c < |ss[0].pc| && q < |ss[0].st|
    requires forall i | 0 <= i <= k :: q < |ss[i].st| && ss[i].st[q].Runnable?
    ensures Inv(ss[k]) && |ss[k].st| == |ss[0].st| && |ss[k].pc| == |ss[0].pc|
    ensures PassCount(ss, cs, c, q, k) <= |ss[0].st| - 1
    ensures ss[k].pc[c] != Chosen(q) ==>
              PassCount(ss, cs, c, q, k) + Dist(Pos(ss[k].pc[c]), q, |ss[0].st|) <= |ss[0].st| - 1
  {
    hide Inv;
    hide Step;
    hide Passes;
    if k == 0 {
      ScanInside(ss[0], c, q);
    } else {
      BoundedPasses(ss, cs, c, q, k - 1);
      assert Linked(ss, cs, k - 1);
      PassStep(ss[k - 1], c, cs[k - 1].0, cs[k - 1].1, ss[k], q);
      StepKeeps(ss[k - 1], cs[k - 1].0, cs[k - 1].1, ss[k]);
    }
  }

  lemma ScanInside(s: State, c: nat, q: nat)
    requires Inv(s) && c < |s.pc| && q < |s.st|
    ensures 0 <= Dist(Pos(s.pc[c]), q, |s.st|) <= |s.st| - 1
  {
    assert CpuOk(s, c);
  }

  // In every run from boot: a slot that stays RUNNABLE from step j to step k is passed over by fewer
  // than NPROC dispatches of any one CPU.
  lemma NoStarvation(ss: seq<State>, cs: seq<(nat, nat)>, c: nat, q: nat, j: nat, k: nat)
    requires Steps(ss, cs) && Initial(ss[0]) && j <= k < |ss| && c < |ss[j].pc| && q < |ss[j].st|
    requires forall i | j <= i <= k :: q < |ss[i].st| && ss[i].st[q].Runnable?
    ensures PassCount(ss[j..], cs[j..], c, q, k - j) < |ss[j].st|
  {
    Reachable(ss, cs, j);
    var tail, moves := ss[j..], cs[j..];
    forall i: nat ensures Linked(tail, moves, i) {
      assert Linked(ss, cs, i + j);
    }
    BoundedPasses(tail, moves, c, q, k - j);
  }

  // ---- The other users of the table ----

  ghost predicate Edited(t: seq<Proc>, t': seq<Proc>, q: nat)
  {
    q < |t| == |t'| && (t'[q].state == t[q].state || Edit(t[q].state, t'[q].state))
  }

  lemma KillEdits(t: seq<Proc>, q: nat, pid: int)
    requires q < |t|
    ensures Edited(t, Killed(t, pid), q)
  {
  }

  lemma ExitEdits(t: seq<Proc>, q: nat, cur: nat, init: nat)
    requires q < |t| && cur < |t| && q != cur && !t[cur].state.Zombie?
    ensures Edited(t, Exited(t, cur, init), q)
  {
    hide Exited;
    ExitedAt(t, cur, init, q);
  }

  lemma WaitEdits(t: seq<Proc>, q: nat, cur: nat)
    requires q < |t| && cur < |t| && q != cur
    ensures Edited(t, Waited(t, cur), q)
  {
    hide HasKids;
  }

  // Whatever wakeup, kill, exit, wait and allocproc do to the state of a slot other than the caller's is an edit.
  lemma TableEdits(t: seq<Proc>, q: nat, cur: nat, chan: Chan, pid: int, init: nat)
    requires q < |t| && cur < |t| && q != cur && !t[cur].state.Zombie?
    ensures Edited(t, Woken(t, chan), q) && Edited(t, Killed(t, pid), q) && Edited(t, Exited(t, cur, init), q)
    ensures Edited(t, Waited(t, cur), q)
    ensures FirstUnused(t) < |t| ==> Edited(t, t[FirstUnused(t) := t[FirstUnused(t)].(state := Embryo, pid := pid)], q)
  {
    hide Exited;
    hide Waited;
    hide Killed;
    KillEdits(t, q, pid);
    ExitEdits(t, q, cur, init);
    WaitEdits(t, q, cur);
  }
}
