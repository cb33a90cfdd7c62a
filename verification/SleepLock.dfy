/**
 One sleep-lock and any number of processes, step by step.

 Each step is what a process does between two lock operations.  Two spinlocks matter: the sleep-lock's
 own `lk`, and the table lock `pt` under which processes fall asleep and are woken.
 */
module SleepLock {

  import opened Bytes

  datatype Pc =
    | Idle
    | Trying                 // acquiresleep, waiting for lk
    | Testing                // lk held, at the test of `locked`
    | Taken                  // lk held, `locked` just set
    | Stamped                // lk held, pid set too
    | ToSleep                // lk held, in sleep(), waiting for pt
    | Handover               // lk and pt held
    | Falling                // pt held, lk released
    | Asleep
    | Awake                  // made runnable again, not yet running
    | Resumed                // pt held again, tidying up
    | Holding                // acquiresleep has returned
    | Releasing              // releasesleep, waiting for lk
    | Clearing               // lk held, about to clear `locked`
    | Cleared                // lk held, `locked` clear
    | ToWake                 // lk held, pid clear too, in wakeup(), waiting for pt
    | Waking                 // lk and pt held
    | Woken                  // lk held, everyone woken

  // The sleep-lock's fields, and who holds the two spinlocks.
  datatype Locks = Locks(locked: bool, pid: Option<nat>, lk: Option<nat>, pt: Option<nat>)

  datatype State = State(m: Locks, pc: seq<Pc>)

  predicate HasLk(c: Pc)
  {
    || c.Testing? || c.Taken? || c.Stamped? || c.ToSleep? || c.Handover?
    || c.Clearing? || c.Cleared? || c.ToWake? || c.Waking? || c.Woken?
  }

  predicate HasPt(c: Pc) { c.Handover? || c.Falling? || c.Resumed? || c.Waking? }

  // Between setting `locked` and clearing it.
  predicate Owns(c: Pc) { c.Taken? || c.Stamped? || c.Holding? || c.Releasing? || c.Clearing? }

  // Committed to sleeping: only a wakeup or a kill brings it back.
  predicate Bound(c: Pc) { c.ToSleep? || c.Handover? || c.Falling? || c.Asleep? }

  function WakeAll(pc: seq<Pc>): (r: seq<Pc>)
    ensures |r| == |pc| && forall i | 0 <= i < |pc| :: r[i] == if pc[i].Asleep? then Awake else pc[i]
  {
    if pc == [] then [] else WakeAll(pc[..|pc| - 1]) + [if pc[|pc| - 1].Asleep? then Awake else pc[|pc| - 1]]
  }

  // Process i, at c, goes on to c'.
  predicate Local(i: nat, c: Pc, c': Pc, m: Locks, m': Locks)
  {
    match c
    case Idle => c'.Trying? && m' == m
    case Trying => m.lk.None? && c'.Testing? && m' == m.(lk := Some(i))
    case Testing => if m.locked then c'.ToSleep? && m' == m else c'.Taken? && m' == m.(locked := true)
    case Taken => c'.Stamped? && m' == m.(pid := Some(i))
    case Stamped => c'.Holding? && m' == m.(lk := None)
    case ToSleep => m.pt.None? && c'.Handover? && m' == m.(pt := Some(i))
    case Handover => c'.Falling? && m' == m.(lk := None)
    case Falling => c'.Asleep? && m' == m.(pt := None)
    case Asleep => false
    case Awake => m.pt.None? && c'.Resumed? && m' == m.(pt := Some(i))
    case Resumed => c'.Trying? && m' == m.(pt := None)
    case Holding => c'.Releasing? && m' == m
    case Releasing => m.lk.None? && c'.Clearing? && m' == m.(lk := Some(i))
    case Clearing => c'.Cleared? && m' == m.(locked := false)
    case Cleared => c'.ToWake? && m' == m.(pid := None)
    case ToWake => m.pt.None? && c'.Waking? && m' == m.(pt := Some(i))
    case Waking => c'.Woken? && m' == m.(pt := None)
    case Woken => c'.Idle? && m' == m.(lk := None)
  }

  // wakeup() takes every sleeper along.
  ghost predicate Step(s: State, s': State, i: nat)
  {
    && i < |s.pc| && i < |s'.pc| && Local(i, s.pc[i], s'.pc[i], s.m, s'.m)
    && s'.pc == (if s.pc[i].Waking? then WakeAll(s.pc) else s.pc)[i := s'.pc[i]]
  }

  // kill() by anyone, or a wakeup by a process that has no part in this lock: process i is woken.
  ghost predicate Roused(s: State, s': State, i: nat)
  {
    s.m.pt.None? && i < |s.pc| && s.pc[i].Asleep? && s' == s.(pc := s.pc[i := Awake])
  }

  ghost predicate Next(s: State, s': State)
  {
    exists i: nat {:trigger Step(s, s', i)} {:trigger Roused(s, s', i)} :: Step(s, s', i) || Roused(s, s', i)
  }

  ghost predicate Initial(s: State)
  {
    s.m == Locks(false, None, None, None) && forall i | 0 <= i < |s.pc| :: s.pc[i].Idle?
  }

  ghost predicate Linked(t: seq<State>, k: nat) { k + 1 < |t| ==> Next(t[k], t[k + 1]) }

  ghost predicate Run(t: seq<State>)
  {
    |t| > 0 && Initial(t[0]) && forall k: nat {:trigger Linked(t, k)} :: Linked(t, k)
  }

  // ---- What every step keeps ----

  // How process i, at c, stands to the locks; `rescue` says that sleepers will still be woken.
  predicate Fits(i: nat, c: Pc, m: Locks, rescue: bool)
  {
    && (m.lk == Some(i) <==> HasLk(c))
    && (m.pt == Some(i) <==> HasPt(c))
    && (Owns(c) ==> m.locked)
    && (m.pid == Some(i) <==> c.Stamped? || c.Holding? || c.Releasing? || c.Clearing? || c.Cleared?)
    && (Bound(c) ==> m.locked || rescue)
  }

  // `locked` has been cleared by a process that is still going to wake the sleepers.
  predicate Rescues(c: Pc) { c.Cleared? || c.ToWake? || c.Waking? }

  predicate Rescued(s: State) { s.m.lk.Some? && s.m.lk.value < |s.pc| && Rescues(s.pc[s.m.lk.value]) }

  ghost predicate PcOk(s: State, i: nat) { i < |s.pc| ==> Fits(i, s.pc[i], s.m, Rescued(s)) }

  ghost predicate Alone(s: State, i: nat, j: nat)
  {
    i < |s.pc| && j < |s.pc| && Owns(s.pc[i]) && Owns(s.pc[j]) ==> i == j
  }

  ghost predicate Inv(s: State)
  {
    && (s.m.lk.Some? ==> s.m.lk.value < |s.pc|) && (s.m.pt.Some? ==> s.m.pt.value < |s.pc|)
    && (s.m.pid.Some? ==> s.m.pid.value < |s.pc|)
    && (s.m.locked ==> exists i: nat :: i < |s.pc| && Owns(s.pc[i]))
    && (forall i: nat {:trigger PcOk(s, i)} :: PcOk(s, i))
    && (forall i: nat, j: nat {:trigger Alone(s, i, j)} :: Alone(s, i, j))
  }

  lemma InitialOk(s: State)
    requires Initial(s)
    ensures Inv(s)
  {
  }

  lemma RousedKeeps(s: State, s': State, i: nat)
    requires Inv(s) && Roused(s, s', i)
    ensures Inv(s')
  {
    forall j: nat ensures PcOk(s', j) {
      assert PcOk(s, j) && PcOk(s, i);
    }
    forall j: nat, k: nat ensures Alone(s', j, k) {
      assert Alone(s, j, k);
    }
    if s.m.locked {
      var j: nat :| j < |s.pc| && Owns(s.pc[j]);
      assert Owns(s'.pc[j]);
    }
  }

  // Whether sleepers will be woken, after the step.
  predicate RescueAfter(i: nat, c: Pc, c': Pc, m: Locks, m': Locks, rescue: bool, rescue': bool)
  {
    && (m.lk == Some(i) ==> rescue == Rescues(c)) && (rescue ==> m.lk.Some?)
    && rescue' == if m'.lk == Some(i) then Rescues(c') else rescue && m'.lk == m.lk
  }

  // The process that moves keeps its place with the locks.
  lemma MoverFits(i: nat, c: Pc, c': Pc, m: Locks, m': Locks, rescue: bool, rescue': bool)
    requires Fits(i, c, m, rescue) && Local(i, c, c', m, m') && RescueAfter(i, c, c', m, m', rescue, rescue')
    ensures Fits(i, c', m', rescue')
  {
  }

  // So does any other process, woken or not.
  lemma OtherFits(i: nat, c: Pc, c': Pc, m: Locks, m': Locks, j: nat, d: Pc, d': Pc, rescue: bool, rescue': bool)
    requires i != j && Fits(i, c, m, rescue) && Fits(j, d, m, rescue) && Local(i, c, c', m, m')
    requires !(Owns(c) && Owns(d))
    requires d' == (if c.Waking? && d.Asleep? then Awake else d)
    requires RescueAfter(i, c, c', m, m', rescue, rescue')
    ensures Fits(j, d', m', rescue')
  {
  }

  lemma StepPc(s: State, s': State, i: nat, j: nat)
    requires Inv(s) && Step(s, s', i)
    ensures PcOk(s', j)
  {
    hide Fits;
    hide Local;
    hide Owns;
    assert PcOk(s, i) && PcOk(s, j) && Alone(s, i, j);
    if j < |s.pc| {
      RescueStep(s, s', i);
      if i == j {
        MoverFits(i, s.pc[i], s'.pc[i], s.m, s'.m, Rescued(s), Rescued(s'));
      } else {
        OtherFits(i, s.pc[i], s'.pc[i], s.m, s'.m, j, s.pc[j], s'.pc[j], Rescued(s), Rescued(s'));
      }
    }
  }

  lemma RescueStep(s: State, s': State, i: nat)
    requires Inv(s) && Step(s, s', i)
    ensures RescueAfter(i, s.pc[i], s'.pc[i], s.m, s'.m, Rescued(s), Rescued(s'))
  {
    hide Owns;
    var c, c' := s.pc[i], s'.pc[i];
    LkMoves(i, c, c', s.m, s'.m);
    if s'.m.lk.Some? && s'.m.lk != Some(i) {
      assert PcOk(s, s'.m.lk.value);
    }
  }

  lemma LkMoves(i: nat, c: Pc, c': Pc, m: Locks, m': Locks)
    requires Local(i, c, c', m, m')
    ensures m'.lk == m.lk || m'.lk == Some(i) || m'.lk.None?
    ensures Owns(c') ==> Owns(c) || (c.Testing? && !m.locked)
    ensures m'.locked ==> m.locked || Owns(c')
    ensures Owns(c) && !Owns(c') ==> c.Clearing? && !m'.locked
  {
  }

  // A process takes the lock only when nobody has it.
  lemma StepAlone(s: State, s': State, i: nat, j: nat, k: nat)
    requires Inv(s) && Step(s, s', i)
    ensures Alone(s', j, k)
  {
    hide Local;
    hide HasLk;
    hide HasPt;
    LkMoves(i, s.pc[i], s'.pc[i], s.m, s'.m);
    assert PcOk(s, j) && PcOk(s, k) && Alone(s, j, k) && Alone(s, i, j) && Alone(s, i, k);
  }

  lemma StepOwner(s: State, s': State, i: nat)
    requires Inv(s) && Step(s, s', i) && s'.m.locked
    ensures exists j: nat :: j < |s'.pc| && Owns(s'.pc[j])
  {
    hide Local;
    LkMoves(i, s.pc[i], s'.pc[i], s.m, s'.m);
    if s.m.locked {
      var j: nat :| j < |s.pc| && Owns(s.pc[j]);
      assert Alone(s, i, j) && Owns(s'.pc[j]);
    } else {
      assert Owns(s'.pc[i]);
    }
  }

  lemma StepBounds(s: State, s': State, i: nat)
    requires Inv(s) && Step(s, s', i)
    ensures |s'.pc| == |s.pc| && (s'.m.lk.Some? ==> s'.m.lk.value < |s.pc|)
    ensures (s'.m.pt.Some? ==> s'.m.pt.value < |s.pc|) && (s'.m.pid.Some? ==> s'.m.pid.value < |s.pc|)
  {
  }

  lemma StepKeeps(s: State, s': State, i: nat)
    requires Inv(s) && Step(s, s', i)
    ensures Inv(s')
  {
    hide Step;
    StepBounds(s, s', i);
    if s'.m.locked {
      StepOwner(s, s', i);
    }
    forall j: nat ensures PcOk(s', j) {
      StepPc(s, s', i, j);
    }
    forall j: nat, k: nat ensures Alone(s', j, k) {
      StepAlone(s, s', i, j, k);
    }
  }

  lemma {:induction false} Reachable(t: seq<State>, k: nat)
    requires Run(t) && k < |t|
    ensures Inv(t[k])
  {
    if k == 0 {
      InitialOk(t[0]);
    } else {
      Reachable(t, k - 1);
      assert Linked(t, k - 1);
      var i: nat :| Step(t[k - 1], t[k], i) || Roused(t[k - 1], t[k], i);
      if Step(t[k - 1], t[k], i) {
        StepKeeps(t[k - 1], t[k], i);
      } else {
        RousedKeeps(t[k - 1], t[k], i);
      }
    }
  }

  // ---- Main results ----

  // At most one process is between the return of acquiresleep and the release.
  lemma Exclusion(t: seq<State>, k: nat, i: nat, j: nat)
    requires Run(t) && k < |t| && i < |t[k].pc| && j < |t[k].pc|
    requires t[k].pc[i].Holding? && t[k].pc[j].Holding?
    ensures i == j
  {
    Reachable(t, k);
    assert Alone(t[k], i, j);
  }

  // No wakeup is lost: with the inner lock free, nobody sleeps on a free sleep-lock.
  lemma NoLostWakeup(t: seq<State>, k: nat, i: nat)
    requires Run(t) && k < |t| && i < |t[k].pc| && t[k].pc[i].Asleep? && t[k].m.lk.None?
    ensures t[k].m.locked && exists j: nat :: j < |t[k].pc| && (t[k].pc[j].Holding? || t[k].pc[j].Releasing?)
  {
    Reachable(t, k);
    assert PcOk(t[k], i);
    var j: nat :| j < |t[k].pc| && Owns(t[k].pc[j]);
    assert PcOk(t[k], j);
  }

  // What holdingsleep computes for process i, under lk.
  predicate HoldingSleep(s: State, i: nat) { s.m.locked && s.m.pid == Some(i) }

  // It tells a process whether the lock is its own.
  lemma HoldingIsOwn(t: seq<State>, k: nat, i: nat)
    requires Run(t) && k < |t| && i < |t[k].pc| && t[k].m.lk.None?
    ensures HoldingSleep(t[k], i) <==> (t[k].pc[i].Holding? || t[k].pc[i].Releasing?)
  {
    Reachable(t, k);
    assert PcOk(t[k], i);
  }

  // The sleep-lock can always move on: if it is free, no process is stuck on it.
  lemma FreeMeansNobodyWaits(t: seq<State>, k: nat)
    requires Run(t) && k < |t| && !t[k].m.locked && t[k].m.lk.None?
    ensures forall i | 0 <= i < |t[k].pc| :: !Bound(t[k].pc[i])
  {
    Reachable(t, k);
    forall i | 0 <= i < |t[k].pc| ensures !Bound(t[k].pc[i]) {
      assert PcOk(t[k], i);
    }
  }
}
