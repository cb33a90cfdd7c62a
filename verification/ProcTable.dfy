/** The process table and the scans that proc.c makes over it with ptable.lock held. */
module ProcTable {

  import opened Bytes

  datatype ProcState = Unused | Embryo | Sleeping | Runnable | Running | Zombie

  // What a process sleeps on: the address of a process, or any other address.
  datatype Chan = NoChan | OfProc(slot: nat) | Addr(a: nat)

  datatype Proc = Proc(state: ProcState, pid: int, parent: Option<nat>, chan: Chan, killed: bool)

  // ---- wakeup1 ----

  function Wake(p: Proc, chan: Chan): Proc
  {
    if p.state.Sleeping? && p.chan == chan then p.(state := Runnable) else p
  }

  function Woken(t: seq<Proc>, chan: Chan): (r: seq<Proc>)
    ensures |r| == |t| && forall i | 0 <= i < |t| :: r[i] == Wake(t[i], chan)
  {
    if t == [] then [] else Woken(t[..|t| - 1], chan) + [Wake(t[|t| - 1], chan)]
  }

  // ---- kill ----

  // The first slot with the given pid, or |t|.
  function FirstPid(t: seq<Proc>, pid: int): (k: nat)
    ensures k <= |t| && (k < |t| ==> t[k].pid == pid) && forall i | 0 <= i < k :: t[i].pid != pid
    decreases |t|
  {
    if t == [] || t[0].pid == pid then 0 else FirstPid(t[1..], pid) + 1
  }

  function Slain(p: Proc): Proc { p.(killed := true, state := if p.state.Sleeping? then Runnable else p.state) }

  function Killed(t: seq<Proc>, pid: int): seq<Proc>
  {
    var k := FirstPid(t, pid);
    if k < |t| then t[k := Slain(t[k])] else t
  }

  // ---- allocproc ----

  function FirstUnused(t: seq<Proc>): (k: nat)
    ensures k <= |t| && (k < |t| ==> t[k].state.Unused?) && forall i | 0 <= i < k :: !t[i].state.Unused?
    decreases |t|
  {
    if t == [] || t[0].state.Unused? then 0 else FirstUnused(t[1..]) + 1
  }

  // ---- exit ----

  // The children of cur among the first k slots go to init, which is woken for each that is dead.
  function Reparented(t: seq<Proc>, cur: nat, init: nat, k: nat): (r: seq<Proc>)
    requires k <= |t|
    ensures |r| == |t|
  {
    if k == 0 then t else
      var s := Reparented(t, cur, init, k - 1);
      if s[k - 1].parent != Some(cur) then s else
        var u := s[k - 1 := s[k - 1].(parent := Some(init))];
        if s[k - 1].state.Zombie? then Woken(u, OfProc(init)) else u
  }

  function ParentChan(p: Proc): Chan { if p.parent.Some? then OfProc(p.parent.value) else NoChan }

  function Exited(t: seq<Proc>, cur: nat, init: nat): (r: seq<Proc>)
    requires cur < |t|
    ensures |r| == |t|
  {
    var s := Woken(t, ParentChan(t[cur]));
    var u := Reparented(s, cur, init, |s|);
    u[cur := u[cur].(state := Zombie)]
  }

  // A child of cur among the first k slots is dead.
  ghost predicate DeadChild(t: seq<Proc>, cur: nat, k: nat)
  {
    exists i :: 0 <= i < k && i < |t| && t[i].parent == Some(cur) && t[i].state.Zombie?
  }

  lemma {:induction false} ReparentedAt(t: seq<Proc>, cur: nat, init: nat, k: nat, q: nat)
    requires k <= |t| && q < |t|
    ensures var p := Reparented(t, cur, init, k)[q];
      && p.parent == (if q < k && t[q].parent == Some(cur) then Some(init) else t[q].parent)
      && p.pid == t[q].pid && p.chan == t[q].chan && p.killed == t[q].killed
      && p.state == (if DeadChild(t, cur, k) then Wake(t[q], OfProc(init)).state else t[q].state)
  {
    if k > 0 {
      ReparentedAt(t, cur, init, k - 1, q);
      ReparentedAt(t, cur, init, k - 1, k - 1);
      assert DeadChild(t, cur, k) <==>
               DeadChild(t, cur, k - 1) || (t[k - 1].parent == Some(cur) && t[k - 1].state.Zombie?);
    }
  }

  ghost function ExitSlot(t: seq<Proc>, cur: nat, init: nat, q: nat): Proc
    requires cur < |t| && q < |t|
  {
    t[q].(parent := if t[q].parent == Some(cur) then Some(init) else t[q].parent,
          state := if q == cur then Zombie
                   else if t[q].state.Sleeping? && (t[q].chan == ParentChan(t[cur]) ||
                                                    (t[q].chan == OfProc(init) && DeadChild(t, cur, |t|)))
                   then Runnable else t[q].state)
  }

  // What exit leaves in each slot.
  lemma ExitedAt(t: seq<Proc>, cur: nat, init: nat, q: nat)
    requires cur < |t| && q < |t| && !t[cur].state.Zombie?
    ensures Exited(t, cur, init)[q] == ExitSlot(t, cur, init, q)
  {
    var s := Woken(t, ParentChan(t[cur]));
    ReparentedAt(s, cur, init, |s|, q);
    ReparentedAt(s, cur, init, |s|, cur);
    assert DeadChild(s, cur, |s|) <==> DeadChild(t, cur, |t|) by {
      if DeadChild(s, cur, |s|) {
        var i :| 0 <= i < |s| && s[i].parent == Some(cur) && s[i].state.Zombie?;
        assert t[i].parent == Some(cur) && t[i].state.Zombie?;
      }
      if DeadChild(t, cur, |t|) {
        var i :| 0 <= i < |t| && t[i].parent == Some(cur) && t[i].state.Zombie?;
        assert s[i].parent == Some(cur) && s[i].state.Zombie?;
      }
    }
  }

  // ---- wait ----

  predicate DeadKid(p: Proc, cur: nat) { p.parent == Some(cur) && p.state.Zombie? }

  function FirstDead(t: seq<Proc>, cur: nat): (k: nat)
    ensures k <= |t| && (k < |t| ==> DeadKid(t[k], cur)) && forall i | 0 <= i < k :: !DeadKid(t[i], cur)
    decreases |t|
  {
    if t == [] || DeadKid(t[0], cur) then 0 else FirstDead(t[1..], cur) + 1
  }

  predicate HasKids(t: seq<Proc>, cur: nat) { exists i :: 0 <= i < |t| && t[i].parent == Some(cur) }

  // One pass of wait: a child reaped, nothing to wait for, or sleep.
  datatype Pass = Reap(slot: nat, pid: int) | Fail | Sleep

  function WaitPass(t: seq<Proc>, cur: nat): Pass
    requires cur < |t|
  {
    var k := FirstDead(t, cur);
    if k < |t| then Reap(k, t[k].pid)
    else if !HasKids(t, cur) || t[cur].killed then Fail
    else Sleep
  }

  function Waited(t: seq<Proc>, cur: nat): (r: seq<Proc>)
    requires cur < |t|
    ensures |r| == |t|
  {
    match WaitPass(t, cur)
    case Reap(k, _) => t[k := Proc(Unused, 0, None, t[k].chan, false)]
    case Fail => t
    case Sleep => t[cur := t[cur].(chan := OfProc(cur), state := Sleeping)]
  }

  // ---- The table ----

  class Ptable {
    const proc: array<Proc>
    var nextpid: int

    constructor (n: nat)
      ensures fresh(proc) && proc.Length == n && nextpid == 1
      ensures forall i | 0 <= i < n :: proc[i] == Proc(Unused, 0, None, NoChan, false)
    {
      proc := new Proc[n](i => Proc(Unused, 0, None, NoChan, false));
      nextpid := 1;
    }

    method Wakeup1(chan: Chan)
      modifies proc
      ensures proc[..] == Woken(old(proc[..]), chan)
      ensures forall i | 0 <= i < proc.Length :: proc[i] ==
                var p := old(proc[i]);
                if p.state == Sleeping && p.chan == chan then p.(state := Runnable) else p
    {
      ghost var t := proc[..];
      var i := 0;
      while i < proc.Length
        invariant 0 <= i <= proc.Length
        invariant forall j | 0 <= j < proc.Length :: proc[j] == if j < i then Wake(t[j], chan) else t[j]
      {
        if proc[i].state.Sleeping? && proc[i].chan == chan {
          proc[i] := proc[i].(state := Runnable);
        }
        i := i + 1;
      }
    }

    method Kill(pid: int) returns (r: int)
      modifies proc
      ensures proc[..] == Killed(old(proc[..]), pid)
      ensures r == 0 || r == -1
      ensures r == 0 <==> exists i | 0 <= i < proc.Length :: old(proc[i]).pid == pid
      // The first process with the pid is marked, and woken if it slept; no other is touched.
      ensures forall i | 0 <= i < proc.Length :: proc[i] ==
                var p := old(proc[i]);
                if p.pid == pid && forall j | 0 <= j < i :: old(proc[j]).pid != pid
                then p.(killed := true, state := if p.state == Sleeping then Runnable else p.state) else p
    {
      ghost var t := proc[..];
      var i := 0;
      while i < proc.Length
        invariant 0 <= i <= proc.Length && proc[..] == t
        invariant forall j | 0 <= j < i :: t[j].pid != pid
      {
        if proc[i].pid == pid {
          assert FirstPid(t, pid) == i;
          proc[i] := proc[i].(killed := true);
          if proc[i].state.Sleeping? {
            proc[i] := proc[i].(state := Runnable);
          }
          assert proc[..] == t[i := Slain(t[i])];
          return 0;
        }
        i := i + 1;
      }
      assert FirstPid(t, pid) == |t|;
      r := -1;
    }

    // The part of allocproc under the lock.
    method AllocProc() returns (r: Option<nat>)
      modifies this, proc
      ensures r.None? <==> forall i | 0 <= i < proc.Length :: !old(proc[i]).state.Unused?
      ensures r.None? ==> proc[..] == old(proc[..]) && nextpid == old(nextpid)
      ensures r.Some? ==> r.value == FirstUnused(old(proc[..])) && r.value < proc.Length && nextpid == old(nextpid) + 1
      ensures r.Some? ==>
                proc[..] == old(proc[..])[r.value := old(proc[..])[r.value].(state := Embryo, pid := old(nextpid))]
    {
      ghost var t := proc[..];
      var i := 0;
      while i < proc.Length
        invariant 0 <= i <= proc.Length && proc[..] == t && nextpid == old(nextpid)
        invariant forall j | 0 <= j < i :: !t[j].state.Unused?
      {
        if proc[i].state.Unused? {
          assert FirstUnused(t) == i;
          proc[i] := proc[i].(state := Embryo, pid := nextpid);
          nextpid := nextpid + 1;
          return Some(i);
        }
        i := i + 1;
      }
      r := None;
    }

    // The part of exit under the lock, up to sched.
    method Exit(cur: nat, init: nat)
      requires cur < proc.Length
      modifies proc
      ensures proc[..] == Exited(old(proc[..]), cur, init)
      // The process is dead, its children go to init, and whoever waits in its parent is woken; so is init if it gets a
      // dead child.
      ensures !old(proc[cur]).state.Zombie? ==>
                forall q | 0 <= q < proc.Length ::
                  var p, parent := old(proc[q]), old(proc[cur]).parent;
                  proc[q] ==
                    p.(parent := if p.parent == Some(cur) then Some(init) else p.parent,
                       state := if q == cur then Zombie
                                else if p.state == Sleeping && (
                                       || p.chan == (if parent.Some? then OfProc(parent.value) else NoChan)
                                       || (p.chan == OfProc(init) &&
                                           exists k | 0 <= k < proc.Length ::
                                             old(proc[k]).parent == Some(cur) && old(proc[k]).state == Zombie))
                                then Runnable else p.state)
    {
      Wakeup1(ParentChan(proc[cur]));
      ghost var s := proc[..];
      var i := 0;
      while i < proc.Length
        invariant 0 <= i <= proc.Length && |s| == proc.Length
        invariant proc[..] == Reparented(s, cur, init, i)
      {
        if proc[i].parent == Some(cur) {
          var dead := proc[i].state.Zombie?;
          ghost var before := proc[..];
          proc[i] := proc[i].(parent := Some(init));
          assert proc[..] == before[i := before[i].(parent := Some(init))];
          if dead {
            Wakeup1(OfProc(init));
          }
        }
        i := i + 1;
      }
      ghost var u := proc[..];
      proc[cur] := proc[cur].(state := Zombie);
      assert proc[..] == u[cur := u[cur].(state := Zombie)];
      hide Exited;
      if !old(proc[cur]).state.Zombie? {
        ghost var was := old(proc[..]);
        assert DeadChild(was, cur, |was|) <==>
                 exists k | 0 <= k < proc.Length ::
                   old(proc[k]).parent == Some(cur) && old(proc[k]).state == Zombie by {
          assert forall k | 0 <= k < proc.Length :: was[k] == old(proc[k]);
        }
        forall q | 0 <= q < proc.Length ensures proc[q] == ExitSlot(was, cur, init, q) {
          ExitedAt(old(proc[..]), cur, init, q);
        }
      }
    }

    // One pass of wait's outer loop, up to the return or the sleep.
    method Wait(cur: nat) returns (pass: Pass)
      requires cur < proc.Length
      modifies proc
      ensures pass == WaitPass(old(proc[..]), cur) && proc[..] == Waited(old(proc[..]), cur)
      // A dead child is reaped, the first there is, and its slot becomes unused.
      ensures pass.Reap? <==>
                exists i | 0 <= i < proc.Length :: old(proc[i]).parent == Some(cur) && old(proc[i]).state == Zombie
      ensures pass.Reap? ==> pass.slot < proc.Length && pass.pid == old(proc[pass.slot]).pid
      ensures pass.Reap? ==> old(proc[pass.slot]).parent == Some(cur) && old(proc[pass.slot]).state == Zombie
      ensures pass.Reap? ==>
                forall i | 0 <= i < pass.slot :: !(old(proc[i]).parent == Some(cur) && old(proc[i]).state == Zombie)
      ensures pass.Reap? ==> proc[pass.slot] == Proc(Unused, 0, None, old(proc[pass.slot]).chan, false)
      // With children and none of them dead the process sleeps on itself, unless it has been killed.
      ensures pass.Sleep? <==>
                && (exists i | 0 <= i < proc.Length :: old(proc[i]).parent == Some(cur)) && !old(proc[cur]).killed
                && forall i | 0 <= i < proc.Length ::
                     !(old(proc[i]).parent == Some(cur) && old(proc[i]).state == Zombie)
      ensures pass.Sleep? ==> proc[cur] == old(proc[cur]).(state := Sleeping, chan := OfProc(cur))
      // Nothing else changes.
      ensures forall i | 0 <= i < proc.Length && !(pass.Reap? && i == pass.slot) && !(pass.Sleep? && i == cur) ::
                proc[i] == old(proc[i])
    {
      ghost var t := proc[..];
      var havekids, i := false, 0;
      while i < proc.Length
        invariant 0 <= i <= proc.Length && proc[..] == t
        invariant havekids <==> exists j :: 0 <= j < i && t[j].parent == Some(cur)
        invariant forall j | 0 <= j < i :: !DeadKid(t[j], cur)
      {
        if proc[i].parent == Some(cur) {
          havekids := true;
          if proc[i].state.Zombie? {
            assert FirstDead(t, cur) == i && t[i] == old(proc[i]);
            var pid := proc[i].pid;
            proc[i] := Proc(Unused, 0, None, proc[i].chan, false);
            assert proc[..] == t[i := Proc(Unused, 0, None, t[i].chan, false)];
            return Reap(i, pid);
          }
        }
        i := i + 1;
      }
      assert FirstDead(t, cur) == |t|;
      if !havekids || proc[cur].killed {
        return Fail;
      }
      proc[cur] := proc[cur].(chan := OfProc(cur), state := Sleeping);
      assert proc[..] == t[cur := t[cur].(chan := OfProc(cur), state := Sleeping)];
      pass := Sleep;
    }
  }
}
