/**
 Processes that fork, exit and wait, as a machine whose steps are the critical sections under
 ptable.lock (and the few writes fork makes without it).  Its states are those with the lock free.
 */
module ExitWait {

  import opened Bytes
  import opened ProcTable

  // How far process r is in making a child.
  datatype Forking = No | Made(child: nat) | Adopted(child: nat)

  // reaped: the pids that wait has returned so far
  datatype World = World(t: seq<Proc>, nextpid: int, fork: seq<Forking>, reaped: set<int>)

  datatype Event =
    | Dispatch(p: nat)
    | Yield(p: nat)
    | SleepOn(p: nat, a: nat)
    | WakeupOn(a: nat)
    | KillPid(pid: int)
    | ForkStart(p: nat)
    | ForkFail(p: nat)
    | ForkAdopt(p: nat)
    | ForkReady(p: nat)
    | ExitProc(p: nat)
    | WaitProc(p: nat)

  predicate Live(s: ProcState) { s.Sleeping? || s.Runnable? || s.Running? }

  predicate Acts(w: World, p: nat) { p < |w.t| && p < |w.fork| && w.t[p].state.Running? && w.fork[p].No? }

  ghost predicate Next(w: World, e: Event, w': World, init: nat)
  {
    match e
    case Dispatch(p) =>
      && p < |w.t| && w.t[p].state.Runnable? && w' == w.(t := w.t[p := w.t[p].(state := Running, chan := NoChan)])
    case Yield(p) => p < |w.t| && w.t[p].state.Running? && w' == w.(t := w.t[p := w.t[p].(state := Runnable)])
    case SleepOn(p, a) => Acts(w, p) && w' == w.(t := w.t[p := w.t[p].(state := Sleeping, chan := Addr(a))])
    case WakeupOn(a) => w' == w.(t := Woken(w.t, Addr(a)))
    case KillPid(pid) => w' == w.(t := Killed(w.t, pid))
    case ForkStart(p) =>
      var q := FirstUnused(w.t);
      && Acts(w, p) && q < |w.t|
      && w' == w.(t := w.t[q := w.t[q].(state := Embryo, pid := w.nextpid)], nextpid := w.nextpid + 1,
                  fork := w.fork[p := Made(q)])
    case ForkFail(p) =>
      && p < |w.t| && p < |w.fork| && w.t[p].state.Running? && w.fork[p].Made? && w.fork[p].child < |w.t|
      && w' == w.(t := w.t[w.fork[p].child := w.t[w.fork[p].child].(state := Unused)], fork := w.fork[p := No])
    case ForkAdopt(p) =>
      && p < |w.t| && p < |w.fork| && w.t[p].state.Running? && w.fork[p].Made? && w.fork[p].child < |w.t|
      && w' == w.(t := w.t[w.fork[p].child := w.t[w.fork[p].child].(parent := Some(p))],
                  fork := w.fork[p := Adopted(w.fork[p].child)])
    case ForkReady(p) =>
      && p < |w.t| && p < |w.fork| && w.t[p].state.Running? && w.fork[p].Adopted? && w.fork[p].child < |w.t|
      && w' == w.(t := w.t[w.fork[p].child := w.t[w.fork[p].child].(state := Runnable)], fork := w.fork[p := No])
    case ExitProc(p) => Acts(w, p) && p != init && w' == w.(t := Exited(w.t, p, init))
    case WaitProc(p) =>
      && Acts(w, p)
      && w' == w.(t := Waited(w.t, p),
                  reaped := w.reaped + (match WaitPass(w.t, p) case Reap(_, pid) => {pid} case _ => {}))
  }

  // userinit has made the first process, and there is no other.
  ghost predicate Initial(w: World, init: nat)
  {
    && init < |w.t| == |w.fork| && w.t[init].state.Runnable? && 0 <= w.t[init].pid < w.nextpid && w.t[init].parent.None?
    && w.reaped == {}
    && (forall q | 0 <= q < |w.t| :: w.fork[q].No? && (q != init ==> w.t[q].state.Unused? && w.t[q].parent.None?))
  }

  ghost predicate Linked(ws: seq<World>, es: seq<Event>, init: nat, k: nat)
  {
    k < |es| && k + 1 < |ws| ==> Next(ws[k], es[k], ws[k + 1], init)
  }

  ghost predicate Run(ws: seq<World>, es: seq<Event>, init: nat)
  {
    && |ws| == |es| + 1 && Initial(ws[0], init)
    && forall k: nat {:trigger Linked(ws, es, init, k)} :: Linked(ws, es, init, k)
  }

  // ---- What every step keeps ----

  ghost predicate ParentOk(w: World, init: nat, q: nat)
  {
    q < |w.t| && q != init && (Live(w.t[q].state) || w.t[q].state.Zombie?) ==>
      && w.t[q].parent.Some? && w.t[q].parent.value < |w.t| && w.t[q].parent.value != q
      && Live(w.t[w.t[q].parent.value].state)
  }

  // The child in the making is an embryo without a parent, or with its maker for one.
  ghost predicate ForkOk(w: World, r: nat)
  {
    r < |w.fork| && r < |w.t| && !w.fork[r].No? ==>
      && w.fork[r].child < |w.t| && w.t[w.fork[r].child].state.Embryo? && Live(w.t[r].state) && !w.t[r].state.Sleeping?
      && w.t[w.fork[r].child].parent == if w.fork[r].Made? then None else Some(r)
  }

  ghost predicate ForkApart(w: World, r: nat, s: nat)
  {
    r < |w.fork| && s < |w.fork| && !w.fork[r].No? && !w.fork[s].No? && w.fork[r].child == w.fork[s].child ==> r == s
  }

  ghost predicate UnusedOk(w: World, q: nat) { q < |w.t| && w.t[q].state.Unused? ==> w.t[q].parent.None? }

  // Only a process itself sleeps on its own slot, in wait, and then none of its children is dead.
  ghost predicate ChanOk(w: World, p: nat)
  {
    p < |w.t| && w.t[p].state.Sleeping? && w.t[p].chan.OfProc? ==> w.t[p].chan.slot == p
  }

  ghost predicate WaitOk(w: World, p: nat, q: nat)
  {
    p < |w.t| && q < |w.t| && w.t[p].state.Sleeping? && w.t[p].chan == OfProc(p) && w.t[q].parent == Some(p) ==>
      !w.t[q].state.Zombie?
  }

  ghost predicate PidOk(w: World, q: nat)
  {
    q < |w.t| && !w.t[q].state.Unused? ==> w.t[q].pid < w.nextpid && w.t[q].pid !in w.reaped
  }

  ghost predicate PidApart(w: World, q: nat, r: nat)
  {
    q < |w.t| && r < |w.t| && !w.t[q].state.Unused? && !w.t[r].state.Unused? && w.t[q].pid == w.t[r].pid ==> q == r
  }

  ghost predicate Inv(w: World, init: nat)
  {
    && init < |w.t| == |w.fork| && Live(w.t[init].state) && w.t[init].parent.None?
    && (forall q: nat {:trigger ParentOk(w, init, q)} :: ParentOk(w, init, q))
    && (forall r: nat {:trigger ForkOk(w, r)} :: ForkOk(w, r))
    && (forall r: nat, s: nat {:trigger ForkApart(w, r, s)} :: ForkApart(w, r, s))
    && (forall q: nat {:trigger UnusedOk(w, q)} :: UnusedOk(w, q))
    && (forall p: nat {:trigger ChanOk(w, p)} :: ChanOk(w, p))
    && (forall p: nat, q: nat {:trigger WaitOk(w, p, q)} :: WaitOk(w, p, q))
    && (forall q: nat {:trigger PidOk(w, q)} :: PidOk(w, q))
    && (forall q: nat, r: nat {:trigger PidApart(w, q, r)} :: PidApart(w, q, r))
    && (forall pid: int {:trigger pid in w.reaped} | pid in w.reaped :: pid < w.nextpid)
  }

  lemma InitialOk(w: World, init: nat)
    requires Initial(w, init)
    ensures Inv(w, init)
  {
  }

  // Slot q moves among the live states, and does not start waiting.
  ghost predicate ShuffleAt(w: World, w': World, q: nat)
  {
    q < |w.t| && q < |w'.t| ==>
      var p, p' := w.t[q], w'.t[q];
      && p'.pid == p.pid && p'.parent == p.parent && (p'.state == p.state || (Live(p.state) && Live(p'.state)))
      && (p'.state.Sleeping? && p'.chan.OfProc? ==> p.state.Sleeping? && p.chan == p'.chan)
      && (p'.state.Sleeping? && !p.state.Sleeping? ==> q < |w.fork| && w.fork[q].No?)
  }

  lemma ShuffleKeeps(w: World, w': World, init: nat)
    requires Inv(w, init) && |w'.t| == |w.t| && w' == w.(t := w'.t)
    requires forall q: nat {:trigger ShuffleAt(w, w', q)} :: ShuffleAt(w, w', q)
    ensures Inv(w', init)
  {
    assert ShuffleAt(w, w', init);
    forall q: nat ensures ParentOk(w', init, q) {
      assert ParentOk(w, init, q) && ShuffleAt(w, w', q);
      if q < |w.t| && w.t[q].parent.Some? {
        assert ShuffleAt(w, w', w.t[q].parent.value);
      }
    }
    forall r: nat ensures ForkOk(w', r) {
      assert ForkOk(w, r) && ShuffleAt(w, w', r);
      if r < |w.fork| && !w.fork[r].No? {
        assert ShuffleAt(w, w', w.fork[r].child);
      }
    }
    forall r: nat, s: nat ensures ForkApart(w', r, s) {
      assert ForkApart(w, r, s);
    }
    forall q: nat ensures UnusedOk(w', q) && ChanOk(w', q) && PidOk(w', q) {
      assert ShuffleAt(w, w', q) && UnusedOk(w, q) && ChanOk(w, q) && PidOk(w, q);
    }
    forall p: nat, q: nat ensures WaitOk(w', p, q) {
      assert ShuffleAt(w, w', p) && ShuffleAt(w, w', q) && WaitOk(w, p, q);
    }
    forall p: nat, q: nat ensures PidApart(w', p, q) {
      assert ShuffleAt(w, w', p) && ShuffleAt(w, w', q) && PidApart(w, p, q);
    }
  }

  lemma ShuffleEvent(w: World, e: Event, w': World, init: nat)
    requires Inv(w, init) && Next(w, e, w', init)
    requires e.Dispatch? || e.Yield? || e.SleepOn? || e.WakeupOn? || e.KillPid?
    ensures Inv(w', init)
  {
    forall q: nat ensures ShuffleAt(w, w', q) {
    }
    ShuffleKeeps(w, w', init);
  }

  // An unused slot c becomes the embryo that p makes.
  lemma StartKeeps(w: World, p: nat, c: nat, w': World, init: nat)
    requires Inv(w, init) && Acts(w, p) && c < |w.t| && w.t[c].state.Unused?
    requires w' == w.(t := w.t[c := w.t[c].(state := Embryo, pid := w.nextpid)], nextpid := w.nextpid + 1,
                      fork := w.fork[p := Made(c)])
    ensures Inv(w', init)
  {
    hide FirstUnused;
    assert UnusedOk(w, c);
    forall q: nat ensures ParentOk(w', init, q) {
      assert ParentOk(w, init, q);
    }
    forall r: nat ensures ForkOk(w', r) {
      assert ForkOk(w, r) && ForkApart(w, r, p);
    }
    forall r: nat, s: nat ensures ForkApart(w', r, s) {
      assert ForkApart(w, r, s) && ForkOk(w, r) && ForkOk(w, s);
    }
    forall q: nat ensures UnusedOk(w', q) && ChanOk(w', q) && PidOk(w', q) {
      assert UnusedOk(w, q) && ChanOk(w, q) && PidOk(w, q) && PidOk(w, c);
    }
    forall r: nat, q: nat ensures WaitOk(w', r, q) {
      assert WaitOk(w, r, q);
    }
    forall r: nat, q: nat ensures PidApart(w', r, q) {
      assert PidApart(w, r, q) && PidOk(w, r) && PidOk(w, q);
    }
  }

  // The embryo c that p makes is given up, gets its parent, or comes to life.
  lemma ChildKeeps(w: World, p: nat, c: nat, child: Proc, f: Forking, w': World, init: nat)
    requires Inv(w, init) && p < |w.t| && w.t[p].state.Running? && !w.fork[p].No? && c == w.fork[p].child < |w.t|
    requires w' == w.(t := w.t[c := child], fork := w.fork[p := f])
    requires || (w.fork[p].Made? && child == w.t[c].(state := Unused) && f == No)
             || (w.fork[p].Made? && child == w.t[c].(parent := Some(p)) && f == Adopted(c))
             || (w.fork[p].Adopted? && child == w.t[c].(state := Runnable) && f == No)
    ensures Inv(w', init)
  {
    hide FirstUnused;
    assert ForkOk(w, p);
    forall q: nat ensures ParentOk(w', init, q) {
      assert ParentOk(w, init, q);
    }
    forall r: nat ensures ForkOk(w', r) {
      assert ForkOk(w, r) && ForkApart(w, r, p);
    }
    forall r: nat, s: nat ensures ForkApart(w', r, s) {
      assert ForkApart(w, r, s) && ForkOk(w, r) && ForkOk(w, s);
    }
    forall q: nat ensures UnusedOk(w', q) && ChanOk(w', q) && PidOk(w', q) {
      assert UnusedOk(w, q) && ChanOk(w, q) && PidOk(w, q) && PidOk(w, c);
    }
    forall r: nat, q: nat ensures WaitOk(w', r, q) {
      assert WaitOk(w, r, q);
    }
    forall r: nat, q: nat ensures PidApart(w', r, q) {
      assert PidApart(w, r, q) && PidOk(w, r) && PidOk(w, q);
    }
  }

  lemma ForkEvent(w: World, e: Event, w': World, init: nat)
    requires Inv(w, init) && Next(w, e, w', init)
    requires e.ForkStart? || e.ForkFail? || e.ForkAdopt? || e.ForkReady?
    ensures Inv(w', init)
  {
    hide Inv;
    if e.ForkStart? {
      StartKeeps(w, e.p, FirstUnused(w.t), w', init);
    } else {
      var c := w.fork[e.p].child;
      Sizes(w, init);
      ChildKeeps(w, e.p, c, w'.t[c], w'.fork[e.p], w', init);
    }
  }

  lemma Sizes(w: World, init: nat)
    requires Inv(w, init)
    ensures |w.t| == |w.fork|
  {
  }

  // Init and the parent are woken before cur is dead; its children, dead or not, are init's.
  lemma ExitEvent(w: World, e: Event, w': World, init: nat)
    requires Inv(w, init) && Next(w, e, w', init) && e.ExitProc?
    ensures Inv(w', init)
  {
    var cur := e.p;
    assert ParentOk(w, init, cur) && ForkOk(w, cur);
    ExitedAt(w.t, cur, init, init);
    forall q: nat ensures ParentOk(w', init, q) {
      ExitParent(w, cur, w', init, q);
    }
    forall r: nat ensures ForkOk(w', r) {
      assert ForkOk(w, r);
      if r < |w.fork| && !w.fork[r].No? {
        ExitedAt(w.t, cur, init, r);
        ExitedAt(w.t, cur, init, w.fork[r].child);
      }
    }
    forall r: nat, s: nat ensures ForkApart(w', r, s) {
      assert ForkApart(w, r, s);
    }
    forall q: nat ensures UnusedOk(w', q) && ChanOk(w', q) && PidOk(w', q) {
      assert UnusedOk(w, q) && ChanOk(w, q) && PidOk(w, q);
      if q < |w.t| {
        ExitedAt(w.t, cur, init, q);
      }
    }
    forall p: nat, q: nat ensures WaitOk(w', p, q) {
      ExitWaiter(w, cur, w', init, p, q);
    }
    forall p: nat, q: nat ensures PidApart(w', p, q) {
      assert PidApart(w, p, q);
      if p < |w.t| && q < |w.t| {
        ExitedAt(w.t, cur, init, p);
        ExitedAt(w.t, cur, init, q);
      }
    }
  }

  lemma ExitParent(w: World, cur: nat, w': World, init: nat, q: nat)
    requires Inv(w, init) && Acts(w, cur) && cur != init && w' == w.(t := Exited(w.t, cur, init))
    ensures ParentOk(w', init, q)
  {
    hide Exited;
    assert ParentOk(w, init, q) && ParentOk(w, init, cur);
    if q < |w.t| && q != init {
      ExitedAt(w.t, cur, init, q);
      ExitedAt(w.t, cur, init, init);
      if w.t[q].parent.Some? && w.t[q].parent.value < |w.t| {
        ExitedAt(w.t, cur, init, w.t[q].parent.value);
      }
    }
  }

  lemma ExitWaiter(w: World, cur: nat, w': World, init: nat, p: nat, q: nat)
    requires Inv(w, init) && Acts(w, cur) && cur != init && w' == w.(t := Exited(w.t, cur, init))
    ensures WaitOk(w', p, q)
  {
    hide Exited;
    hide DeadChild;
    assert ParentOk(w, init, cur) && WaitOk(w, p, q) && ChanOk(w, p);
    if p < |w.t| && q < |w.t| {
      ExitedAt(w.t, cur, init, p);
      ExitedAt(w.t, cur, init, q);
      Dead(w.t, cur, q);
    }
  }

  lemma Dead(t: seq<Proc>, cur: nat, q: nat)
    requires q < |t|
    ensures t[q].parent == Some(cur) && t[q].state.Zombie? ==> DeadChild(t, cur, |t|)
  {
  }

  lemma WaitEvent(w: World, e: Event, w': World, init: nat)
    requires Inv(w, init) && Next(w, e, w', init) && e.WaitProc?
    ensures Inv(w', init)
  {
    var cur := e.p;
    match WaitPass(w.t, cur)
    case Fail =>
      assert w'.t == w.t && w'.reaped == w.reaped;
      assert w' == w;
    case Reap(k, pid) => ReapKeeps(w, cur, k, w', init);
    case Sleep => SleepKeeps(w, cur, w', init);
  }

  lemma ReapKeeps(w: World, cur: nat, k: nat, w': World, init: nat)
    requires Inv(w, init) && Acts(w, cur) && k < |w.t| && DeadKid(w.t[k], cur)
    requires w' == w.(t := w.t[k := Proc(Unused, 0, None, w.t[k].chan, false)], reaped := w.reaped + {w.t[k].pid})
    ensures Inv(w', init)
  {
    forall q: nat ensures ParentOk(w', init, q) {
      assert ParentOk(w, init, q);
    }
    forall r: nat ensures ForkOk(w', r) {
      assert ForkOk(w, r);
    }
    forall r: nat, s: nat ensures ForkApart(w', r, s) {
      assert ForkApart(w, r, s);
    }
    forall q: nat ensures UnusedOk(w', q) && ChanOk(w', q) && PidOk(w', q) {
      assert UnusedOk(w, q) && ChanOk(w, q) && PidOk(w, q) && PidOk(w, k) && PidApart(w, q, k);
    }
    forall p: nat, q: nat ensures WaitOk(w', p, q) {
      assert WaitOk(w, p, q);
    }
    forall p: nat, q: nat ensures PidApart(w', p, q) {
      assert PidApart(w, p, q);
    }
    assert PidOk(w, k);
  }

  lemma SleepKeeps(w: World, cur: nat, w': World, init: nat)
    requires Inv(w, init) && Acts(w, cur) && FirstDead(w.t, cur) == |w.t|
    requires w'.t == w.t[cur := w.t[cur].(chan := OfProc(cur), state := Sleeping)]
    requires w' == w.(t := w'.t, reaped := w'.reaped) && w'.reaped == w.reaped
    ensures Inv(w', init)
  {
    forall q: nat ensures ParentOk(w', init, q) {
      assert ParentOk(w, init, q);
    }
    forall r: nat ensures ForkOk(w', r) {
      assert ForkOk(w, r);
    }
    forall r: nat, s: nat ensures ForkApart(w', r, s) {
      assert ForkApart(w, r, s);
    }
    forall q: nat ensures UnusedOk(w', q) && ChanOk(w', q) && PidOk(w', q) {
      assert UnusedOk(w, q) && ChanOk(w, q) && PidOk(w, q);
    }
    forall p: nat, q: nat ensures WaitOk(w', p, q) {
      assert WaitOk(w, p, q);
      assert q < |w.t| ==> !DeadKid(w.t[q], cur);
    }
    forall p: nat, q: nat ensures PidApart(w', p, q) {
      assert PidApart(w, p, q);
    }
  }

  lemma {:induction false} Reachable(ws: seq<World>, es: seq<Event>, init: nat, k: nat)
    requires Run(ws, es, init) && k < |ws|
    ensures Inv(ws[k], init)
  {
    hide Inv;
    hide Next;
    if k == 0 {
      InitialOk(ws[0], init);
    } else {
      Reachable(ws, es, init, k - 1);
      assert Linked(ws, es, init, k - 1);
      var e := es[k - 1];
      if e.ExitProc? {
        ExitEvent(ws[k - 1], e, ws[k], init);
      } else if e.WaitProc? {
        WaitEvent(ws[k - 1], e, ws[k], init);
      } else if e.ForkStart? || e.ForkFail? || e.ForkAdopt? || e.ForkReady? {
        ForkEvent(ws[k - 1], e, ws[k], init);
      } else {
        ShuffleEvent(ws[k - 1], e, ws[k], init);
      }
    }
  }

  // ---- Main results ----

  // Every process but init, alive or dead, has a live parent.
  lemma ParentsLive(ws: seq<World>, es: seq<Event>, init: nat, k: nat, q: nat)
    requires Run(ws, es, init) && k < |ws| && q < |ws[k].t| && q != init
    requires Live(ws[k].t[q].state) || ws[k].t[q].state.Zombie?
    ensures var p := ws[k].t[q].parent; p.Some? && p.value < |ws[k].t| && Live(ws[k].t[p.value].state)
  {
    Reachable(ws, es, init, k);
    assert ParentOk(ws[k], init, q);
  }

  // No process sleeps in wait while a child of its is dead.
  lemma NoMissedExit(ws: seq<World>, es: seq<Event>, init: nat, k: nat, p: nat, q: nat)
    requires Run(ws, es, init) && k < |ws| && p < |ws[k].t| && q < |ws[k].t|
    requires ws[k].t[p].state.Sleeping? && ws[k].t[p].chan == OfProc(p) && ws[k].t[q].parent == Some(p)
    ensures !ws[k].t[q].state.Zombie?
  {
    Reachable(ws, es, init, k);
    assert WaitOk(ws[k], p, q);
  }

  // The step from k returns pid from wait.
  ghost predicate Reaps(ws: seq<World>, es: seq<Event>, k: nat, pid: int)
  {
    && k < |es| && k < |ws| && es[k].WaitProc? && es[k].p < |ws[k].t|
    && WaitPass(ws[k].t, es[k].p).Reap? && WaitPass(ws[k].t, es[k].p).pid == pid
  }

  lemma {:induction false} ReapedGrows(ws: seq<World>, es: seq<Event>, init: nat, j: nat, k: nat)
    requires Run(ws, es, init) && j <= k < |ws|
    ensures ws[j].reaped <= ws[k].reaped
    decreases k
  {
    if j < k {
      ReapedGrows(ws, es, init, j, k - 1);
      assert Linked(ws, es, init, k - 1);
    }
  }

  lemma NotAgain(w: World, init: nat, p: nat)
    requires Inv(w, init) && p < |w.t|
    ensures WaitPass(w.t, p).Reap? ==> WaitPass(w.t, p).pid !in w.reaped
  {
    assert PidOk(w, FirstDead(w.t, p));
  }

  // Each process that dies is reaped at most once.
  lemma ReapedOnce(ws: seq<World>, es: seq<Event>, init: nat, j: nat, k: nat, pid: int)
    requires Run(ws, es, init) && j < k && Reaps(ws, es, j, pid)
    ensures !Reaps(ws, es, k, pid)
  {
    assert Linked(ws, es, init, j);
    if k < |es| {
      ReapedGrows(ws, es, init, j + 1, k);
      Reachable(ws, es, init, k);
      assert pid in ws[j + 1].reaped;
      if es[k].WaitProc? && es[k].p < |ws[k].t| {
        NotAgain(ws[k], init, es[k].p);
      }
    }
  }

  // ---- When wait returns, and when it sleeps ----

  ghost predicate HasChild(w: World, p: nat) { exists q | 0 <= q < |w.t| :: w.t[q].parent == Some(p) }

  ghost predicate HasDead(w: World, p: nat)
  {
    exists q | 0 <= q < |w.t| :: w.t[q].parent == Some(p) && w.t[q].state == Zombie
  }

  // wait returns the pid of a dead child exactly if there is one.  Otherwise it returns -1, and leaves the table as
  // it is, exactly if the process has no child or has been killed; and sleeps exactly if it has one and has not.
  lemma WaitOutcome(w: World, p: nat, w': World, init: nat)
    requires Next(w, WaitProc(p), w', init) && |w'.t| == |w.t|
    ensures HasDead(w, p) <==> exists q | 0 <= q < |w.t| ::
              && w.t[q].parent == Some(p) && w.t[q].state == Zombie
              && w'.t == w.t[q := w'.t[q]] && w'.t[q].state == Unused && w'.reaped == w.reaped + {w.t[q].pid}
    ensures !HasDead(w, p) ==> w'.reaped == w.reaped
    ensures !HasDead(w, p) && (!HasChild(w, p) || w.t[p].killed) ==> w' == w
    ensures !HasDead(w, p) && HasChild(w, p) && !w.t[p].killed ==>
              w'.t == w.t[p := w.t[p].(state := Sleeping, chan := OfProc(p))]
  {
    var k := FirstDead(w.t, p);
    if k < |w.t| {
      assert w.t[k].parent == Some(p) && w.t[k].state == Zombie && w'.t == w.t[k := w'.t[k]];
    } else {
      assert !HasDead(w, p);
    }
  }

  // In every run: a wait that comes back with nothing comes back to a process that has no child or has been
  // killed, and no process that has been killed goes to sleep in wait.
  lemma WaitReturns(ws: seq<World>, es: seq<Event>, init: nat, k: nat, p: nat)
    requires Run(ws, es, init) && k < |es| && es[k] == WaitProc(p)
    ensures p < |ws[k].t| == |ws[k + 1].t| && ws[k].t[p].state == Running
    ensures ws[k + 1] == ws[k] ==> !HasChild(ws[k], p) || ws[k].t[p].killed
    ensures ws[k + 1].t[p].state == Sleeping ==> !ws[k].t[p].killed && HasChild(ws[k], p) && !HasDead(ws[k], p)
  {
    Reachable(ws, es, init, k);
    Reachable(ws, es, init, k + 1);
    assert Linked(ws, es, init, k);
    WaitOutcome(ws[k], p, ws[k + 1], init);
  }
}
