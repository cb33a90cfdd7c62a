/**
 Admission to the log (begin_op, log_write, end_op of log.c) over every interleaving of
 file-system operations, where each operation logs at most `budget` distinct blocks.

 log_write tests for room before it takes the lock, so the test and the append are two steps.
 */
module LogReservation {
  import opened Bytes
  import opened LogImage

  // An operation between begin_op and end_op: the blocks it has logged, and the block it is
  // about to append if it is past the test in log_write.
  datatype Op = Op(logged: set<uint>, pending: Option<uint>)

  datatype State = State(lh: seq<uint>, ops: seq<Op>, committing: bool, panicked: bool)

  const INIT := State([], [], false, false)

  predicate Full(lh: seq<uint>, logsize: nat) { |lh| >= LOGSIZE || |lh| >= logsize - 1 }

  // begin_op goes on, rather than to sleep.
  predicate Admits(s: State)
  {
    !s.committing && |s.lh| + (|s.ops| + 1) * MAXOPBLOCKS <= LOGSIZE
  }

  function Begin(s: State): State { s.(ops := s.ops + [Op({}, None)]) }

  function Test(s: State, i: nat, b: uint, logsize: nat): State
    requires i < |s.ops|
  {
    if Full(s.lh, logsize) then s.(panicked := true)
    else s.(ops := s.ops[i := s.ops[i].(pending := Some(b))])
  }

  // Log absorption: a block already listed keeps its place.
  function Absorb(lh: seq<uint>, b: uint): seq<uint> { if b in lh then lh else lh + [b] }

  function Append(s: State, i: nat): State
    requires i < |s.ops| && s.ops[i].pending.Some?
  {
    var b := s.ops[i].pending.value;
    s.(lh := Absorb(s.lh, b), ops := s.ops[i := Op(s.ops[i].logged + {b}, None)])
  }

  function End(s: State, i: nat): State
    requires i < |s.ops|
  {
    if s.committing then s.(panicked := true)
    else s.(ops := s.ops[..i] + s.ops[i + 1..], committing := |s.ops| == 1)
  }

  ghost predicate Next(s: State, t: State, budget: nat, logsize: nat)
  {
    && !s.panicked
    && (|| (Admits(s) && t == Begin(s))
        || (exists i, b :: 0 <= i < |s.ops| && s.ops[i].pending == None
              && |s.ops[i].logged + {b}| <= budget && t == Test(s, i, b, logsize))
        || (exists i :: 0 <= i < |s.ops| && s.ops[i].pending.Some? && t == Append(s, i))
        || (exists i :: 0 <= i < |s.ops| && s.ops[i].pending == None && t == End(s, i))
        || (s.committing && t == s.(lh := []))                        // the end of commit
        || (s.committing && s.lh == [] && t == s.(committing := false)))
  }

  ghost predicate Run(states: seq<State>, budget: nat, logsize: nat)
  {
    && states != [] && states[0] == INIT
    && forall i, j | 0 <= i && j == i + 1 < |states| :: Next(states[i], states[j], budget, logsize)
  }

  // What the outstanding operations may still log.
  function Unused(ops: seq<Op>, budget: nat): int
  {
    if ops == [] then 0 else Unused(ops[..|ops| - 1], budget) + budget - |ops[|ops| - 1].logged|
  }

  lemma {:induction false} UnusedConcat(a: seq<Op>, b: seq<Op>, budget: nat)
    ensures Unused(a + b, budget) == Unused(a, budget) + Unused(b, budget)
  {
    if b == [] {
      assert a + b == a;
    } else {
      UnusedConcat(a, b[..|b| - 1], budget);
      assert (a + b)[..|a + b| - 1] == a + b[..|b| - 1];
    }
  }

  lemma UnusedSplit(ops: seq<Op>, i: nat, budget: nat)
    requires i < |ops|
    ensures Unused(ops, budget) == Unused(ops[..i], budget) + (budget - |ops[i].logged|) + Unused(ops[i + 1..], budget)
  {
    assert ops == ops[..i] + ([ops[i]] + ops[i + 1..]);
    UnusedConcat(ops[..i], [ops[i]] + ops[i + 1..], budget);
    UnusedConcat([ops[i]], ops[i + 1..], budget);
    assert [ops[i]][..0] == [];
  }

  lemma {:induction false} UnusedBounds(ops: seq<Op>, budget: nat)
    requires forall i | 0 <= i < |ops| :: |ops[i].logged| <= budget
    ensures 0 <= Unused(ops, budget) <= |ops| * budget
  {
    if ops != [] {
      UnusedBounds(ops[..|ops| - 1], budget);
    }
  }

  ghost predicate OpOk(op: Op, lh: seq<uint>, budget: nat)
  {
    && |op.logged| <= budget && (forall b | b in op.logged :: b in lh)
    && (op.pending.Some? ==> |op.logged + {op.pending.value}| <= budget)
  }

  // The reservation: what is listed and what may still come stay within a bound.
  ghost predicate Inv(s: State, budget: nat)
  {
    && (forall i | 0 <= i < |s.ops| :: OpOk(s.ops[i], s.lh, budget))
    && (forall i, j | 0 <= i < j < |s.lh| :: s.lh[i] != s.lh[j])
    && |s.lh| + Unused(s.ops, budget) <= MAXOPBLOCKS + 2 * budget
    && (s.committing ==> s.ops == [])
    && (s.ops == [] && !s.committing ==> s.lh == [])
  }

  lemma BeginKeeps(s: State, budget: nat)
    requires Inv(s, budget) && Admits(s) && budget <= MAXOPBLOCKS
    ensures Inv(Begin(s), budget)
  {
    UnusedConcat(s.ops, [Op({}, None)], budget);
    assert [Op({}, None)][..0] == [];
    UnusedBounds(s.ops, budget);
    Reserved(|s.ops| + 1, budget);
  }

  // What k operations may log, when there is room for k times MAXOPBLOCKS.
  lemma Reserved(k: nat, budget: nat)
    requires 0 < k && budget <= MAXOPBLOCKS
    ensures k * budget <= k * MAXOPBLOCKS
    ensures k == 1 || k * MAXOPBLOCKS >= k * budget + 2 * (MAXOPBLOCKS - budget)
  {
    var spare := MAXOPBLOCKS - budget;
    assert k * MAXOPBLOCKS == k * budget + k * spare;
    assert k == 1 || (k - 2) * spare >= 0;
  }

  lemma AppendKeeps(s: State, i: nat, budget: nat)
    requires Inv(s, budget) && i < |s.ops| && s.ops[i].pending.Some?
    ensures Inv(Append(s, i), budget)
  {
    var t := Append(s, i);
    UnusedSplit(s.ops, i, budget);
    UnusedSplit(t.ops, i, budget);
    assert t.ops[..i] == s.ops[..i] && t.ops[i + 1..] == s.ops[i + 1..];
    var b := s.ops[i].pending.value;
    assert OpOk(s.ops[i], s.lh, budget);
    assert b in s.ops[i].logged ==> s.ops[i].logged + {b} == s.ops[i].logged;
    forall j | 0 <= j < |t.ops| ensures OpOk(t.ops[j], t.lh, budget) {
      assert OpOk(s.ops[j], s.lh, budget);
    }
  }

  lemma TestKeeps(s: State, i: nat, b: uint, budget: nat, logsize: nat)
    requires Inv(s, budget) && i < |s.ops| && |s.ops[i].logged + {b}| <= budget
    ensures Inv(Test(s, i, b, logsize), budget)
  {
    var t := Test(s, i, b, logsize);
    if !Full(s.lh, logsize) {
      UnusedSplit(s.ops, i, budget);
      UnusedSplit(t.ops, i, budget);
      assert t.ops[..i] == s.ops[..i] && t.ops[i + 1..] == s.ops[i + 1..];
    }
  }

  lemma EndKeeps(s: State, i: nat, budget: nat)
    requires Inv(s, budget) && i < |s.ops|
    ensures Inv(End(s, i), budget) && End(s, i).panicked == s.panicked
  {
    UnusedSplit(s.ops, i, budget);
    UnusedConcat(s.ops[..i], s.ops[i + 1..], budget);
    assert OpOk(s.ops[i], s.lh, budget);
  }

  lemma NextKeeps(s: State, t: State, budget: nat, logsize: nat)
    requires Inv(s, budget) && Next(s, t, budget, logsize) && budget <= MAXOPBLOCKS
    ensures Inv(t, budget)
    ensures t.panicked ==> Full(s.lh, logsize) && s.ops != []
  {
    if Admits(s) && t == Begin(s) {
      BeginKeeps(s, budget);
    } else if i, b :| 0 <= i < |s.ops| && |s.ops[i].logged + {b}| <= budget && t == Test(s, i, b, logsize) {
      TestKeeps(s, i, b, budget, logsize);
    } else if i :| 0 <= i < |s.ops| && s.ops[i].pending.Some? && t == Append(s, i) {
      AppendKeeps(s, i, budget);
    } else if i :| 0 <= i < |s.ops| && t == End(s, i) {
      EndKeeps(s, i, budget);
    }
  }

  // In every run the log holds at most MAXOPBLOCKS + 2 * budget blocks, a commit runs with no
  // operation outstanding, and with a budget of MAXOPBLOCKS - 1 and the log that mkfs makes
  // nothing ever panics.
  lemma {:induction false} Reservation(states: seq<State>, budget: nat, logsize: nat)
    requires Run(states, budget, logsize) && budget <= MAXOPBLOCKS
    ensures var s := states[|states| - 1];
            && Inv(s, budget) && |s.lh| <= MAXOPBLOCKS + 2 * budget
            && (s.committing ==> s.ops == [])
            && (budget < MAXOPBLOCKS && logsize >= LOGSIZE ==> |s.lh| <= 28 && !s.panicked)
  {
    var n := |states|;
    if n > 1 {
      assert Run(states[..n - 1], budget, logsize);
      Reservation(states[..n - 1], budget, logsize);
      NextKeeps(states[n - 2], states[n - 1], budget, logsize);
    }
    var s := states[n - 1];
    forall i | 0 <= i < |s.ops| ensures |s.ops[i].logged| <= budget {
      assert OpOk(s.ops[i], s.lh, budget);
    }
    UnusedBounds(s.ops, budget);
  }

  // A step lets an operation in exactly if no commit runs, and what is listed and MAXOPBLOCKS for each
  // outstanding operation and the new one fit the log.
  lemma BeginIff(s: State, budget: nat, logsize: nat)
    ensures (exists t :: Next(s, t, budget, logsize) && |t.ops| == |s.ops| + 1) <==>
              !s.panicked && !s.committing && |s.lh| + (|s.ops| + 1) * MAXOPBLOCKS <= LOGSIZE
  {
    if !s.panicked && !s.committing && |s.lh| + (|s.ops| + 1) * MAXOPBLOCKS <= LOGSIZE {
      assert Next(s, Begin(s), budget, logsize) && |Begin(s).ops| == |s.ops| + 1;
    }
  }

  // So begin_op never waits for good: with nobody in a transaction and no commit under way, it goes on.
  lemma IdleBegins(states: seq<State>, budget: nat, logsize: nat)
    requires Run(states, budget, logsize) && budget <= MAXOPBLOCKS
    ensures var s := states[|states| - 1];
            !s.panicked && s.ops == [] && !s.committing ==>
              exists t :: Next(s, t, budget, logsize) && |t.ops| == |s.ops| + 1
  {
    Reservation(states, budget, logsize);
    BeginIff(states[|states| - 1], budget, logsize);
  }

  // log_write panics exactly if the list is full, in memory or on disk.
  lemma PanicIff(s: State, i: nat, budget: nat, logsize: nat)
    requires i < |s.ops| && s.ops[i].pending == None && |s.ops[i].logged| < budget && !s.panicked && !s.committing
    ensures (exists t :: Next(s, t, budget, logsize) && t.panicked) <==> |s.lh| >= LOGSIZE || |s.lh| >= logsize - 1
  {
    if |s.lh| >= LOGSIZE || |s.lh| >= logsize - 1 {
      var b: uint := 0;
      assert |s.ops[i].logged + {b}| <= budget && Next(s, Test(s, i, b, logsize), budget, logsize);
    }
  }

  ghost predicate Reachable(s: State, budget: nat, logsize: nat)
  {
    exists states :: Run(states, budget, logsize) && states[|states| - 1] == s
  }

  lemma ReachNext(s: State, t: State, budget: nat, logsize: nat)
    requires Reachable(s, budget, logsize) && Next(s, t, budget, logsize)
    ensures Reachable(t, budget, logsize)
  {
    var states :| Run(states, budget, logsize) && states[|states| - 1] == s;
    assert Run(states + [t], budget, logsize);
  }

  // Operation i logs the k fresh blocks from base on.
  lemma {:induction false} LogFresh(s: State, i: nat, base: nat, k: nat) returns (t: State)
    requires Reachable(s, MAXOPBLOCKS, LOGSIZE) && !s.panicked && i < |s.ops| && base + k <= 1000
    requires s.ops[i].pending == None && |s.ops[i].logged| + k <= MAXOPBLOCKS && |s.lh| + k < LOGSIZE
    requires forall b | b in s.lh || b in s.ops[i].logged :: !(base <= b < base + k)
    ensures Reachable(t, MAXOPBLOCKS, LOGSIZE) && !t.panicked && |t.lh| == |s.lh| + k
    ensures |t.ops| == |s.ops| && |t.ops[i].logged| == |s.ops[i].logged| + k && t.ops[i].pending == None
    ensures forall j | 0 <= j < |s.ops| && j != i :: t.ops[j] == s.ops[j]
    ensures forall b | b in t.lh :: b in s.lh || base <= b < base + k
    ensures forall b | b in t.ops[i].logged :: b in s.ops[i].logged || base <= b < base + k
  {
    if k == 0 { return s; }
    var u := LogFresh(s, i, base, k - 1);
    var b: uint := base + k - 1;
    assert u.ops[i].pending == None && |u.ops[i].logged + {b}| <= MAXOPBLOCKS;
    var v := Test(u, i, b, LOGSIZE);
    assert Next(u, v, MAXOPBLOCKS, LOGSIZE);
    ReachNext(u, v, MAXOPBLOCKS, LOGSIZE);
    t := Append(v, i);
    assert Next(v, t, MAXOPBLOCKS, LOGSIZE);
    ReachNext(v, t, MAXOPBLOCKS, LOGSIZE);
  }

  // Three operations under way, 28 blocks listed, and two operations one block below their budget.
  lemma NearlyFull() returns (s: State)
    ensures Reachable(s, MAXOPBLOCKS, LOGSIZE) && !s.panicked && |s.lh| == 28 && |s.ops| == 3
    ensures forall i | 1 <= i <= 2 :: s.ops[i].pending == None && |s.ops[i].logged| == 9
    ensures forall b | b in s.lh :: b != 209 && b != 309
  {
    hide Reachable;
    InitReachable();
    var s1, s2 := Begin(INIT), Begin(Begin(INIT));
    var s3 := Begin(s2);
    ReachNext(INIT, s1, MAXOPBLOCKS, LOGSIZE);
    ReachNext(s1, s2, MAXOPBLOCKS, LOGSIZE);
    ReachNext(s2, s3, MAXOPBLOCKS, LOGSIZE);
    var a := LogFresh(s3, 0, 100, 10);
    var b := LogFresh(a, 1, 200, 9);
    s := LogFresh(b, 2, 300, 9);
  }

  lemma InitReachable()
    ensures Reachable(INIT, MAXOPBLOCKS, LOGSIZE)
  {
    assert Run([INIT], MAXOPBLOCKS, LOGSIZE);
  }

  // With a full budget of MAXOPBLOCKS the log that mkfs makes can be overrun: two operations
  // pass the test together and the log ends up with more blocks than its log.size - 1 slots.
  lemma FullBudgetOverruns()
    ensures exists s :: Reachable(s, MAXOPBLOCKS, LOGSIZE) && !s.panicked && |s.lh| > LOGSIZE - 1
  {
    hide Reachable;
    var c := NearlyFull();
    var d := Test(c, 1, 209, LOGSIZE);
    assert |c.ops[1].logged + {209}| <= MAXOPBLOCKS && Next(c, d, MAXOPBLOCKS, LOGSIZE);
    ReachNext(c, d, MAXOPBLOCKS, LOGSIZE);
    var e := Test(d, 2, 309, LOGSIZE);
    assert |d.ops[2].logged + {309}| <= MAXOPBLOCKS && Next(d, e, MAXOPBLOCKS, LOGSIZE);
    ReachNext(d, e, MAXOPBLOCKS, LOGSIZE);
    var f := Append(e, 1);
    assert Next(e, f, MAXOPBLOCKS, LOGSIZE);
    ReachNext(e, f, MAXOPBLOCKS, LOGSIZE);
    var g := Append(f, 2);
    assert Next(f, g, MAXOPBLOCKS, LOGSIZE);
    ReachNext(f, g, MAXOPBLOCKS, LOGSIZE);
  }

  // So the log of mkfs is safe for exactly the budgets below MAXOPBLOCKS.
  lemma BudgetIsExact(budget: nat)
    ensures budget < MAXOPBLOCKS <==>
            forall s :: Reachable(s, budget, LOGSIZE) ==> !s.panicked && |s.lh| <= LOGSIZE - 1
  {
    if budget < MAXOPBLOCKS {
      forall s | Reachable(s, budget, LOGSIZE) ensures !s.panicked && |s.lh| <= LOGSIZE - 1 {
        var states :| Run(states, budget, LOGSIZE) && states[|states| - 1] == s;
        Reservation(states, budget, LOGSIZE);
      }
    } else {
      FullBudgetOverruns();
      var s :| Reachable(s, MAXOPBLOCKS, LOGSIZE) && !s.panicked && |s.lh| > LOGSIZE - 1;
      var states :| Run(states, MAXOPBLOCKS, LOGSIZE) && states[|states| - 1] == s;
      assert Run(states, budget, LOGSIZE);
    }
  }
}
