/** Transactions of filewrite in one log: how many blocks they list together, and what a crash leaves. */
module FileGroup {
  import opened Bytes
  import opened FsLayout
  import opened FsCost
  import opened File
  import opened FileCrash
  import L = LogImage
  import R = LogReservation

  // The transactions of the outstanding operations, one each, and those that have ended since the last commit.
  datatype Books = Books(open: seq<Tx>, done: seq<Tx>)

  // A step of begin_op, log_write, end_op or commit, where each operation is one transaction of filewrite
  // from begin to end: it logs blocks of that transaction only, and has logged all of them when it ends.
  ghost predicate FileNext(sb: Super, s: R.State, x: Books, t: R.State, y: Books, logsize: nat)
  {
    && !s.panicked && |x.open| == |s.ops|
    && (|| (R.Admits(s) && t == R.Begin(s) && exists tx :: TxOk(sb, tx) && y == x.(open := x.open + [tx]))
        || (exists i, b: uint :: 0 <= i < |s.ops| && s.ops[i].pending == None && b in x.open[i].ledger.logged
              && t == R.Test(s, i, b, logsize) && y == x)
        || (exists i :: 0 <= i < |s.ops| && s.ops[i].pending.Some? && t == R.Append(s, i) && y == x)
        || (exists i :: 0 <= i < |s.ops| && s.ops[i].pending == None && x.open[i].ledger.logged <= s.ops[i].logged
              && t == R.End(s, i) && y == Books(x.open[..i] + x.open[i + 1..], x.done + [x.open[i]]))
        || (s.committing && t == s.(lh := []) && y == x.(done := []))
        || (s.committing && s.lh == [] && t == s.(committing := false) && y == x))
  }

  ghost predicate FileStep(sb: Super, states: seq<R.State>, books: seq<Books>, logsize: nat, k: nat)
  {
    k + 1 < |states| == |books| ==> FileNext(sb, states[k], books[k], states[k + 1], books[k + 1], logsize)
  }

  ghost predicate FileRun(sb: Super, states: seq<R.State>, books: seq<Books>, logsize: nat)
  {
    && |states| == |books| > 0 && states[0] == R.INIT && books[0] == Books([], [])
    && forall k: nat {:trigger FileStep(sb, states, books, logsize, k)} :: FileStep(sb, states, books, logsize, k)
  }

  // What an operation has logged, or is about to, belongs to its transaction.
  ghost predicate InTx(op: R.Op, tx: Tx)
  {
    op.logged <= tx.ledger.logged && (op.pending.Some? ==> op.pending.value in tx.ledger.logged)
  }

  // A listed block has been logged by an operation, under way or ended.
  ghost predicate LoggedBy(s: R.State, x: Books, b: uint)
  {
    || (exists i :: 0 <= i < |s.ops| && b in s.ops[i].logged)
    || (exists i :: 0 <= i < |x.done| && b in x.done[i].ledger.logged)
  }

  // The books are right: the list is what the operations have logged since the last commit.
  ghost predicate Kept(sb: Super, s: R.State, x: Books)
  {
    && |x.open| == |s.ops|
    && (forall i | 0 <= i < |x.open| :: TxOk(sb, x.open[i]) && InTx(s.ops[i], x.open[i]))
    && (forall i | 0 <= i < |x.done| :: TxOk(sb, x.done[i]))
    && (forall b: uint {:trigger LoggedBy(s, x, b)} :: b in s.lh <==> LoggedBy(s, x, b))
    && (s.committing ==> s.ops == [])
  }

  // On a disk with one bitmap block, as mkfs makes it, a transaction logs at most 7 blocks.
  const TX_BLOCKS: nat := 7

  lemma SmallTx(sb: Super, tx: Tx, some: set<uint>)
    requires sb.size <= BPB && TxOk(sb, tx) && some <= tx.ledger.logged
    ensures |some| <= TX_BLOCKS
  {
    hide OnDiskOk;
    hide Recorded;
    SubsetSize(some, tx.ledger.logged);
  }

  lemma BeginKept(sb: Super, s: R.State, x: Books, tx: Tx)
    requires Kept(sb, s, x) && TxOk(sb, tx) && !s.committing
    ensures Kept(sb, R.Begin(s), x.(open := x.open + [tx]))
  {
    hide TxOk;
    var t, y := R.Begin(s), x.(open := x.open + [tx]);
    forall b: uint ensures b in t.lh <==> LoggedBy(t, y, b) {
      assert b in s.lh <==> LoggedBy(s, x, b);
      if i :| 0 <= i < |s.ops| && b in s.ops[i].logged {
        assert t.ops[i] == s.ops[i];
      }
    }
  }

  lemma TestKept(sb: Super, s: R.State, x: Books, i: nat, b: uint, logsize: nat)
    requires sb.size <= BPB && Kept(sb, s, x) && i < |s.ops| && s.ops[i].pending == None && b in x.open[i].ledger.logged
    ensures Kept(sb, R.Test(s, i, b, logsize), x) && |s.ops[i].logged + {b}| <= TX_BLOCKS
  {
    hide TxOk;
    var t := R.Test(s, i, b, logsize);
    SmallTx(sb, x.open[i], s.ops[i].logged + {b});
    forall c: uint ensures c in t.lh <==> LoggedBy(t, x, c) {
      assert c in s.lh <==> LoggedBy(s, x, c);
      if j :| 0 <= j < |s.ops| && c in s.ops[j].logged {
        assert c in t.ops[j].logged;
      }
    }
  }

  lemma AppendKept(sb: Super, s: R.State, x: Books, i: nat)
    requires Kept(sb, s, x) && i < |s.ops| && s.ops[i].pending.Some?
    ensures Kept(sb, R.Append(s, i), x)
  {
    hide TxOk;
    var t, b := R.Append(s, i), s.ops[i].pending.value;
    forall c: uint ensures c in t.lh <==> LoggedBy(t, x, c) {
      assert c in s.lh <==> LoggedBy(s, x, c);
      if j :| 0 <= j < |s.ops| && c in s.ops[j].logged {
        assert c in t.ops[j].logged;
      }
      assert b in t.ops[i].logged;
    }
  }

  lemma EndKept(sb: Super, s: R.State, x: Books, i: nat)
    requires Kept(sb, s, x) && i < |s.ops| && x.open[i].ledger.logged <= s.ops[i].logged
    ensures Kept(sb, R.End(s, i), Books(x.open[..i] + x.open[i + 1..], x.done + [x.open[i]]))
  {
    hide TxOk;
    var t, y := R.End(s, i), Books(x.open[..i] + x.open[i + 1..], x.done + [x.open[i]]);
    forall c: uint ensures c in t.lh <==> LoggedBy(t, y, c) {
      assert c in s.lh <==> LoggedBy(s, x, c);
      if j :| 0 <= j < |s.ops| && c in s.ops[j].logged {
        if j == i {
          assert c in y.done[|x.done|].ledger.logged;
        } else {
          assert c in t.ops[if j < i then j else j - 1].logged;
        }
      }
      if j :| 0 <= j < |x.done| && c in x.done[j].ledger.logged {
        assert c in y.done[j].ledger.logged;
      }
      if j :| 0 <= j < |t.ops| && c in t.ops[j].logged {
        assert c in s.ops[if j < i then j else j + 1].logged;
      }
      if j :| 0 <= j < |y.done| && c in y.done[j].ledger.logged {
        assert j < |x.done| ==> c in x.done[j].ledger.logged;
        assert j == |x.done| ==> c in s.ops[i].logged;
      }
    }
  }

  lemma CommitKept(sb: Super, s: R.State, x: Books)
    requires Kept(sb, s, x) && s.committing
    ensures Kept(sb, s.(lh := []), x.(done := []))
  {
    hide TxOk;
  }

  lemma UnlockKept(sb: Super, s: R.State, x: Books)
    requires Kept(sb, s, x) && s.committing
    ensures Kept(sb, s.(committing := false), x)
  {
    hide TxOk;
    var t := s.(committing := false);
    forall c: uint ensures c in t.lh <==> LoggedBy(t, x, c) {
      assert c in s.lh <==> LoggedBy(s, x, c);
    }
  }

  // Such a step keeps the books, and is a step with a budget of 7 blocks for each operation.
  lemma FileNextKept(sb: Super, s: R.State, x: Books, t: R.State, y: Books, logsize: nat)
    requires sb.size <= BPB && Kept(sb, s, x) && FileNext(sb, s, x, t, y, logsize)
    ensures Kept(sb, t, y) && R.Next(s, t, TX_BLOCKS, logsize)
  {
    hide TxOk;
    hide Kept;
    if R.Admits(s) && t == R.Begin(s) && exists tx :: TxOk(sb, tx) && y == x.(open := x.open + [tx]) {
      var tx :| TxOk(sb, tx) && y == x.(open := x.open + [tx]);
      BeginKept(sb, s, x, tx);
    } else if i, b: uint :| 0 <= i < |s.ops| && s.ops[i].pending == None && b in x.open[i].ledger.logged
                            && t == R.Test(s, i, b, logsize) && y == x {
      TestKept(sb, s, x, i, b, logsize);
      assert 0 <= i < |s.ops| && |s.ops[i].logged + {b}| <= TX_BLOCKS && t == R.Test(s, i, b, logsize);
    } else if i :| 0 <= i < |s.ops| && s.ops[i].pending.Some? && t == R.Append(s, i) && y == x {
      AppendKept(sb, s, x, i);
    } else if i :| 0 <= i < |s.ops| && s.ops[i].pending == None && x.open[i].ledger.logged <= s.ops[i].logged
                   && t == R.End(s, i) && y == Books(x.open[..i] + x.open[i + 1..], x.done + [x.open[i]]) {
      EndKept(sb, s, x, i);
    } else if s.committing && t == s.(lh := []) && y == x.(done := []) {
      CommitKept(sb, s, x);
    } else {
      UnlockKept(sb, s, x);
    }
  }

  lemma {:induction false} FileRunKept(sb: Super, states: seq<R.State>, books: seq<Books>, logsize: nat, k: nat)
    requires sb.size <= BPB && FileRun(sb, states, books, logsize) && k < |states|
    ensures Kept(sb, states[k], books[k]) && R.Run(states[..k + 1], TX_BLOCKS, logsize)
  {
    hide FileNext;
    hide R.Next;
    if k == 0 {
      StartKept(sb);
    } else {
      FileRunKept(sb, states, books, logsize, k - 1);
      assert FileStep(sb, states, books, logsize, k - 1);
      hide Kept;
      FileNextKept(sb, states[k - 1], books[k - 1], states[k], books[k], logsize);
      RunMore(states, logsize, k);
    }
  }

  lemma StartKept(sb: Super)
    ensures Kept(sb, R.INIT, Books([], []))
  {
    var s, x := R.INIT, Books([], []);
    forall b: uint ensures b in s.lh <==> LoggedBy(s, x, b) {
    }
  }

  lemma RunMore(states: seq<R.State>, logsize: nat, k: nat)
    requires 0 < k < |states| && R.Run(states[..k], TX_BLOCKS, logsize)
    requires R.Next(states[k - 1], states[k], TX_BLOCKS, logsize)
    ensures R.Run(states[..k + 1], TX_BLOCKS, logsize)
  {
    hide R.Next;
    var run := states[..k + 1];
    forall i, j | 0 <= i && j == i + 1 < |run| ensures R.Next(run[i], run[j], TX_BLOCKS, logsize) {
      assert j < k ==> run[i] == states[..k][i] && run[j] == states[..k][j];
    }
  }

  // No interleaving of filewrites on such a disk panics in log_write, and together they list at most
  // 24 blocks: the log that mkfs makes has room for 29.
  lemma FileWritesFit(sb: Super, states: seq<R.State>, books: seq<Books>, logsize: nat)
    requires sb.size <= BPB && FileRun(sb, states, books, logsize) && logsize >= L.LOGSIZE
    ensures var s := states[|states| - 1]; !s.panicked && |s.lh| <= 24
  {
    FileRunKept(sb, states, books, logsize, |states| - 1);
    assert states[..|states| - 1 + 1] == states;
    R.Reservation(states, TX_BLOCKS, logsize);
  }

  // When end_op commits, the list is what the transactions of the group have logged, all of it.
  lemma GroupListed(l: L.Layout, sb: Super, states: seq<R.State>, books: seq<Books>)
    requires sb.size <= BPB && FileRun(sb, states, books, l.size) && l.size >= L.LOGSIZE
    requires var s, x := states[|states| - 1], books[|books| - 1]; s.ops == [] && Following(sb, x.done) && x.done != []
    ensures Lists(l, states[|states| - 1].lh, AllLogged(books[|books| - 1].done))
  {
    hide TxOk;
    hide FileStep;
    hide Changes;
    var s, x := states[|states| - 1], books[|books| - 1];
    FileWritesFit(sb, states, books, l.size);
    FileRunKept(sb, states, books, l.size, |states| - 1);
    GroupChanges(sb, x.done);
    forall b: nat ensures b in AllLogged(x.done) <==> b in s.lh {
      AllLoggedIs(x.done, b);
      if b in AllLogged(x.done) { InRangeOfUint(sb, x.done, b); }
      if b < UINT_LIMIT {
        assert b in s.lh <==> LoggedBy(s, x, b);
      }
    }
  }

  lemma {:induction false} AllLoggedIs(txs: seq<Tx>, b: nat)
    ensures b in AllLogged(txs) <==> exists i :: 0 <= i < |txs| && b in txs[i].ledger.logged
  {
    if txs != [] {
      var n := |txs| - 1;
      AllLoggedIs(txs[..n], b);
      if i :| 0 <= i < n && b in txs[i].ledger.logged {
        assert b in txs[..n][i].ledger.logged;
      }
      if i :| 0 <= i < n && b in txs[..n][i].ledger.logged {
        assert b in txs[i].ledger.logged;
      }
    }
  }

  // So whatever filewrites a group commit holds, it fits the log, and a crash leaves all of them or none.
  lemma FileWritesAtomic(l: L.Layout, sb: Super, states: seq<R.State>, books: seq<Books>, k: nat, images: seq<Image>)
    returns (r: Snap)
    requires LogBefore(l, sb) && sb.size <= BPB && FileRun(sb, states, books, l.size) && l.size >= L.LOGSIZE
    requires states[|states| - 1].ops == []
    requires var group := books[|books| - 1].done;
      && group != [] && Following(sb, group) && L.Sound(l, group[0].before.disk)
      && L.Count(group[0].before.disk[l.start]) == 0
      && images != [] && L.CrashChain(l, images)
      && CrashedAt(l, group[0].before, group[|group| - 1].after, states[|states| - 1].lh, k, images[0])
    ensures L.Sound(l, images[|images| - 1]) && r.disk == L.Recovered(l, images[|images| - 1])
    ensures var group := books[|books| - 1].done;
      group != [] && SameFiles(sb, r,
                               if k <= |states[|states| - 1].lh| then group[0].before else group[|group| - 1].after)
    ensures L.Sound(l, r.disk) && L.Count(r.disk[l.start]) == 0
  {
    hide L.CrashChain;
    hide L.Sound;
    hide CrashedAt;
    hide SameFiles;
    hide TxOk;
    hide FileStep;
    GroupListed(l, sb, states, books);
    r := GroupAtomic(l, sb, books[|books| - 1].done, states[|states| - 1].lh, k, images);
  }

  lemma InRangeOfUint(sb: Super, txs: seq<Tx>, b: nat)
    requires txs != [] && Changes(sb, txs[0].before, txs[|txs| - 1].after, AllLogged(txs)) && b in AllLogged(txs)
    ensures b < UINT_LIMIT
  {
    hide OnDiskOk;
    WfSizes(sb, txs[0].before);
  }
}
