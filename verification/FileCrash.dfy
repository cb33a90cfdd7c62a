/** Files over the log: what a crash in the middle of a filewrite can leave of it. */
module FileCrash {
  import opened Bytes
  import opened FsLayout
  import opened FsMap
  import opened FsContent
  import opened FsCost
  import opened Fs
  import opened File
  import L = LogImage

  // The log lies before everything that the file system uses.
  ghost predicate LogBefore(l: L.Layout, sb: Super) { SuperOk(sb) && l.start + l.size <= sb.inodestart }

  // Home blocks are all that the file system reads.
  lemma HomeIsEnough(l: L.Layout, sb: Super, s: Snap, e: Image)
    requires LogBefore(l, sb) && OnDiskOk(sb, s) && L.SameHome(l, e, s.disk)
    ensures OnDiskOk(sb, s.(disk := e))
    ensures forall i | 0 <= i < |s.tab| :: Content(s.tab[i], e) == Content(s.tab[i], s.disk)
  {
    hide Content;
    hide Wf;
    hide Decode;
    hide NoHoles;
    hide Ptr;
    WfSizes(sb, s);
    forall b | b in s.own ensures sb.datastart <= b < sb.size {
      OwnedRange(sb, s.disk, s.tab, s.own, {}, b);
    }
    PtrFrame(sb, s.disk, s.tab, s.own, {}, e);
    WfFrame(sb, s.disk, s.tab, s.own, {}, e, s.tab);
    forall j: nat ensures InodeOk(sb, s.(disk := e), j) {
      assert InodeOk(sb, s, j);
      if j < sb.ninodes {
        InodeBehindLog(sb, j);
        SameNoHoles(s.disk, s.tab, e, j);
      }
    }
    forall i | 0 <= i < |s.tab| ensures Content(s.tab[i], e) == Content(s.tab[i], s.disk) {
      ContentFrame(sb, s.disk, s.tab, s.own, e, i);
    }
  }

  lemma InodeBehindLog(sb: Super, j: nat)
    requires SuperOk(sb) && j < sb.ninodes
    ensures sb.inodestart <= InodeBlock(sb, j) < sb.bmapstart
  {
  }

  // From s to t only logged blocks have changed, and everything is on disk at both ends.
  ghost predicate Changes(sb: Super, s: Snap, t: Snap, logged: set<nat>)
  {
    && OnDiskOk(sb, s) && OnDiskOk(sb, t) && |s.disk| == |t.disk|
    && (forall b | b in logged :: sb.inodestart <= b < |s.disk|)
    && forall b: nat {:trigger RecordedAt(s.disk, t.disk, logged, b)} :: RecordedAt(s.disk, t.disk, logged, b)
  }

  lemma TxChanges(sb: Super, tx: Tx)
    requires TxOk(sb, tx)
    ensures Changes(sb, tx.before, tx.after, tx.ledger.logged)
  {
    hide OnDiskOk;
  }

  lemma ChangesTrans(sb: Super, s: Snap, t: Snap, u: Snap, x: set<nat>, y: set<nat>)
    requires Changes(sb, s, t, x) && Changes(sb, t, u, y)
    ensures Changes(sb, s, u, x + y)
  {
    hide OnDiskOk;
    var all := x + y;
    forall b: nat ensures RecordedAt(s.disk, u.disk, all, b) {
      assert RecordedAt(s.disk, t.disk, x, b) && RecordedAt(t.disk, u.disk, y, b);
    }
  }

  // Transactions that follow one another, whoever makes them.
  ghost predicate Following(sb: Super, txs: seq<Tx>)
  {
    && (forall t | 0 <= t < |txs| :: TxOk(sb, txs[t]))
    && forall t | 0 < t < |txs| :: txs[t].before == txs[t - 1].after
  }

  ghost function AllLogged(txs: seq<Tx>): set<nat>
  {
    if txs == [] then {} else AllLogged(txs[..|txs| - 1]) + txs[|txs| - 1].ledger.logged
  }

  lemma {:induction false} GroupChanges(sb: Super, txs: seq<Tx>)
    requires Following(sb, txs) && txs != []
    ensures Changes(sb, txs[0].before, txs[|txs| - 1].after, AllLogged(txs))
  {
    hide TxOk;
    hide Changes;
    var n := |txs| - 1;
    TxChanges(sb, txs[n]);
    if n == 0 {
      assert AllLogged(txs) == txs[0].ledger.logged;
    } else {
      GroupChanges(sb, txs[..n]);
      ChangesTrans(sb, txs[0].before, txs[n].before, txs[n].after, AllLogged(txs[..n]), txs[n].ledger.logged);
    }
  }

  // lh lists exactly the logged blocks, as log.lh does, and fits the log.
  ghost predicate Lists(l: L.Layout, lh: seq<uint>, logged: set<nat>)
  {
    && |lh| <= L.LOGSIZE && |lh| <= l.size - 1
    && (forall b | b in lh :: b in logged) && (forall b | b in logged :: b in lh)
  }

  // Such a change can be committed to an empty log.
  lemma CanCommitChange(l: L.Layout, sb: Super, s: Snap, t: Snap, logged: set<nat>, lh: seq<uint>)
    requires LogBefore(l, sb) && Changes(sb, s, t, logged) && Lists(l, lh, logged)
    requires L.Sound(l, s.disk) && L.Count(s.disk[l.start]) == 0
    ensures forall i | 0 <= i < |lh| :: lh[i] < |t.disk|
    ensures L.Unlogged(l, s.disk, t.disk, lh)
    ensures L.CanCommit(l, s.disk, lh, L.DataOf(t.disk, lh))
  {
    hide OnDiskOk;
    hide L.Sound;
    forall i | 0 <= i < |lh| ensures lh[i] < |s.disk| && !L.InLog(l, lh[i]) {
      assert lh[i] in lh;
    }
    forall b | 0 <= b < |s.disk| && !L.InLog(l, b) && b !in lh ensures t.disk[b] == s.disk[b] {
      assert RecordedAt(s.disk, t.disk, logged, b);
    }
  }

  // The image on disk after the first k block writes of the commit.
  ghost predicate CrashedAt(l: L.Layout, s: Snap, t: Snap, lh: seq<uint>, k: nat, image: Image)
  {
    && (forall i | 0 <= i < |lh| :: lh[i] < |t.disk|)
    && L.CanCommit(l, s.disk, lh, L.DataOf(t.disk, lh))
    && k < |L.CommitTrace(l, s.disk, lh, L.DataOf(t.disk, lh))|
    && image == L.CommitTrace(l, s.disk, lh, L.DataOf(t.disk, lh))[k]
  }

  // The file system r is, in every file, what s is.
  ghost predicate SameFiles(sb: Super, r: Snap, s: Snap)
  {
    && OnDiskOk(sb, r) && r.tab == s.tab && r.own == s.own
    && forall i | 0 <= i < |s.tab| :: Content(r.tab[i], r.disk) == Content(s.tab[i], s.disk)
  }

  // A crash after k writes of the commit, any number of crashes in the recoveries that follow, and one
  // recovery that completes: every file is as it was before the change if the header had not been
  // written, and as it is after it otherwise.
  lemma ChangeAtomic(l: L.Layout, sb: Super, s: Snap, t: Snap, logged: set<nat>, lh: seq<uint>, k: nat,
                     images: seq<Image>)
    returns (r: Snap)
    requires LogBefore(l, sb) && Changes(sb, s, t, logged) && Lists(l, lh, logged)
    requires L.Sound(l, s.disk) && L.Count(s.disk[l.start]) == 0
    requires images != [] && L.CrashChain(l, images) && CrashedAt(l, s, t, lh, k, images[0])
    ensures L.Sound(l, images[|images| - 1]) && r.disk == L.Recovered(l, images[|images| - 1])
    ensures L.Sound(l, r.disk) && L.Count(r.disk[l.start]) == 0 && SameFiles(sb, r, if k <= |lh| then s else t)
  {
    hide L.CommitTrace;
    hide L.Recovered;
    hide L.Sound;
    hide L.CrashChain;
    hide L.CanCommit;
    hide OnDiskOk;
    hide Content;
    CanCommitChange(l, sb, s, t, logged, lh);
    L.CommitOutcome(l, s.disk, t.disk, lh, k);
    L.RecoveryChain(l, images);
    var u := if k <= |lh| then s else t;
    r := u.(disk := L.Recovered(l, images[|images| - 1]));
    HomeTrans(l, r.disk, L.Recovered(l, images[0]), u.disk);
    HomeIsEnough(l, sb, u, r.disk);
  }

  lemma HomeTrans(l: L.Layout, a: Image, b: Image, c: Image)
    requires L.SameHome(l, a, b) && L.SameHome(l, b, c)
    ensures L.SameHome(l, a, c)
  {
  }

  // Group commit: of all the transactions in one commit, a crash leaves every one or none.
  lemma GroupAtomic(l: L.Layout, sb: Super, txs: seq<Tx>, lh: seq<uint>, k: nat, images: seq<Image>) returns (r: Snap)
    requires LogBefore(l, sb) && Following(sb, txs) && txs != [] && Lists(l, lh, AllLogged(txs))
    requires L.Sound(l, txs[0].before.disk) && L.Count(txs[0].before.disk[l.start]) == 0
    requires images != [] && L.CrashChain(l, images)
    requires CrashedAt(l, txs[0].before, txs[|txs| - 1].after, lh, k, images[0])
    ensures L.Sound(l, images[|images| - 1]) && r.disk == L.Recovered(l, images[|images| - 1])
    ensures SameFiles(sb, r, if k <= |lh| then txs[0].before else txs[|txs| - 1].after)
    ensures L.Sound(l, r.disk) && L.Count(r.disk[l.start]) == 0
  {
    hide Changes;
    hide L.CrashChain;
    hide L.Sound;
    hide CrashedAt;
    hide Following;
    hide SameFiles;
    GroupChanges(sb, txs);
    r := ChangeAtomic(l, sb, txs[0].before, txs[|txs| - 1].after, AllLogged(txs), lh, k, images);
  }

  // A crash in the m-th transaction of a filewrite leaves a file system in which the file holds the
  // first m or the first m + 1 chunks of what was to be written, and every other file is as it was.
  lemma FileWriteAtomic(l: L.Layout, sb: Super, i: nat, first: Snap, bytes: seq<byte>, off: nat, addr: seq<byte>,
                        tx: Tx, m: nat,
                        lh: seq<uint>, k: nat, images: seq<Image>)
    returns (r: Snap)
    requires Wrote(sb, i, first, bytes, off, addr, tx, m) && LogBefore(l, sb) && Lists(l, lh, tx.ledger.logged)
    requires L.Sound(l, tx.before.disk) && L.Count(tx.before.disk[l.start]) == 0
    requires images != [] && L.CrashChain(l, images) && CrashedAt(l, tx.before, tx.after, lh, k, images[0])
    ensures L.Sound(l, images[|images| - 1]) && r.disk == L.Recovered(l, images[|images| - 1]) && OnDiskOk(sb, r)
    ensures FileIs(r, i, After(bytes, off, addr[..Cut(|addr|, m)])) ||
              FileIs(r, i, After(bytes, off, addr[..Cut(|addr|, m + 1)]))
    ensures OthersSame(first, r, i)
  {
    hide TxOk;
    hide OnDiskOk;
    hide Content;
    hide Changes;
    hide L.CrashChain;
    hide L.Sound;
    hide L.Recovered;
    hide CrashedAt;
    hide Splice;
    hide Cut;
    TxChanges(sb, tx);
    r := ChangeAtomic(l, sb, tx.before, tx.after, tx.ledger.logged, lh, k, images);
  }

  // ---- From one crash to the next ----

  // A whole file system behind an empty log.
  ghost predicate Ready(l: L.Layout, sb: Super, s: Snap)
  {
    LogBefore(l, sb) && OnDiskOk(sb, s) && L.Sound(l, s.disk) && L.Count(s.disk[l.start]) == 0
  }

  // A group of transactions, the commit that was cut off after k writes, and the recoveries.
  datatype Group = Group(txs: seq<Tx>, lh: seq<uint>, k: nat, images: seq<Image>)

  ghost predicate Happens(l: L.Layout, sb: Super, s: Snap, g: Group)
  {
    && g.txs != [] && Following(sb, g.txs) && g.txs[0].before == s && Lists(l, g.lh, AllLogged(g.txs))
    && g.images != [] && L.CrashChain(l, g.images) && CrashedAt(l, s, g.txs[|g.txs| - 1].after, g.lh, g.k, g.images[0])
  }

  // What the group leaves of the files: nothing, or all of it.
  function Outcome(g: Group): Snap
    requires g.txs != []
  {
    if g.k <= |g.lh| then g.txs[0].before else g.txs[|g.txs| - 1].after
  }

  // One group after another, each starting from what the last recovery has left.
  ghost predicate Lives(l: L.Layout, sb: Super, snaps: seq<Snap>, groups: seq<Group>)
  {
    && |snaps| == |groups| + 1
    && forall j | 0 <= j < |groups| ::
         && Happens(l, sb, snaps[j], groups[j])
         && L.Sound(l, groups[j].images[|groups[j].images| - 1])
         && snaps[j + 1] == Outcome(groups[j]).(disk := L.Recovered(l, groups[j].images[|groups[j].images| - 1]))
  }

  // Through any number of commits and crashes the file system stays whole, and each group is in it or not.
  lemma {:induction false} LivesReady(l: L.Layout, sb: Super, snaps: seq<Snap>, groups: seq<Group>, j: nat)
    requires Lives(l, sb, snaps, groups) && Ready(l, sb, snaps[0]) && j < |snaps|
    ensures Ready(l, sb, snaps[j])
    ensures j > 0 ==> groups[j - 1].txs != [] && SameFiles(sb, snaps[j], Outcome(groups[j - 1]))
  {
    hide L.CrashChain;
    hide L.Sound;
    hide L.Recovered;
    hide CrashedAt;
    hide Following;
    hide Lists;
    hide OnDiskOk;
    hide Content;
    if j > 0 {
      LivesReady(l, sb, snaps, groups, j - 1);
      var g := groups[j - 1];
      assert Happens(l, sb, snaps[j - 1], g);
      var r := GroupAtomic(l, sb, g.txs, g.lh, g.k, g.images);
      assert r == snaps[j];
    }
  }
}
