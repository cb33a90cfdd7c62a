/**
 The on-disk redo log of log.c, as a function of disk images.

 `CommitTrace` and `RecoveryTrace` list the disk after every single-block write of commit and of
 recover_from_log; the class in Log.dfy is proved to produce exactly these.  A crash leaves the
 disk at some element of a trace.
 */
module LogImage {
  import opened Bytes

  const MAXOPBLOCKS: nat := 10
  const LOGSIZE: nat := MAXOPBLOCKS * 3

  datatype Layout = Layout(start: nat, size: nat)

  predicate InLog(l: Layout, b: nat) { l.start <= b < l.start + l.size }

  predicate Fits(l: Layout, d: Image) { 0 < l.size && l.start + l.size <= |d| }

  // struct logheader: n, then block[].
  function Count(h: Block): nat { WordAt(h, 0) }

  function Listed(h: Block, i: nat): nat
    requires i < LOGSIZE
  {
    WordAt(h, 1 + i)
  }

  // The log holds n blocks, none of which is meant for the log region itself.
  ghost predicate Sound(l: Layout, d: Image)
  {
    && Fits(l, d)
    && var h := d[l.start];
       && Count(h) <= LOGSIZE && Count(h) <= l.size - 1
       && forall i | 0 <= i < Count(h) :: Listed(h, i) < |d| && !InLog(l, Listed(h, i))
  }

  ghost predicate SameHome(l: Layout, d: Image, e: Image)
  {
    |d| == |e| && forall b | 0 <= b < |d| && !InLog(l, b) :: d[b] == e[b]
  }

  // write_head: the words behind the n used ones keep their old contents.
  function PutHeader(h: Block, lh: seq<uint>): (r: Block)
    requires |lh| <= LOGSIZE
    ensures Count(r) == |lh|
    ensures forall i | 0 <= i < |lh| :: Listed(r, i) == lh[i]
  {
    PutListed(PutWord(h, 0, |lh|), lh, |lh|)
  }

  function PutListed(h: Block, lh: seq<uint>, n: nat): (r: Block)
    requires n <= |lh| <= LOGSIZE
    ensures Count(r) == Count(h)
    ensures forall i | 0 <= i < n :: Listed(r, i) == lh[i]
    ensures forall i | n <= i < LOGSIZE :: Listed(r, i) == Listed(h, i)
  {
    if n == 0 then h else PutWord(PutListed(h, lh, n - 1), n, lh[n - 1])
  }

  // The image after the first k steps of install_trans.
  function Install(l: Layout, d: Image, k: nat): (r: Image)
    requires Sound(l, d) && k <= Count(d[l.start])
    ensures |r| == |d|
    ensures forall b | 0 <= b < |d| && InLog(l, b) :: r[b] == d[b]
  {
    if k == 0 then d
    else Install(l, d, k - 1)[Listed(d[l.start], k - 1) := d[l.start + k]]
  }

  function Recovered(l: Layout, d: Image): (r: Image)
    requires Sound(l, d)
    ensures Sound(l, r) && Count(r[l.start]) == 0
  {
    Install(l, d, Count(d[l.start]))[l.start := PutWord(d[l.start], 0, 0)]
  }

  function RecoveryTrace(l: Layout, d: Image): (r: seq<Image>)
    requires Sound(l, d)
    ensures |r| == Count(d[l.start]) + 2
  {
    seq(Count(d[l.start]) + 1, k requires 0 <= k <= Count(d[l.start]) => Install(l, d, k)) + [Recovered(l, d)]
  }

  // The image after the first k steps of write_log.
  function Logged(l: Layout, d: Image, data: seq<Block>, k: nat): (r: Image)
    requires Fits(l, d) && k <= |data| <= l.size - 1
    ensures |r| == |d| && r[l.start] == d[l.start]
    ensures forall b | 0 <= b < |d| && !InLog(l, b) :: r[b] == d[b]
    ensures forall i | 0 <= i < k :: r[l.start + 1 + i] == data[i]
  {
    if k == 0 then d else Logged(l, d, data, k - 1)[l.start + k := data[k - 1]]
  }

  // An empty log and a transaction that fits.
  ghost predicate CanCommit(l: Layout, d: Image, lh: seq<uint>, data: seq<Block>)
  {
    && Sound(l, d) && Count(d[l.start]) == 0
    && |lh| == |data| <= l.size - 1 && |lh| <= LOGSIZE
    && forall i | 0 <= i < |lh| :: lh[i] < |d| && !InLog(l, lh[i])
  }

  function Committed(l: Layout, d: Image, lh: seq<uint>, data: seq<Block>): (r: Image)
    requires CanCommit(l, d, lh, data)
    ensures Sound(l, r)
  {
    Logged(l, d, data, |data|)[l.start := PutHeader(d[l.start], lh)]
  }

  // Everything behind the header write is what recovery would do.
  function CommitTrace(l: Layout, d: Image, lh: seq<uint>, data: seq<Block>): (r: seq<Image>)
    requires CanCommit(l, d, lh, data)
    ensures |r| == 2 * |lh| + 3
  {
    seq(|data| + 1, k requires 0 <= k <= |data| => Logged(l, d, data, k)) + RecoveryTrace(l, Committed(l, d, lh, data))
  }

  // The transaction itself: its blocks replaced by their new contents, one after the other.
  function Apply(d: Image, lh: seq<uint>, data: seq<Block>): (r: Image)
    requires |lh| == |data| && forall i | 0 <= i < |lh| :: lh[i] < |d|
    ensures |r| == |d|
  {
    if lh == [] then d
    else Apply(d, lh[..|lh| - 1], data[..|lh| - 1])[lh[|lh| - 1] := data[|lh| - 1]]
  }

  lemma CommitStart(l: Layout, d: Image, lh: seq<uint>, data: seq<Block>)
    requires CanCommit(l, d, lh, data)
    ensures Logged(l, d, data, 0) == d && |CommitTrace(l, d, lh, data)| > |lh| + 1
  {
  }

  lemma RecoveryStart(l: Layout, d: Image)
    requires Sound(l, d)
    ensures Install(l, d, 0) == d && |RecoveryTrace(l, d)| == Count(d[l.start]) + 2
  {
  }

  lemma CommitStep(l: Layout, d: Image, lh: seq<uint>, data: seq<Block>, k: nat)
    requires CanCommit(l, d, lh, data) && k < |lh|
    ensures |CommitTrace(l, d, lh, data)| > k + 2 && l.start + k + 1 < |d|
    ensures forall i | 0 <= i < |lh| :: lh[i] < |d| && lh[i] != l.start + k + 1
    ensures CommitTrace(l, d, lh, data)[1..k + 2] ==
            CommitTrace(l, d, lh, data)[1..k + 1] + [Logged(l, d, data, k)[l.start + k + 1 := data[k]]]
    ensures Logged(l, d, data, k + 1) == Logged(l, d, data, k)[l.start + k + 1 := data[k]]
  {
    hide RecoveryTrace;
    hide Committed;
    SliceExtends(CommitTrace(l, d, lh, data), 1, k + 1);
  }

  // Behind the header write the commit trace is the recovery trace of the committed log.
  lemma CommitTail(l: Layout, d: Image, lh: seq<uint>, data: seq<Block>, k: nat)
    requires CanCommit(l, d, lh, data) && k < |lh| + 2
    ensures var h := Committed(l, d, lh, data);
            && Count(h[l.start]) == |lh| && |RecoveryTrace(l, h)| == |lh| + 2
            && CommitTrace(l, d, lh, data)[1..|lh| + 1] + ([h] + RecoveryTrace(l, h)[1..k + 1]) ==
               CommitTrace(l, d, lh, data)[1..|lh| + 2 + k]
  {
    hide Logged;
    hide Install;
    hide Recovered;
    var h := Committed(l, d, lh, data);
    RecoveryStart(l, h);
    assert RecoveryTrace(l, h)[..k + 1] == [h] + RecoveryTrace(l, h)[1..k + 1];
  }

  // Once the transaction is committed, the rest of commit is recovery.
  lemma CommitRest(l: Layout, d: Image, lh: seq<uint>, data: seq<Block>, k: nat, before: seq<Image>)
    requires CanCommit(l, d, lh, data) && k < |lh| + 2
    ensures var h := Committed(l, d, lh, data);
            && |RecoveryTrace(l, h)| == |lh| + 2 && |CommitTrace(l, d, lh, data)| == 2 * |lh| + 3
            && before + CommitTrace(l, d, lh, data)[1..|lh| + 2] + RecoveryTrace(l, h)[1..k + 1] ==
               before + CommitTrace(l, d, lh, data)[1..|lh| + 2 + k]
  {
    hide CommitTrace;
    hide RecoveryTrace;
    hide Committed;
    CommitStart(l, d, lh, data);
    CommitTail(l, d, lh, data, 0);
    CommitTail(l, d, lh, data, k);
    var h, t := Committed(l, d, lh, data), CommitTrace(l, d, lh, data);
    assert t[1..|lh| + 1] + [h] == t[1..|lh| + 2];
    var rest := RecoveryTrace(l, h)[1..k + 1];
    assert t[1..|lh| + 1] + ([h] + rest) == t[1..|lh| + 2] + rest;
  }

  lemma RecoveryEnd(l: Layout, d: Image)
    requires Sound(l, d)
    ensures var n := Count(d[l.start]);
            && RecoveryTrace(l, d)[1..n + 1] + [Recovered(l, d)] == RecoveryTrace(l, d)[1..n + 2]
            && Install(l, d, n)[l.start] == d[l.start]
            && Recovered(l, d) == Install(l, d, n)[l.start := PutHeader(d[l.start], [])]
  {
    SliceExtends(RecoveryTrace(l, d), 1, Count(d[l.start]) + 1);
  }

  lemma RecoveryStep(l: Layout, d: Image, k: nat)
    requires Sound(l, d) && k < Count(d[l.start])
    ensures |RecoveryTrace(l, d)| > k + 2 && l.start + k + 1 < |d| && InLog(l, l.start + k + 1)
    ensures Listed(d[l.start], k) < |d| && !InLog(l, Listed(d[l.start], k))
    ensures Install(l, d, k)[l.start + k + 1] == d[l.start + k + 1]
    ensures RecoveryTrace(l, d)[1..k + 2] ==
            RecoveryTrace(l, d)[1..k + 1] + [Install(l, d, k)[Listed(d[l.start], k) := d[l.start + k + 1]]]
    ensures Install(l, d, k + 1) == Install(l, d, k)[Listed(d[l.start], k) := d[l.start + k + 1]]
  {
    SliceExtends(RecoveryTrace(l, d), 1, k + 1);
  }

  // Installing from two images with the same log agrees wherever a listed block was written
  // or the images agreed to begin with.
  lemma {:induction false} InstallAgrees(l: Layout, d: Image, e: Image, m: nat, b: nat)
    requires Sound(l, d) && Sound(l, e) && |d| == |e| && m <= Count(d[l.start])
    requires forall c | 0 <= c < |d| && InLog(l, c) :: d[c] == e[c]
    requires b < |d|
    requires d[b] == e[b] || exists i :: 0 <= i < m && Listed(d[l.start], i) == b
    ensures Install(l, d, m)[b] == Install(l, e, m)[b]
  {
    if m > 0 && b != Listed(d[l.start], m - 1) {
      InstallAgrees(l, d, e, m - 1, b);
    }
  }

  // Installing touches listed blocks only.
  lemma {:induction false} InstallFrame(l: Layout, d: Image, k: nat, b: nat)
    requires Sound(l, d) && k <= Count(d[l.start]) && b < |d|
    ensures Install(l, d, k)[b] == d[b] || exists i :: 0 <= i < k && Listed(d[l.start], i) == b
  {
    if k > 0 {
      InstallFrame(l, d, k - 1, b);
    }
  }

  // Recovery restarted from any point of recovery ends where the first one was heading.
  lemma RecoveryRestarts(l: Layout, d: Image, k: nat)
    requires Sound(l, d) && k < |RecoveryTrace(l, d)|
    ensures Sound(l, RecoveryTrace(l, d)[k])
    ensures SameHome(l, Recovered(l, RecoveryTrace(l, d)[k]), Recovered(l, d))
  {
    var e, n := RecoveryTrace(l, d)[k], Count(d[l.start]);
    if k <= n {
      assert e == Install(l, d, k) && Sound(l, e);
      forall b | 0 <= b < |d| ensures Install(l, e, n)[b] == Install(l, d, n)[b] {
        InstallFrame(l, d, k, b);
        InstallAgrees(l, d, e, n, b);
      }
    }
  }

  // images[i+1] is where the power failed while recovering from images[i].
  ghost predicate CrashChain(l: Layout, images: seq<Image>)
  {
    && images != []
    && (forall i | 0 <= i < |images| :: Sound(l, images[i]))
    && (forall i, j | 0 <= i && j == i + 1 < |images| :: images[j] in RecoveryTrace(l, images[i]))
  }

  lemma {:induction false} RecoveryChain(l: Layout, images: seq<Image>)
    requires CrashChain(l, images)
    ensures Sound(l, images[|images| - 1])
    ensures SameHome(l, Recovered(l, images[|images| - 1]), Recovered(l, images[0]))
  {
    var n := |images|;
    if n > 1 {
      var front := images[..n - 1];
      assert CrashChain(l, front);
      RecoveryChain(l, front);
      var k :| 0 <= k < |RecoveryTrace(l, images[n - 2])| && RecoveryTrace(l, images[n - 2])[k] == images[n - 1];
      RecoveryRestarts(l, images[n - 2], k);
    }
  }

  // A committed log, replayed, is the transaction applied.
  lemma {:induction false} InstallIsApply(l: Layout, d: Image, lh: seq<uint>, data: seq<Block>, k: nat)
    requires CanCommit(l, d, lh, data) && k <= |lh|
    ensures SameHome(l, Install(l, Committed(l, d, lh, data), k), Apply(d, lh[..k], data[..k]))
  {
    hide PutHeader;
    hide WordAt;
    if k > 0 {
      InstallIsApply(l, d, lh, data, k - 1);
      assert lh[..k][..k - 1] == lh[..k - 1] && data[..k][..k - 1] == data[..k - 1];
      assert Committed(l, d, lh, data)[l.start + 1 + (k - 1)] == data[k - 1];
    }
  }

  lemma CommitTraceAt(l: Layout, d: Image, lh: seq<uint>, data: seq<Block>, k: nat)
    requires CanCommit(l, d, lh, data) && k < |CommitTrace(l, d, lh, data)|
    ensures |CommitTrace(l, d, lh, data)| == |lh| + 1 + |RecoveryTrace(l, Committed(l, d, lh, data))|
    ensures CommitTrace(l, d, lh, data)[k] ==
            if k <= |lh| then Logged(l, d, data, k) else RecoveryTrace(l, Committed(l, d, lh, data))[k - |lh| - 1]
  {
    hide RecoveryTrace;
    hide Committed;
    hide Logged;
  }

  // While the header says the log is empty, recovery changes no home block.
  lemma EmptyLogRecovers(l: Layout, d: Image, lh: seq<uint>, data: seq<Block>, k: nat)
    requires CanCommit(l, d, lh, data) && k <= |lh|
    ensures Sound(l, Logged(l, d, data, k)) && SameHome(l, Recovered(l, Logged(l, d, data, k)), d)
  {
    hide Logged;
    hide Listed;
    hide PutWord;
  }

  lemma CommittedRecovers(l: Layout, d: Image, lh: seq<uint>, data: seq<Block>)
    requires CanCommit(l, d, lh, data)
    ensures SameHome(l, Recovered(l, Committed(l, d, lh, data)), Apply(d, lh, data))
  {
    hide Install;
    hide Apply;
    hide PutWord;
    InstallIsApply(l, d, lh, data, |lh|);
    assert lh[..|lh|] == lh && data[..|lh|] == data;
  }

  // A crash anywhere in commit recovers to the disk before the transaction, or to the disk
  // after it, and which one depends only on whether the header write has happened.
  lemma CommitAtomic(l: Layout, d: Image, lh: seq<uint>, data: seq<Block>, k: nat)
    requires CanCommit(l, d, lh, data) && k < |CommitTrace(l, d, lh, data)|
    ensures Sound(l, CommitTrace(l, d, lh, data)[k])
    ensures SameHome(l, Recovered(l, CommitTrace(l, d, lh, data)[k]), if k <= |lh| then d else Apply(d, lh, data))
  {
    hide CommitTrace;
    hide RecoveryTrace;
    hide Committed;
    hide Recovered;
    hide Logged;
    hide Sound;
    CommitTraceAt(l, d, lh, data, k);
    if k <= |lh| {
      EmptyLogRecovers(l, d, lh, data, k);
    } else {
      RecoveryRestarts(l, Committed(l, d, lh, data), k - |lh| - 1);
      CommittedRecovers(l, d, lh, data);
    }
  }

  // Crash atomicity: a crash in commit, any number of crashes in the recoveries that follow,
  // then one recovery that completes.
  lemma CrashAtomicity(l: Layout, d: Image, lh: seq<uint>, data: seq<Block>, k: nat, images: seq<Image>)
    requires CanCommit(l, d, lh, data) && k < |CommitTrace(l, d, lh, data)|
    requires CrashChain(l, images) && images[0] == CommitTrace(l, d, lh, data)[k]
    ensures var last := images[|images| - 1];
            && Sound(l, last) && Count(Recovered(l, last)[l.start]) == 0
            && SameHome(l, Recovered(l, last), if k <= |lh| then d else Apply(d, lh, data))
  {
    CommitAtomic(l, d, lh, data, k);
    RecoveryChain(l, images);
  }

  // The new contents of the listed blocks, in a view of the disk.
  function DataOf(view: Image, lh: seq<uint>): seq<Block>
    requires forall i | 0 <= i < |lh| :: lh[i] < |view|
  {
    seq(|lh|, i requires 0 <= i < |lh| => view[lh[i]])
  }

  lemma {:induction false} ApplyDataOf(d: Image, view: Image, lh: seq<uint>, b: nat)
    requires |d| == |view| && b < |d| && forall i | 0 <= i < |lh| :: lh[i] < |view|
    requires b in lh || d[b] == view[b]
    ensures Apply(d, lh, DataOf(view, lh))[b] == view[b]
  {
    if lh != [] && b != lh[|lh| - 1] {
      var front := lh[..|lh| - 1];
      assert DataOf(view, lh)[..|lh| - 1] == DataOf(view, front);
      ApplyDataOf(d, view, front, b);
    }
  }

  // What the file system sees and what is on disk differ in the listed blocks only.
  ghost predicate Unlogged(l: Layout, d: Image, view: Image, lh: seq<uint>)
  {
    && |d| == |view| && (forall i | 0 <= i < |lh| :: lh[i] < |d|)
    && forall b | 0 <= b < |d| && !InLog(l, b) && b !in lh :: view[b] == d[b]
  }

  // A crash in the commit of what the file system sees recovers to the old disk or to that view.
  lemma CommitOutcome(l: Layout, d: Image, view: Image, lh: seq<uint>, k: nat)
    requires Unlogged(l, d, view, lh) && CanCommit(l, d, lh, DataOf(view, lh))
    requires k < |CommitTrace(l, d, lh, DataOf(view, lh))|
    ensures Sound(l, CommitTrace(l, d, lh, DataOf(view, lh))[k])
    ensures SameHome(l, Recovered(l, CommitTrace(l, d, lh, DataOf(view, lh))[k]), if k <= |lh| then d else view)
  {
    CommitAtomic(l, d, lh, DataOf(view, lh), k);
    forall b | 0 <= b < |d| && !InLog(l, b) ensures Apply(d, lh, DataOf(view, lh))[b] == view[b] {
      ApplyDataOf(d, view, lh, b);
    }
  }

  // Over a whole run: commits[epoch[t]] is the state that a crash at time t recovers to, and
  // time never goes back to an older state.
  ghost predicate Epochs(l: Layout, history: seq<Image>, commits: seq<Image>, epoch: seq<nat>)
  {
    && |epoch| == |history|
    && (forall t | 0 <= t < |epoch| :: epoch[t] < |commits|)
    && (forall t | 0 <= t < |history| ::
      Sound(l, history[t]) && SameHome(l, Recovered(l, history[t]), commits[epoch[t]]))
    && (forall t, u | 0 <= t < u < |epoch| :: epoch[t] <= epoch[u])
  }

  function NextEpochs(last: nat, n: nat, m: nat): seq<nat>
  {
    seq(m, i => if i + 1 <= n then last else last + 1)
  }

  // A commit, complete or not, extends the run by its new state.
  lemma ExtendEpochs(l: Layout, history: seq<Image>, commits: seq<Image>, epoch: seq<nat>, d: Image, view: Image,
                     lh: seq<uint>, m: nat)
    requires Epochs(l, history, commits, epoch) && commits != [] && SameHome(l, d, commits[|commits| - 1])
    requires Unlogged(l, d, view, lh) && CanCommit(l, d, lh, DataOf(view, lh))
    requires m < |CommitTrace(l, d, lh, DataOf(view, lh))|
    ensures Epochs(l, history + CommitTrace(l, d, lh, DataOf(view, lh))[1..m + 1], commits + [view],
                   epoch + NextEpochs(|commits| - 1, |lh|, m))
  {
    hide CommitTrace;
    hide Recovered;
    hide CanCommit;
    hide Sound;
    var trace := CommitTrace(l, d, lh, DataOf(view, lh));
    var history', commits' := history + trace[1..m + 1], commits + [view];
    var epoch' := epoch + NextEpochs(|commits| - 1, |lh|, m);
    forall t | 0 <= t < |history'|
      ensures Sound(l, history'[t]) && SameHome(l, Recovered(l, history'[t]), commits'[epoch'[t]])
    {
      if t >= |history| {
        assert history'[t] == trace[t - |history| + 1];
        CommitOutcome(l, d, view, lh, t - |history| + 1);
      } else {
        assert history'[t] == history[t] && epoch'[t] == epoch[t];
      }
    }
  }

  lemma CommitEnd(l: Layout, d: Image, view: Image, lh: seq<uint>)
    requires Unlogged(l, d, view, lh) && CanCommit(l, d, lh, DataOf(view, lh))
    ensures SameHome(l, Recovered(l, Committed(l, d, lh, DataOf(view, lh))), view)
  {
    var n := |CommitTrace(l, d, lh, DataOf(view, lh))|;
    CommitOutcome(l, d, view, lh, |lh| + 1);
    assert CommitTrace(l, d, lh, DataOf(view, lh))[|lh| + 1] == Committed(l, d, lh, DataOf(view, lh));
  }

  lemma RecoveredHistory(l: Layout, d: Image, m: nat, history: seq<Image>)
    requires Sound(l, d) && m < |RecoveryTrace(l, d)| && history == [d] + RecoveryTrace(l, d)[1..m + 1]
    ensures forall t | 0 <= t < |history| ::
              Sound(l, history[t]) && SameHome(l, Recovered(l, history[t]), Recovered(l, d))
  {
    hide Recovered;
    RecoveryStart(l, d);
    assert RecoveryTrace(l, d)[0] == d;
    hide RecoveryTrace;
    forall t | 0 <= t < |history|
      ensures Sound(l, history[t]) && SameHome(l, Recovered(l, history[t]), Recovered(l, d))
    {
      RecoveryRestarts(l, d, t);
      assert history[t] == RecoveryTrace(l, d)[t];
    }
  }
}
