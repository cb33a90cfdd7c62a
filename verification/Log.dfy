/**
 log.c over the buffer cache of bio.c: the in-memory log, group commit and recovery.

 The loops of commit and recover_from_log go through the cache block by block, and are proved to
 put exactly the images of `CommitTrace` and `RecoveryTrace` on the disk, in that order.
 */
module Log {
  import opened Bytes
  import opened LogImage
  import R = LogReservation
  import Bio

  function SetOf(s: seq<uint>): set<nat> { set b | b in s }

  ghost predicate Distinct(s: seq<uint>) { forall i, j | 0 <= i < j < |s| :: s[i] != s[j] }

  lemma SetOfPrefix(s: seq<uint>, i: nat)
    requires i < |s|
    ensures SetOf(s[..i + 1]) == SetOf(s[..i]) + {s[i]}
  {
    SliceExtends(s, 0, i);
  }

  // install_trans has two blocks in hand at a time, if it has any.
  function BuffersNeeded(header: Block): nat { if Count(header) == 0 then 1 else 2 }

  // What another process may do with the cache while this one is in the log code: look up a block in
  // bget, get the lock of a buffer that has been looked up, or let go of a buffer it has.  fileread
  // takes no part in transactions.
  datatype Act = Look(b: nat, pid: int) | Take(i: nat, pid: int) | Give(i: nat, pid: int)

  // Who has looked a buffer up is counted in it, and it holds a block outside the log.
  ghost predicate Refs(l: Layout, size: nat, bufs: seq<Bio.Buf>, waiting: multiset<nat>)
  {
    forall i | i in waiting ::
      && i < |bufs| && bufs[i].dev == Bio.ROOTDEV && bufs[i].blockno < size && !InLog(l, bufs[i].blockno)
      && Bio.Waiters(bufs[i]) >= waiting[i]
  }

  lemma RefsAt(l: Layout, size: nat, bufs: seq<Bio.Buf>, waiting: multiset<nat>, i: nat)
    requires Refs(l, size, bufs, waiting) && i in waiting
    ensures i < |bufs| && bufs[i].dev == Bio.ROOTDEV && bufs[i].blockno < size && !InLog(l, bufs[i].blockno)
    ensures Bio.Waiters(bufs[i]) >= waiting[i] > 0
  {
  }

  // Buffer i keeps its block, and changes its waiters with those counted.
  lemma RefsKept(l: Layout, size: nat, bufs: seq<Bio.Buf>, waiting: multiset<nat>, i: nat, buf: Bio.Buf,
                 waiting': multiset<nat>)
    requires Refs(l, size, bufs, waiting) && i < |bufs|
    requires forall j | j != i :: waiting'[j] == waiting[j]
    requires waiting'[i] > 0 ==>
               && buf.dev == Bio.ROOTDEV && buf.blockno < size && !InLog(l, buf.blockno)
               && Bio.Waiters(buf) >= waiting'[i]
    ensures Refs(l, size, bufs[i := buf], waiting')
  {
  }

  // How a piece of log code ends: it gets through, the machine stops for want of a buffer, or the
  // process is left waiting for a buffer that another has locked.
  datatype End = Finished | Panicked | Asleep

  class Log {
    const cache: Bio.Bcache
    const layout: Layout        // log.start and log.size
    var lh: seq<uint>           // log.lh.block[..log.lh.n]
    var outstanding: int
    var committing: bool
    var others: seq<seq<Act>>       // what other processes will do, each time this one reaches bread
    var waiting: multiset<nat>      // the buffers that others have looked up and not yet locked
    ghost var ops: seq<R.Op>        // the outstanding operations
    ghost var commits: seq<Image>   // the committed states so far
    ghost var epoch: seq<nat>       // for each image in the history, the state it recovers to

    // initlog up to recovery, on a cache that binit has just set up.
    constructor (cache: Bio.Bcache, layout: Layout)
      ensures this.cache == cache && this.layout == layout
      ensures lh == [] && outstanding == 0 && !committing && others == [] && waiting == multiset{} && ops == []
    {
      this.cache := cache;
      this.layout := layout;
      lh, outstanding, committing, others, waiting := [], 0, false, [], multiset{};
      ops, commits, epoch := [], [], [];
    }

    // Between calls, whoever makes them.
    ghost predicate Valid()
      reads this, cache, cache.buf, cache.list, cache.list.next, cache.list.prev
    {
      Stable() && outstanding == |ops| && (committing ==> ops == [])
    }

    // The cache and the log on disk, with what is listed.
    ghost predicate Stable()
      reads this`lh, this`waiting, this`commits, this`epoch
      reads cache, cache.buf, cache.list, cache.list.next, cache.list.prev
    {
      && cache.Valid() && Awaited() && |cache.disk| == |cache.logical| <= UINT_LIMIT && LogOk()
      && forall b | b in cache.locked :: b < |cache.disk| && !InLog(layout, b)
    }

    // The log on disk is empty, what is listed is pinned, and every image so far recovers as it should.
    ghost predicate LogOk()
      reads this`lh, this`commits, this`epoch, cache`disk, cache`pinned, cache`history
    {
      && Sound(layout, cache.disk) && Count(cache.disk[layout.start]) == 0
      && |lh| <= LOGSIZE && |lh| <= layout.size - 1 && cache.pinned == SetOf(lh) && Distinct(lh)
      && (forall b | b in cache.pinned :: b < |cache.disk| && !InLog(layout, b))
      && Epochs(layout, cache.history, commits, epoch)
      && commits != [] && SameHome(layout, cache.disk, commits[|commits| - 1])
    }

    ghost predicate Awaited()
      reads this`waiting, cache, cache.buf
    {
      Refs(layout, |cache.disk|, cache.buf[..], waiting)
    }

    ghost function St(): R.State
      reads this
    {
      R.State(lh, ops, committing, false)
    }

    // Block b is locked by a process that only reads it.
    ghost predicate ReadOnly(b: nat)
      reads cache
      requires |cache.logical| == |cache.disk|
    {
      b < |cache.disk| && !InLog(layout, b) && (b in cache.pinned || cache.logical[b] == cache.disk[b])
    }

    ghost predicate OnlyReaders()
      reads cache
    {
      |cache.logical| == |cache.disk| && forall b | b in cache.locked :: ReadOnly(b)
    }

    // Between the reads and writes of the log code itself: process pid has the blocks in `mine`, and
    // whatever else is locked others only read.
    ghost predicate Quiet(pid: int, mine: map<nat, nat>)
      reads this`waiting, cache, cache.buf, cache.list, cache.list.next, cache.list.prev
    {
      && cache.Valid() && Awaited() && Fits(layout, cache.disk) && |cache.disk| == |cache.logical| <= UINT_LIMIT
      && (forall b | b in mine :: b in cache.locked && cache.Holds(mine[b], b, pid))
      && (forall b | b in cache.locked && b !in mine :: ReadOnly(b))
    }

    // There is no buffer left to read another block into.
    ghost predicate NoneEligible()
      reads cache.buf
    {
      forall i | 0 <= i < cache.buf.Length :: !Bio.Eligible(cache.buf[i])
    }

    // Some process has a buffer and will not let go of it.
    ghost predicate Stuck()
      reads this, cache
    {
      others == [] && cache.locked != {}
    }

    ghost predicate Spare(x: nat)
      reads cache.buf
    {
      x < cache.buf.Length && Bio.Eligible(cache.buf[x])
    }

    // This process waits for buffer i, which is that of block b, besides those counted in `waiting`.
    ghost predicate Queued(i: nat, b: nat)
      reads this`waiting, cache.buf
    {
      && i < cache.buf.Length && cache.buf[i].dev == Bio.ROOTDEV && cache.buf[i].blockno == b
      && Bio.Waiters(cache.buf[i]) > waiting[i]
    }

    // Process p looks up block b, and will wait for the lock of its buffer.
    method LookOne(b: nat, p: int, ghost pid: int, ghost mine: map<nat, nat>) returns (ok: bool)
      requires Quiet(pid, mine) && p != pid && b < |cache.disk| && !InLog(layout, b)
      modifies this`waiting, cache`slot, cache.buf
      ensures cache.disk == old(cache.disk) && cache.history == old(cache.history)
      ensures ok ==> Quiet(pid, mine) && cache.logical == old(cache.logical) && cache.pinned == old(cache.pinned)
      ensures ok ==> forall i: nat, c: nat :: old(Queued(i, c)) ==> Queued(i, c)
      ensures !ok ==> NoneEligible()
    {
      hide Bio.Bcache.Valid;
      hide Refs;
      var r := LookUp(b, pid, mine);
      if r == None { return false; }
      ghost var bufs := cache.buf[..];
      waiting := waiting + multiset{r.value};
      RefsKept(layout, |cache.disk|, bufs, old(waiting), r.value, cache.buf[r.value], waiting);
      assert bufs[r.value := cache.buf[r.value]] == bufs;
      ok := true;
    }

    // Process p, which has looked up buffer i, finds it free and gets the lock.
    method TakeOne(i: nat, p: int, ghost pid: int, ghost mine: map<nat, nat>) returns (ok: bool)
      requires Quiet(pid, mine) && p != pid && i in waiting && i < cache.buf.Length && !cache.buf[i].locked
      modifies this`waiting, cache, cache.buf
      ensures cache.disk == old(cache.disk) && cache.history == old(cache.history)
      ensures ok ==> Quiet(pid, mine) && cache.logical == old(cache.logical) && cache.pinned == old(cache.pinned)
      ensures ok ==> forall j: nat, c: nat :: old(Queued(j, c)) ==> Queued(j, c)
      ensures !ok ==> NoneEligible()
    {
      hide Bio.Bcache.Valid;
      hide Refs;
      ghost var bufs := cache.buf[..];
      RefsAt(layout, |cache.disk|, bufs, waiting, i);
      var b := cache.buf[i].blockno;
      cache.LockIsKnown(i);
      if b !in cache.pinned { cache.CleanIsOnDisk(b); }
      cache.ReadIn(i, b, p);
      waiting := waiting - multiset{i};
      RefsKept(layout, |cache.disk|, bufs, old(waiting), i, cache.buf[i], waiting);
      ok := true;
    }

    // Process p releases a buffer that it has.
    method GiveOne(i: nat, p: int, ghost pid: int, ghost mine: map<nat, nat>) returns (ok: bool)
      requires Quiet(pid, mine) && p != pid && i < cache.buf.Length && cache.Held(i, p)
      modifies cache, cache.buf, cache.list, cache.list.next, cache.list.prev
      ensures cache.disk == old(cache.disk) && cache.history == old(cache.history)
      ensures ok ==> Quiet(pid, mine) && cache.logical == old(cache.logical) && cache.pinned == old(cache.pinned)
      ensures ok ==> forall j: nat, b: nat :: old(Queued(j, b)) ==> Queued(j, b)
      ensures !ok ==> NoneEligible()
    {
      hide Refs;
      hide Bio.Bcache.Valid;
      var b := cache.buf[i].blockno;
      cache.HeldIsLocked(i, b, p);
      forall c | c in mine ensures c != b {
        if c == b { cache.OneBuffer(i, mine[c]); }
      }
      ghost var bufs := cache.buf[..];
      if i in waiting { RefsAt(layout, |cache.disk|, bufs, waiting, i); }
      ok := cache.Brelse(i, b, p);
      RefsKept(layout, |cache.disk|, bufs, waiting, i, cache.buf[i], waiting);
    }

    // Another process acts, if it can; it leaves alone what pid has, and what is waited for.
    method OneAct(act: Act, pid: int, ghost mine: map<nat, nat>) returns (ok: bool)
      requires Quiet(pid, mine)
      modifies this`waiting, cache, cache.buf, cache.list, cache.list.next, cache.list.prev
      ensures cache.disk == old(cache.disk) && cache.history == old(cache.history)
      ensures ok ==> Quiet(pid, mine) && cache.logical == old(cache.logical) && cache.pinned == old(cache.pinned)
      ensures ok ==> forall i: nat, b: nat :: old(Queued(i, b)) ==> Queued(i, b)
      ensures !ok ==> NoneEligible()
    {
      hide Bio.Bcache.Valid;
      ok := true;
      match act
      case Look(b, p) =>
        if p != pid && b < |cache.disk| && !InLog(layout, b) { ok := LookOne(b, p, pid, mine); }
      case Take(i, p) =>
        if p != pid && i in waiting {
          RefsAt(layout, |cache.disk|, cache.buf[..], waiting, i);
          if !cache.buf[i].locked { ok := TakeOne(i, p, pid, mine); }
        }
      case Give(i, p) =>
        if p != pid && i < cache.buf.Length && cache.Held(i, p) { ok := GiveOne(i, p, pid, mine); }
    }

    // What the others do before this process next gets to run.
    method Turn(pid: int, ghost mine: map<nat, nat>) returns (ok: bool)
      requires Quiet(pid, mine)
      modifies this`others, this`waiting, cache, cache.buf, cache.list, cache.list.next, cache.list.prev
      ensures old(others) == [] ==> ok && others == [] && cache.buf[..] == old(cache.buf[..])
      ensures old(others) == [] ==> cache.locked == old(cache.locked)
      ensures old(others) != [] ==> |others| < |old(others)|
      ensures cache.disk == old(cache.disk) && cache.history == old(cache.history)
      ensures ok ==> Quiet(pid, mine) && cache.logical == old(cache.logical) && cache.pinned == old(cache.pinned)
      ensures ok ==> forall i: nat, b: nat :: old(Queued(i, b)) ==> Queued(i, b)
      ensures !ok ==> NoneEligible()
    {
      hide Refs;
      ok := true;
      if others == [] { return; }
      var acts := others[0];
      others := others[1..];
      for k := 0 to |acts|
        invariant Quiet(pid, mine) && |others| == |old(others)| - 1 && ok
        invariant cache.disk == old(cache.disk) && cache.history == old(cache.history)
        invariant cache.logical == old(cache.logical) && cache.pinned == old(cache.pinned)
        invariant forall i: nat, b: nat :: old(Queued(i, b)) ==> Queued(i, b)
      {
        ok := OneAct(acts[k], pid, mine);
        if !ok { return; }
      }
    }

    // The first half of bread: bget finds a buffer for block b and takes a reference to it.
    method LookUp(b: nat, ghost pid: int, ghost mine: map<nat, nat>) returns (r: Option<nat>)
      requires Quiet(pid, mine) && b < |cache.disk|
      modifies cache`slot, cache.buf
      ensures Quiet(pid, mine)
      ensures r == None <==> old(NoneEligible()) && !old(cache.Caches(Bio.ROOTDEV, b))
      ensures r == None ==> NoneEligible()
      ensures r.Some? ==> Queued(r.value, b) && Bio.Took(old(cache.buf[..]), cache.buf[..], r.value, b)
      ensures forall i: nat, c: nat :: old(Queued(i, c)) ==> Queued(i, c)
      ensures r.Some? ==>
                forall c: nat :: old(Queued(r.value, c)) ==> Bio.Waiters(cache.buf[r.value]) > waiting[r.value] + 1
    {
      hide Bio.Bcache.Valid;
      hide Refs;
      ghost var bufs := cache.buf[..];
      r := cache.Bget(Bio.ROOTDEV, b);
      if r.Some? {
        if r.value in waiting { RefsAt(layout, |cache.disk|, bufs, waiting, r.value); }
        RefsKept(layout, |cache.disk|, bufs, waiting, r.value, cache.buf[r.value], waiting);
      }
    }

    // acquiresleep: wait while another process has the buffer.
    method Await(i: nat, ghost b: nat, pid: int, ghost mine: map<nat, nat>) returns (e: End)
      requires Quiet(pid, mine) && b < |cache.disk| && Queued(i, b)
      modifies this`others, this`waiting, cache, cache.buf, cache.list, cache.list.next, cache.list.prev
      ensures cache.disk == old(cache.disk) && cache.history == old(cache.history)
      ensures e.Finished? ==> Quiet(pid, mine) && Queued(i, b) && !cache.buf[i].locked
      ensures e.Finished? ==> cache.logical == old(cache.logical) && cache.pinned == old(cache.pinned)
      ensures (e.Panicked? ==> NoneEligible()) && (e.Asleep? ==> Stuck())
      ensures old(others) == [] ==> others == [] && cache.buf[..] == old(cache.buf[..])
      ensures old(others) == [] ==> cache.locked == old(cache.locked)
      ensures old(others) == [] ==> e == if b in cache.locked then Asleep else Finished
    {
      hide Refs;
      hide Bio.Bcache.Valid;
      cache.LockIsKnown(i);
      while cache.buf[i].locked
        invariant Quiet(pid, mine) && Queued(i, b)
        invariant cache.disk == old(cache.disk) && cache.history == old(cache.history)
        invariant cache.logical == old(cache.logical) && cache.pinned == old(cache.pinned)
        invariant old(others) == [] ==> others == [] && cache.buf[..] == old(cache.buf[..])
        invariant old(others) == [] ==> cache.locked == old(cache.locked)
        decreases |others|
      {
        if others == [] {
          cache.LockIsKnown(i);
          return Asleep;
        }
        var ok := Turn(pid, mine);
        if !ok { return Panicked; }
      }
      return Finished;
    }

    // The second half of bread, with the lock free.
    method Fill(i: nat, b: nat, pid: int, ghost mine: map<nat, nat>)
      requires Quiet(pid, mine) && b < |cache.disk| && b !in mine && Queued(i, b) && !cache.buf[i].locked
      modifies cache, cache.buf
      ensures Quiet(pid, mine[b := i]) && cache.logical == old(cache.logical) && cache.pinned == old(cache.pinned)
      ensures cache.disk == old(cache.disk) && cache.history == old(cache.history)
      ensures cache.locked == old(cache.locked) + {b}
      ensures cache.buf[..] == old(cache.buf[..])[i := cache.buf[i]]
      ensures cache.buf[i].refcnt == old(cache.buf[i]).refcnt && cache.buf[i].dirty == old(cache.buf[i]).dirty
    {
      hide Bio.Bcache.Valid;
      hide Refs;
      ghost var bufs := cache.buf[..];
      if i in waiting { RefsAt(layout, |cache.disk|, bufs, waiting, i); }
      cache.ReadIn(i, b, pid);
      RefsKept(layout, |cache.disk|, bufs, waiting, i, cache.buf[i], waiting);
    }

    // bwrite of a buffer in hand, with new contents.
    method Store(i: nat, b: nat, pid: int, data: Block, ghost mine: map<nat, nat>)
      requires Quiet(pid, mine) && b in mine && mine[b] == i
      modifies cache, cache.buf
      ensures Quiet(pid, mine) && i < |old(cache.buf[..])|
      ensures b < |old(cache.disk)| && cache.disk == old(cache.disk)[b := data]
      ensures cache.history == old(cache.history) + [cache.disk]
      ensures cache.logical == old(cache.logical)[b := data] && cache.pinned == old(cache.pinned) - {b}
      ensures cache.locked == old(cache.locked)
      ensures cache.buf[..] == old(cache.buf[..])[i := old(cache.buf[i]).(data := data, dirty := false)]
    {
      hide Bio.Bcache.Valid;
      hide Refs;
      ghost var bufs := cache.buf[..];
      cache.HeldIsLocked(i, b, pid);
      if i in waiting { RefsAt(layout, |cache.disk|, bufs, waiting, i); }
      cache.SetData(i, b, pid, data);
      var ok := cache.Bwrite(i, b, pid);
      assert cache.buf[..] == bufs[i := cache.buf[i]];
      RefsKept(layout, |cache.disk|, bufs, waiting, i, cache.buf[i], waiting);
    }

    // The contents of a buffer in hand change in memory.
    method Change(i: nat, b: nat, pid: int, data: Block, ghost mine: map<nat, nat>)
      requires Quiet(pid, mine) && b in mine && mine[b] == i
      modifies cache`logical, cache.buf
      ensures Quiet(pid, mine) && b < |old(cache.logical)| && cache.logical == old(cache.logical)[b := data]
    {
      hide Bio.Bcache.Valid;
      hide Refs;
      ghost var bufs := cache.buf[..];
      cache.HeldIsLocked(i, b, pid);
      if i in waiting { RefsAt(layout, |cache.disk|, bufs, waiting, i); }
      cache.SetData(i, b, pid, data);
      RefsKept(layout, |cache.disk|, bufs, waiting, i, cache.buf[i], waiting);
    }

    // brelse of a buffer in hand.
    method Drop(i: nat, b: nat, pid: int, ghost mine: map<nat, nat>)
      requires Quiet(pid, mine) && b in mine && mine[b] == i
      requires b < |cache.disk| && (b in cache.pinned || cache.logical[b] == cache.disk[b])
      modifies cache`locked, cache.buf, cache.list, cache.list.next, cache.list.prev
      ensures Quiet(pid, mine - {b}) && cache.locked == old(cache.locked) - {b} && i < |old(cache.buf[..])|
      ensures cache.buf[..] == old(cache.buf[..])[i := cache.buf[i]]
      ensures cache.buf[i] == old(cache.buf[i]).(locked := false, pid := 0, refcnt := cache.buf[i].refcnt)
      ensures cache.buf[i].refcnt == old(cache.buf[i]).refcnt - 1
    {
      hide Bio.Bcache.Valid;
      hide Refs;
      ghost var bufs := cache.buf[..];
      if i in waiting { RefsAt(layout, |cache.disk|, bufs, waiting, i); }
      var ok := cache.Brelse(i, b, pid);
      RefsKept(layout, |cache.disk|, bufs, waiting, i, cache.buf[i], waiting);
    }

    // bread with other processes about.
    method Get(b: nat, pid: int, ghost mine: map<nat, nat>) returns (e: End, i: nat)
      requires Quiet(pid, mine) && b < |cache.disk| && b !in mine
      modifies this`others, this`waiting, cache, cache.buf, cache.list, cache.list.next, cache.list.prev
      ensures cache.disk == old(cache.disk) && cache.history == old(cache.history)
      ensures e.Finished? ==> Quiet(pid, mine[b := i]) && cache.logical == old(cache.logical)
      ensures e.Finished? ==> cache.pinned == old(cache.pinned)
      ensures (e.Panicked? ==> NoneEligible()) && (e.Asleep? ==> Stuck())
      ensures old(others) == [] ==> others == [] && (e.Asleep? ==> b in old(cache.locked))
      ensures old(others) == [] && e.Finished? ==> cache.locked == old(cache.locked) + {b}
      ensures old(others) == [] && e.Finished? ==> Bio.Took(old(cache.buf[..]), cache.buf[..], i, b)
      ensures old(others) == [] && e.Panicked? ==> old(NoneEligible()) && !old(cache.Caches(Bio.ROOTDEV, b))
    {
      hide Quiet;
      var ok := Turn(pid, mine);
      if !ok { return Panicked, 0; }
      var r := LookUp(b, pid, mine);
      if r == None { return Panicked, 0; }
      i := r.value;
      e := Await(i, b, pid, mine);
      if e.Finished? { Fill(i, b, pid, mine); }
    }

    lemma HeldIn(pid: int, mine: map<nat, nat>, b: nat)
      requires Quiet(pid, mine) && b in mine
      ensures |cache.logical| == |cache.disk| && b < |cache.disk| && mine[b] < cache.buf.Length
      ensures cache.Holds(mine[b], b, pid) && b in cache.locked && cache.buf[mine[b]].data == cache.logical[b]
    {
      hide Bio.Bcache.Valid;
      cache.HeldIsLocked(mine[b], b, pid);
    }

    lemma HeldApart(pid: int, mine: map<nat, nat>, a: nat, b: nat)
      requires Quiet(pid, mine) && a in mine && b in mine && a != b
      ensures mine[a] != mine[b] && mine[a] < cache.buf.Length && mine[b] < cache.buf.Length
    {
    }

    // A block that pid does not have is on disk as it looks, unless it is pinned.
    lemma SeenOnDisk(pid: int, b: nat)
      requires Quiet(pid, map[]) && b < |cache.disk|
      ensures |cache.logical| == |cache.disk| && (b in cache.pinned || cache.logical[b] == cache.disk[b])
    {
      hide Bio.Bcache.Valid;
      if b !in cache.pinned && b !in cache.locked { cache.CleanIsOnDisk(b); }
    }

    lemma PinnedIsCached(pid: int, mine: map<nat, nat>, b: nat)
      requires Quiet(pid, mine) && b in cache.pinned
      ensures cache.Caches(Bio.ROOTDEV, b)
    {
      cache.PinnedIsCached(b);
    }

    // bread two different blocks.
    method ReadBoth(a: nat, b: nat, pid: int, ghost x: nat, ghost y: nat) returns (e: End, i: nat, j: nat)
      requires Quiet(pid, map[]) && a < |cache.disk| && b < |cache.disk| && a != b
      modifies this`others, this`waiting, cache, cache.buf, cache.list, cache.list.next, cache.list.prev
      ensures cache.disk == old(cache.disk) && cache.history == old(cache.history)
      ensures e.Finished? ==> Quiet(pid, map[a := i, b := j]) && cache.logical == old(cache.logical)
      ensures e.Finished? ==> cache.pinned == old(cache.pinned)
      ensures e.Finished? ==> i != j && i < cache.buf.Length && j < cache.buf.Length
      ensures (e.Panicked? ==> NoneEligible()) && (e.Asleep? ==> Stuck())
      ensures old(others) == [] ==> others == [] && (e.Finished? ==> cache.locked == old(cache.locked) + {a, b})
      ensures old(others) == [] && e.Finished? ==> Bio.TookBoth(old(cache.buf[..]), cache.buf[..], i, j)
      ensures old(others) == [] && a !in old(cache.locked) && b !in old(cache.locked) && old(Roomy(b, x, y)) ==>
                e.Finished?
    {
      hide Quiet;
      ghost var bufs := cache.buf[..];
      e, i := Get(a, pid, map[]);
      if !e.Finished? { return e, 0, 0; }
      assert old(others) == [] && old(Roomy(b, x, y)) && x != y ==> Spare(x) || Spare(y) by {
        assert x < |bufs| ==> bufs[x] == old(cache.buf[x]);
        assert y < |bufs| ==> bufs[y] == old(cache.buf[y]);
        assert x < |bufs| ==> cache.buf[..][x] == cache.buf[x];
        assert y < |bufs| ==> cache.buf[..][y] == cache.buf[y];
      }
      if b in cache.pinned { PinnedIsCached(pid, map[a := i], b); }
      e, j := Get(b, pid, map[a := i]);
      assert map[a := i][b := j] == map[a := i, b := j];
      if e.Finished? { HeldApart(pid, map[a := i, b := j], a, b); }
    }

    // memmove, bwrite of the destination, and brelse of both.
    method CopyHeld(from: nat, src: nat, to: nat, dst: nat, pid: int)
      requires Quiet(pid, map[src := from, dst := to]) && src != dst && src < |cache.disk| && dst < |cache.disk|
      requires src in cache.pinned || cache.logical[src] == cache.disk[src]
      modifies cache, cache.buf, cache.list, cache.list.next, cache.list.prev
      ensures Quiet(pid, map[]) && cache.locked == old(cache.locked) - {src, dst}
      ensures cache.disk == old(cache.disk)[dst := old(cache.logical)[src]]
      ensures cache.history == old(cache.history) + [cache.disk]
      ensures cache.logical == old(cache.logical)[dst := old(cache.logical)[src]]
      ensures cache.pinned == old(cache.pinned) - {dst}
      ensures Bio.GaveBoth(old(cache.buf[..]), cache.buf[..], from, to)
    {
      hide Quiet;
      ghost var mine := map[src := from, dst := to];
      HeldIn(pid, mine, src);
      HeldIn(pid, mine, dst);
      HeldApart(pid, mine, src, dst);
      ghost var bufs := cache.buf[..];
      Store(to, dst, pid, cache.buf[from].data, mine);
      Drop(from, src, pid, mine);
      Drop(to, dst, pid, mine - {src});
      assert mine - {src} - {dst} == map[];
    }

    // Two blocks can be read, b the second of them, with buffers x and y unused.
    ghost predicate Roomy(b: nat, x: nat, y: nat)
      reads cache, cache.buf
    {
      Spare(x) && Spare(y) && (x != y || b in cache.pinned)
    }

    // The body of the loops of write_log and install_trans.
    method CopyBlock(src: nat, dst: nat, dstFirst: bool, pid: int, ghost x: nat, ghost y: nat) returns (e: End)
      requires Quiet(pid, map[]) && src < |cache.disk| && dst < |cache.disk| && src != dst
      modifies this`others, this`waiting, cache, cache.buf, cache.list, cache.list.next, cache.list.prev
      ensures !e.Finished? ==> cache.disk == old(cache.disk) && cache.history == old(cache.history)
      ensures e.Finished? ==> Quiet(pid, map[]) && cache.pinned == old(cache.pinned) - {dst} && cache.buf.Length >= 2
      ensures e.Finished? ==> cache.disk == old(cache.disk)[dst := old(cache.logical)[src]]
      ensures e.Finished? ==> cache.history == old(cache.history) + [cache.disk]
      ensures e.Finished? ==> cache.logical == old(cache.logical)[dst := old(cache.logical)[src]]
      ensures (e.Panicked? ==> NoneEligible()) && (e.Asleep? ==> Stuck())
      ensures old(others) == [] ==> others == []
      ensures old(others) == [] && old(src !in cache.locked && dst !in cache.locked) &&
              old(Roomy(if dstFirst then src else dst, x, y)) ==>
                e.Finished? && cache.locked == old(cache.locked) && Spare(x) && Spare(y)
    {
      hide Quiet;
      SeenOnDisk(pid, src);
      var from, to;
      if dstFirst {
        e, to, from := ReadBoth(dst, src, pid, x, y);
        assert map[dst := to, src := from] == map[src := from, dst := to];
      } else {
        e, from, to := ReadBoth(src, dst, pid, x, y);
      }
      if !e.Finished? { return; }
      CopyHeld(from, src, to, dst, pid);
    }

    // Nobody else acts on the cache, no listed block is locked, and buffers x and y are unused.
    ghost predicate Calm(x: nat, y: nat)
      reads this, cache, cache.buf
    {
      others == [] && Spare(x) && Spare(y) && forall b | b in lh :: b !in cache.locked
    }

    ghost predicate AllPinned()
      reads this, cache
    {
      Distinct(lh) && forall b | b in lh :: b in cache.pinned
    }

    // Copy the modified blocks from the cache to the log.  On a panic the images so far are a
    // prefix of the trace.
    method WriteLog(pid: int, ghost data: seq<Block>, ghost x: nat) returns (e: End, ghost m: nat)
      requires Quiet(pid, map[]) && cache.pinned == SetOf(lh) && CanCommit(layout, cache.disk, lh, data)
      requires forall i | 0 <= i < |lh| :: data[i] == cache.logical[lh[i]]
      modifies this`others, this`waiting, cache, cache.buf, cache.list, cache.list.next, cache.list.prev
      ensures m <= |lh|
      ensures cache.history == old(cache.history) + CommitTrace(layout, old(cache.disk), lh, data)[1..m + 1]
      ensures e.Finished? ==> m == |lh| && Quiet(pid, map[]) && cache.pinned == SetOf(lh)
      ensures e.Finished? ==> cache.disk == Logged(layout, old(cache.disk), data, |data|)
      ensures (e.Panicked? ==> NoneEligible()) && (e.Asleep? ==> Stuck())
      ensures old(Calm(x, x)) ==> e.Finished? && Calm(x, x)
    {
      hide Refs;
      hide Bio.Bcache.Valid;
      hide Bio.Bcache.Holds;
      hide Bio.Eligible;
      hide CommitTrace;
      hide Logged;
      hide Quiet;
      hide Calm;
      hide SetOf;
      QuietReads(pid, map[]);
      ghost var d, trace := cache.disk, CommitTrace(layout, cache.disk, lh, data);
      CommitStart(layout, d, lh, data);
      m := 0;
      for tail := 0 to |lh|
        invariant Copied(pid, d, data, tail) && m == tail
        invariant cache.history == old(cache.history) + trace[1..tail + 1]
        invariant old(Calm(x, x)) ==> Calm(x, x)
      {
        e := CopyToLog(pid, d, data, tail, old(cache.history), x);
        if !e.Finished? { return; }
        m := tail + 1;
      }
      e := Finished;
    }

    // The first `tail` blocks are in the log, and the cache has them all as they were.
    ghost predicate Copied(pid: int, d: Image, data: seq<Block>, tail: nat)
      reads this`waiting, this`lh, cache, cache.buf, cache.list, cache.list.next, cache.list.prev
    {
      && Quiet(pid, map[]) && cache.pinned == SetOf(lh) && CanCommit(layout, d, lh, data) && tail <= |lh|
      && cache.disk == Logged(layout, d, data, tail)
      && |cache.logical| == |cache.disk| && forall i | 0 <= i < |lh| :: data[i] == cache.logical[lh[i]]
    }

    // One round of write_log.
    method CopyToLog(pid: int, ghost d: Image, ghost data: seq<Block>, tail: nat, ghost history: seq<Image>,
                     ghost x: nat)
      returns (e: End)
      requires tail < |lh| && Copied(pid, d, data, tail)
      requires |CommitTrace(layout, d, lh, data)| > |lh| + 1
      requires cache.history == history + CommitTrace(layout, d, lh, data)[1..tail + 1]
      modifies this`others, this`waiting, cache, cache.buf, cache.list, cache.list.next, cache.list.prev
      ensures !e.Finished? ==> cache.history == old(cache.history)
      ensures e.Finished? ==> Copied(pid, d, data, tail + 1)
      ensures e.Finished? ==> cache.history == history + CommitTrace(layout, d, lh, data)[1..tail + 2]
      ensures (e.Panicked? ==> NoneEligible()) && (e.Asleep? ==> Stuck())
      ensures old(Calm(x, x)) ==> e.Finished? && Calm(x, x)
    {
      hide Refs;
      hide Bio.Bcache.Valid;
      hide Bio.Bcache.Holds;
      hide Bio.Eligible;
      hide CommitTrace;
      hide Logged;
      CommitStep(layout, d, lh, data, tail);
      e := CopyBlock(lh[tail], layout.start + tail + 1, true, pid, x, x);
    }

    // The loop of write_head, on the contents of the header block.
    method FillHeader(was: Block) returns (h: Block)
      requires |lh| <= LOGSIZE
      ensures h == PutHeader(was, lh)
    {
      hide PutWord;
      h := PutWord(was, 0, |lh|);
      for i := 0 to |lh|
        invariant h == PutListed(PutWord(was, 0, |lh|), lh, i)
      {
        h := PutWord(h, 1 + i, lh[i]);
      }
    }

    // Write the in-memory header to disk.
    method WriteHead(pid: int, ghost x: nat, ghost y: nat) returns (e: End)
      requires Quiet(pid, map[]) && layout.start !in cache.pinned && |lh| <= LOGSIZE
      modifies this`others, this`waiting, cache, cache.buf, cache.list, cache.list.next, cache.list.prev
      ensures !e.Finished? ==> cache.history == old(cache.history)
      ensures e.Finished? ==> Quiet(pid, map[]) && cache.pinned == old(cache.pinned) && cache.buf.Length >= 1
      ensures e.Finished? ==>
                cache.disk == old(cache.disk)[layout.start := PutHeader(old(cache.disk)[layout.start], lh)]
      ensures e.Finished? ==> cache.history == old(cache.history) + [cache.disk]
      ensures (e.Panicked? ==> NoneEligible()) && (e.Asleep? ==> Stuck())
      ensures old(Calm(x, y)) ==> e.Finished? && Calm(x, y)
    {
      hide Refs;
      hide Bio.Bcache.Valid;
      hide Bio.Bcache.Caches;
      hide PutHeader;
      SeenOnDisk(pid, layout.start);
      var i;
      e, i := Get(layout.start, pid, map[]);
      if !e.Finished? { return; }
      ghost var mine := map[layout.start := i];
      HeldIn(pid, mine, layout.start);
      var h := FillHeader(cache.buf[i].data);
      Store(i, layout.start, pid, h, mine);
      Drop(i, layout.start, pid, mine);
      assert mine - {layout.start} == map[];
    }

    // The in-memory header lists what the header block on disk lists.
    ghost predicate HeaderLoaded(d: Image)
      reads this
      requires Sound(layout, d)
    {
      |lh| == Count(d[layout.start]) && forall i | 0 <= i < |lh| :: lh[i] == Listed(d[layout.start], i)
    }

    // Copy the logged blocks to their home locations.
    method InstallTrans(pid: int, ghost x: nat, ghost y: nat) returns (e: End, ghost m: nat)
      requires Quiet(pid, map[]) && Sound(layout, cache.disk) && HeaderLoaded(cache.disk)
      requires forall b | b in cache.pinned :: !InLog(layout, b)
      modifies this`others, this`waiting, cache, cache.buf, cache.list, cache.list.next, cache.list.prev
      ensures m <= |lh| && cache.history == old(cache.history) + RecoveryTrace(layout, old(cache.disk))[1..m + 1]
      ensures e.Finished? ==> m == |lh| && Quiet(pid, map[]) && cache.pinned == old(cache.pinned) - SetOf(lh)
      ensures e.Finished? ==> cache.disk == Install(layout, old(cache.disk), |lh|)
      ensures e.Finished? ==> (lh != [] ==> cache.buf.Length >= 2)
      ensures (e.Panicked? ==> NoneEligible()) && (e.Asleep? ==> Stuck())
      ensures old(Calm(x, y) && (x != y || AllPinned())) ==> e.Finished? && Calm(x, y)
    {
      hide Refs;
      hide Bio.Bcache.Valid;
      hide RecoveryTrace;
      hide Install;
      hide Listed;
      hide Count;
      ghost var d, trace := cache.disk, RecoveryTrace(layout, cache.disk);
      RecoveryStart(layout, d);
      m := 0;
      for tail := 0 to |lh|
        invariant Quiet(pid, map[]) && m == tail && cache.pinned == old(cache.pinned) - SetOf(lh[..tail])
        invariant cache.disk == Install(layout, d, tail) && (tail > 0 ==> cache.buf.Length >= 2)
        invariant cache.history == old(cache.history) + trace[1..tail + 1]
        invariant old(Calm(x, y) && (x != y || AllPinned())) ==> Calm(x, y)
      {
        RecoveryStep(layout, d, tail);
        SetOfPrefix(lh, tail);
        SeenOnDisk(pid, layout.start + tail + 1);
        e := CopyBlock(layout.start + tail + 1, lh[tail], false, pid, x, y);
        if !e.Finished? { return; }
        m := tail + 1;
      }
      assert lh[..|lh|] == lh;
      e := Finished;
    }

    method LoadHeader(h: Block)
      requires Count(h) <= LOGSIZE
      modifies this`lh
      ensures |lh| == Count(h) && forall k | 0 <= k < |lh| :: lh[k] == Listed(h, k)
    {
      lh := [];
      for i := 0 to Count(h)
        invariant |lh| == i && forall k | 0 <= k < i :: lh[k] == Listed(h, k)
      {
        lh := lh + [Listed(h, i)];
      }
    }

    // Read the header on disk into the in-memory header.
    method ReadHead(pid: int, ghost x: nat, ghost y: nat) returns (e: End)
      requires Quiet(pid, map[]) && Sound(layout, cache.disk) && layout.start !in cache.pinned
      modifies this`lh, this`others, this`waiting, cache, cache.buf, cache.list, cache.list.next, cache.list.prev
      ensures cache.disk == old(cache.disk) && cache.history == old(cache.history)
      ensures e.Finished? ==> Quiet(pid, map[]) && cache.pinned == old(cache.pinned) && HeaderLoaded(cache.disk)
      ensures (e.Panicked? ==> NoneEligible()) && (e.Asleep? ==> Stuck())
      ensures old(Calm(x, y)) && old(cache.locked) == {} ==> e.Finished? && Calm(x, y)
    {
      hide Refs;
      hide Bio.Bcache.Valid;
      hide Bio.Bcache.Caches;
      SeenOnDisk(pid, layout.start);
      var r;
      e, r := Get(layout.start, pid, map[]);
      if !e.Finished? { return; }
      ghost var mine := map[layout.start := r];
      HeldIn(pid, mine, layout.start);
      var h := cache.buf[r].data;
      LoadHeader(h);
      Drop(r, layout.start, pid, mine);
      assert mine - {layout.start} == map[];
    }

    // What install_trans, the reset of log.lh.n and write_head do to a log that is loaded.
    method InstallAndClear(pid: int, ghost x: nat, ghost y: nat) returns (e: End, ghost m: nat)
      requires Quiet(pid, map[]) && Sound(layout, cache.disk) && HeaderLoaded(cache.disk)
      requires forall b | b in cache.pinned :: !InLog(layout, b)
      modifies this`lh, this`others, this`waiting, cache, cache.buf, cache.list, cache.list.next, cache.list.prev
      ensures m < |RecoveryTrace(layout, old(cache.disk))|
      ensures cache.history == old(cache.history) + RecoveryTrace(layout, old(cache.disk))[1..m + 1]
      ensures e.Finished? ==> m == |RecoveryTrace(layout, old(cache.disk))| - 1
      ensures e.Finished? ==> Quiet(pid, map[]) && cache.pinned == old(cache.pinned) - SetOf(old(lh)) && lh == []
      ensures e.Finished? ==> cache.disk == Recovered(layout, old(cache.disk))
      ensures e.Finished? ==> cache.buf.Length >= if old(lh) == [] then 1 else 2
      ensures (e.Panicked? ==> NoneEligible()) && (e.Asleep? ==> Stuck())
      ensures old(Calm(x, y) && (x != y || AllPinned())) ==> e.Finished?
    {
      hide Refs;
      hide Bio.Bcache.Valid;
      hide RecoveryTrace;
      hide Install;
      hide Recovered;
      ghost var d := cache.disk;
      RecoveryStart(layout, d);
      RecoveryEnd(layout, d);
      e, m := InstallTrans(pid, x, y);
      if !e.Finished? { return; }
      lh := [];
      e := WriteHead(pid, x, y);
      if e.Finished? { m := m + 1; }
    }

    // recover_from_log, at boot.
    method RecoverFromLog(pid: int, ghost x: nat, ghost y: nat) returns (e: End, ghost m: nat)
      requires Quiet(pid, map[]) && Sound(layout, cache.disk) && cache.pinned == {}
      modifies this`lh, this`others, this`waiting, cache, cache.buf, cache.list, cache.list.next, cache.list.prev
      ensures m < |RecoveryTrace(layout, old(cache.disk))|
      ensures cache.history == old(cache.history) + RecoveryTrace(layout, old(cache.disk))[1..m + 1]
      ensures e.Finished? ==> m == |RecoveryTrace(layout, old(cache.disk))| - 1
      ensures e.Finished? ==> Quiet(pid, map[]) && cache.pinned == {} && lh == []
      ensures e.Finished? ==> cache.disk == Recovered(layout, old(cache.disk))
      ensures e.Finished? ==> cache.buf.Length >= BuffersNeeded(old(cache.disk)[layout.start])
      ensures (e.Panicked? ==> NoneEligible()) && (e.Asleep? ==> Stuck())
      ensures old(Calm(x, y)) && old(cache.locked) == {} && (x != y || Count(old(cache.disk)[layout.start]) == 0) ==>
                e.Finished?
    {
      hide Refs;
      hide Bio.Bcache.Valid;
      hide RecoveryTrace;
      hide Recovered;
      RecoveryStart(layout, cache.disk);
      m := 0;
      e := ReadHead(pid, x, y);
      if e.Finished? { e, m := InstallAndClear(pid, x, y); }
    }

    // commit up to the point where the transaction is committed.
    method WriteTransaction(pid: int, ghost data: seq<Block>, ghost x: nat) returns (e: End, ghost m: nat)
      requires Quiet(pid, map[]) && cache.pinned == SetOf(lh) && CanCommit(layout, cache.disk, lh, data)
      requires forall i | 0 <= i < |lh| :: data[i] == cache.logical[lh[i]]
      modifies this`others, this`waiting, cache, cache.buf, cache.list, cache.list.next, cache.list.prev
      ensures m <= |lh| + 1 < |CommitTrace(layout, old(cache.disk), lh, data)|
      ensures cache.history == old(cache.history) + CommitTrace(layout, old(cache.disk), lh, data)[1..m + 1]
      ensures e.Finished? ==> m == |lh| + 1 && Quiet(pid, map[]) && cache.pinned == SetOf(lh)
      ensures e.Finished? ==> cache.disk == Committed(layout, old(cache.disk), lh, data)
      ensures (e.Panicked? ==> NoneEligible()) && (e.Asleep? ==> Stuck())
      ensures old(Calm(x, x)) ==> e.Finished? && Calm(x, x)
    {
      hide Quiet;
      hide Calm;
      hide CommitTrace;
      hide RecoveryTrace;
      hide Recovered;
      hide Logged;
      ghost var d := cache.disk;
      CommitStart(layout, d, lh, data);
      CommitTail(layout, d, lh, data, 0);
      e, m := WriteLog(pid, data, x);
      if !e.Finished? { return; }
      e := WriteHead(pid, x, x);
      if e.Finished? { m := m + 1; }
    }

    // commit for a non-empty transaction.
    method CommitSome(pid: int, ghost data: seq<Block>, ghost x: nat) returns (e: End, ghost m: nat)
      requires Quiet(pid, map[]) && cache.pinned == SetOf(lh) && CanCommit(layout, cache.disk, lh, data)
      requires forall i | 0 <= i < |lh| :: data[i] == cache.logical[lh[i]]
      modifies this`lh, this`others, this`waiting, cache, cache.buf, cache.list, cache.list.next, cache.list.prev
      ensures m < |CommitTrace(layout, old(cache.disk), old(lh), data)|
      ensures cache.history == old(cache.history) + CommitTrace(layout, old(cache.disk), old(lh), data)[1..m + 1]
      ensures e.Finished? ==> m == |CommitTrace(layout, old(cache.disk), old(lh), data)| - 1
      ensures e.Finished? ==> Quiet(pid, map[]) && cache.pinned == {} && lh == []
      ensures (e.Panicked? ==> NoneEligible()) && (e.Asleep? ==> Stuck())
      ensures old(Calm(x, x) && AllPinned()) ==> e.Finished?
      ensures e.Finished? ==> cache.disk == Recovered(layout, Committed(layout, old(cache.disk), old(lh), data))
    {
      hide Quiet;
      hide Calm;
      hide CommitTrace;
      hide RecoveryTrace;
      hide Recovered;
      hide Logged;
      ghost var d, was, trace := cache.disk, lh, CommitTrace(layout, cache.disk, lh, data);
      CommitStart(layout, d, lh, data);
      CommitTail(layout, d, lh, data, 0);
      e, m := WriteTransaction(pid, data, x);
      if !e.Finished? { return; }
      assert cache.history == old(cache.history) + trace[1..|was| + 2];
      e, m := InstallAndClear(pid, x, x);
      CommitRest(layout, d, was, data, m, old(cache.history));
      m := m + |was| + 1;
    }

    // initlog's recovery on a freshly booted cache.
    method Recover(pid: int, ghost x: nat, ghost y: nat) returns (e: End)
      requires Quiet(pid, map[]) && Sound(layout, cache.disk) && cache.pinned == {} && cache.history == [cache.disk]
      requires outstanding == 0 && !committing && ops == []
      modifies this, cache, cache.buf, cache.list, cache.list.next, cache.list.prev
      ensures forall t | 0 <= t < |cache.history| :: Sound(layout, cache.history[t]) &&
                SameHome(layout, Recovered(layout, cache.history[t]), Recovered(layout, old(cache.disk)))
      ensures e.Finished? ==> Valid() && St() == R.INIT && cache.disk == Recovered(layout, old(cache.disk))
      ensures e.Finished? ==> OnlyReaders()
      ensures commits == [Recovered(layout, old(cache.disk))] && Epochs(layout, cache.history, commits, epoch)
      ensures e.Finished? ==> cache.buf.Length >= BuffersNeeded(old(cache.disk)[layout.start])
      ensures (e.Panicked? ==> NoneEligible()) && (e.Asleep? ==> Stuck())
      ensures old(Calm(x, y)) && old(cache.locked) == {} && (x != y || Count(old(cache.disk)[layout.start]) == 0) ==>
                e.Finished?
    {
      hide Refs;
      hide Bio.Bcache.Valid;
      hide RecoveryTrace;
      hide Recovered;
      ghost var d := cache.disk;
      ghost var m;
      e, m := RecoverFromLog(pid, x, y);
      RecoveredHistory(layout, d, m, cache.history);
      commits := [Recovered(layout, d)];
      epoch := seq(|cache.history|, i => 0);
    }

    // One pass of the loop in begin_op under log.lock; when not admitted the caller sleeps and
    // tries again.
    method BeginOp() returns (admitted: bool)
      requires Valid()
      modifies this`outstanding, this`ops
      ensures Valid() && admitted == R.Admits(old(St()))
      ensures St() == if admitted then R.Begin(old(St())) else old(St())
      // A full transaction more would fit beside what is listed and what may still come.
      ensures admitted <==> !old(committing) && |old(lh)| + (old(outstanding) + 1) * MAXOPBLOCKS <= LOGSIZE
      ensures outstanding == old(outstanding) + if admitted then 1 else 0
      ensures ops == old(ops) + if admitted then [R.Op({}, None)] else []
    {
      hide Stable;
      if committing || |lh| + (outstanding + 1) * MAXOPBLOCKS > LOGSIZE { return false; }
      outstanding := outstanding + 1;
      ops := ops + [R.Op({}, None)];
      return true;
    }

    // Log absorption: a block already listed keeps its place.
    method ListBlock(b: uint)
      requires Distinct(lh)
      modifies this`lh
      ensures lh == R.Absorb(old(lh), b) && Distinct(lh) && SetOf(lh) == SetOf(old(lh)) + {b}
    {
      var k := 0;
      while k < |lh| && lh[k] != b
        invariant k <= |lh| && forall j | 0 <= j < k :: lh[j] != b
      {
        k := k + 1;
      }
      if k < |lh| {
        assert lh[k := b] == lh;
        lh := lh[k := b];
      } else {
        lh := lh + [b];
      }
    }

    // Record the block in the header and pin its buffer; false is a panic.
    method LogWrite(i: nat, b: uint, pid: int, ghost op: nat) returns (ok: bool)
      requires Valid() && cache.Holds(i, b, pid) && b < |cache.disk| && !InLog(layout, b)
      requires ops != [] ==> op < |ops| && ops[op].pending == None
      modifies this`lh, this`ops, cache`pinned, cache.buf
      ensures ok <==> !R.Full(old(lh), layout.size) && old(outstanding) >= 1
      ensures ok <==> |old(lh)| < LOGSIZE && |old(lh)| < layout.size - 1 && old(outstanding) >= 1
      ensures ok ==> lh == if b in old(lh) then old(lh) else old(lh) + [b]
      ensures !ok ==> St() == old(St()) && cache.pinned == old(cache.pinned)
      ensures ok ==> Valid() && cache.Holds(i, b, pid) && cache.pinned == old(cache.pinned) + {b}
      ensures ok ==> St() == R.Append(R.Test(old(St()), op, b, layout.size), op)
    {
      hide Refs;
      hide Bio.Bcache.Valid;
      hide Epochs;
      hide Sound;
      hide SameHome;
      hide SetOf;
      hide Distinct;
      if |lh| >= LOGSIZE || |lh| >= layout.size - 1 { return false; }
      if outstanding < 1 { return false; }
      ListBlock(b);
      ops := ops[op := R.Op(ops[op].logged + {b}, None)];
      ghost var bufs := cache.buf[..];
      if i in waiting { RefsAt(layout, |cache.disk|, bufs, waiting, i); }
      cache.Pin(i, b, pid);
      RefsKept(layout, |cache.disk|, bufs, waiting, i, cache.buf[i], waiting);
      return true;
    }

    // What the file system does to a block: bread, a change, log_write and brelse.
    method Update(b: uint, data: Block, pid: int, ghost op: nat) returns (e: End)
      requires Valid() && OnlyReaders() && b < |cache.disk| && !InLog(layout, b)
      requires op < |ops| && ops[op].pending == None
      modifies this`lh, this`others, this`waiting, this`ops
      modifies cache, cache.buf, cache.list, cache.list.next, cache.list.prev
      ensures cache.disk == old(cache.disk) && cache.history == old(cache.history)
      ensures e.Finished? ==> Valid() && OnlyReaders() && !R.Full(old(lh), layout.size)
      ensures e.Finished? ==> St() == R.Append(R.Test(old(St()), op, b, layout.size), op)
      ensures e.Finished? ==> b < |old(cache.logical)| && cache.logical == old(cache.logical)[b := data]
      ensures e.Panicked? ==> R.Full(old(lh), layout.size) || NoneEligible()
      ensures e.Asleep? ==> Stuck()
    {
      hide Stable;
      hide Quiet;
      hide OnlyReaders;
      hide LogOk;
      StableIsQuiet(pid);
      StableIs();
      var i;
      e, i := Get(b, pid, map[]);
      if !e.Finished? { return; }
      ghost var mine := map[b := i];
      HeldIn(pid, mine, b);
      Change(i, b, pid, data, mine);
      StableAgain(pid, mine);
      HeldIn(pid, mine, b);
      QuietReads(pid, mine);
      var ok := LogWrite(i, b, pid, op);
      if !ok { return Panicked; }
      QuietAgain(pid, b, i);
      StableIs();
      Drop(i, b, pid, mine);
      assert mine - {b} == map[];
      StableAgain(pid, map[]);
    }

    // A commit started now gets through.
    ghost predicate Undisturbed()
      reads this, cache, cache.buf
    {
      lh == [] || (others == [] && (exists x :: Spare(x)) && forall b | b in lh :: b !in cache.locked)
    }

    // With nothing pinned the disk is what the file system sees.
    lemma Settled()
      requires Stable() && OnlyReaders() && cache.pinned == {}
      ensures cache.logical == cache.disk
    {
      hide Bio.Bcache.Valid;
      forall b | 0 <= b < |cache.disk| ensures cache.logical[b] == cache.disk[b] {
        if b !in cache.locked { cache.CleanIsOnDisk(b); }
      }
    }

    lemma StableSizes()
      requires Stable()
      ensures |cache.logical| == |cache.disk|
    {
    }

    lemma StableIs()
      requires Stable()
      ensures LogOk()
    {
    }

    lemma StableIsQuiet(pid: int)
      requires Stable() && OnlyReaders()
      ensures Quiet(pid, map[])
    {
    }

    lemma QuietReads(pid: int, mine: map<nat, nat>)
      requires Quiet(pid, mine)
      ensures |cache.logical| == |cache.disk| && forall b | b in cache.locked && b !in mine :: ReadOnly(b)
    {
    }

    // A process that has blocks outside the log in hand is between two steps of the file system.
    lemma StableAgain(pid: int, mine: map<nat, nat>)
      requires Quiet(pid, mine) && LogOk() && forall b | b in mine :: !InLog(layout, b)
      ensures Stable() && (mine == map[] ==> OnlyReaders())
    {
      hide LogOk;
      forall b | b in cache.locked ensures b < |cache.disk| && !InLog(layout, b) {
        if b in mine { HeldIn(pid, mine, b); }
      }
    }

    lemma QuietAgain(pid: int, b: nat, i: nat)
      requires Stable() && cache.Holds(i, b, pid) && b in cache.locked && |cache.logical| == |cache.disk|
      requires forall c | c in cache.locked && c != b :: ReadOnly(c)
      ensures Quiet(pid, map[b := i])
    {
    }

    lemma StableEpochs()
      requires Stable()
      ensures Epochs(layout, cache.history, commits, epoch)
    {
    }

    // commit: nothing to do for an empty transaction.
    method Commit(pid: int) returns (e: End)
      requires Stable() && OnlyReaders()
      modifies this`lh, this`others, this`waiting, this`commits, this`epoch
      modifies cache, cache.buf, cache.list, cache.list.next, cache.list.prev
      ensures old(cache.history) <= cache.history
      // Wherever the power fails, recovery finds the old disk or the file system's view.
      ensures Epochs(layout, cache.history, commits, epoch)
      ensures commits == if old(lh) == [] then old(commits) else old(commits) + [old(cache.logical)]
      ensures e.Finished? ==> Stable() && lh == [] && cache.pinned == {}
      ensures e.Finished? ==> OnlyReaders()
      ensures e.Finished? ==> SameHome(layout, cache.disk, old(cache.logical))
      ensures (e.Panicked? ==> NoneEligible()) && (e.Asleep? ==> Stuck())
      ensures old(Undisturbed()) ==> e.Finished?
    {
      hide Refs;
      hide Bio.Bcache.Valid;
      hide CommitTrace;
      hide Recovered;
      hide Committed;
      hide Epochs;
      hide NextEpochs;
      ghost var d, view, was := cache.disk, cache.logical, lh;
      forall b | 0 <= b < |d| && !InLog(layout, b) && b !in lh ensures view[b] == d[b] {
        SeenOnDisk(pid, b);
      }
      if |lh| == 0 { return Finished; }
      forall k | 0 <= k < |lh| ensures lh[k] < |d| && !InLog(layout, lh[k]) {
        assert lh[k] in cache.pinned;
      }
      ghost var m;
      ghost var x := if exists x :: Spare(x) then var x :| Spare(x); x else 0;
      e, m := CommitSome(pid, DataOf(view, was), x);
      ExtendEpochs(layout, old(cache.history), commits, epoch, d, view, was, m);
      CommitEnd(layout, d, view, was);
      epoch := epoch + NextEpochs(|commits| - 1, |was|, m);
      commits := commits + [view];
    }

    // Leave the transaction, and commit it if nobody else is in it.
    method EndOp(pid: int, ghost op: nat) returns (e: End)
      requires Valid() && op < |ops| && (|ops| == 1 ==> OnlyReaders())
      modifies this, cache, cache.buf, cache.list, cache.list.next, cache.list.prev
      ensures old(cache.history) <= cache.history
      ensures Epochs(layout, cache.history, commits, epoch)
      ensures commits == if |old(ops)| == 1 && old(lh) != [] then old(commits) + [old(cache.logical)] else old(commits)
      ensures e.Finished? ==> Valid()
      ensures (e.Panicked? ==> |old(ops)| == 1 && NoneEligible()) && (e.Asleep? ==> |old(ops)| == 1 && Stuck())
      ensures old(Undisturbed()) ==> e.Finished?
      ensures |old(ops)| > 1 ==> e.Finished? && St() == R.End(old(St()), op) && cache.history == old(cache.history)
      ensures |old(ops)| > 1 ==> lh == old(lh) && ops == old(ops)[..op] + old(ops)[op + 1..] && !committing
      ensures |old(ops)| > 1 ==> unchanged(cache)
      ensures e.Finished? && |old(ops)| == 1 ==> OnlyReaders()
      ensures e.Finished? && |old(ops)| == 1 ==> St() == R.INIT && cache.pinned == {}
      ensures e.Finished? && |old(ops)| == 1 ==> lh == [] && ops == [] && !committing
      ensures e.Finished? && |old(ops)| == 1 ==> SameHome(layout, cache.disk, old(cache.logical))
    {
      hide Stable;
      hide OnlyReaders;
      StableEpochs();
      ghost var x := if exists x :: Spare(x) then var x :| Spare(x); x else 0;
      outstanding := outstanding - 1;
      ops := ops[..op] + ops[op + 1..];
      if committing { return Panicked; }
      if outstanding == 0 {
        committing := true;
        assert old(Spare(x)) ==> Spare(x);
        e := Commit(pid);
        if !e.Finished? { return; }
        committing := false;
      } else {
        e := Finished;  // wakeup(&log)
      }
    }
  }

  // binit and initlog when the machine starts, on the disk that the last run left.  The log is
  // recovered exactly when the cache has the buffers for it; nobody else is there to hold any.
  method Boot(nbuf: nat, disk: Image, layout: Layout, pid: int) returns (log: Log, e: End)
    requires Sound(layout, disk) && |disk| <= UINT_LIMIT
    ensures e.Finished? <==> nbuf >= BuffersNeeded(disk[layout.start])
    ensures fresh(log) && fresh(log.cache) && fresh(log.cache.buf) && fresh(log.cache.list)
    ensures fresh(log.cache.list.next) && fresh(log.cache.list.prev) && log.layout == layout
    ensures e.Finished? ==> log.Valid() && log.St() == R.INIT && log.cache.disk == Recovered(layout, disk)
    ensures e.Finished? ==> log.cache.pinned == {} && log.OnlyReaders()
    ensures (e.Panicked? ==> log.NoneEligible()) && (e.Asleep? ==> log.Stuck())
    ensures log.commits == [Recovered(layout, disk)] && Epochs(layout, log.cache.history, log.commits, log.epoch)
    ensures forall t | 0 <= t < |log.cache.history| :: Sound(layout, log.cache.history[t]) &&
              SameHome(layout, Recovered(layout, log.cache.history[t]), Recovered(layout, disk))
  {
    hide Recovered;
    var cache := new Bio.Bcache(nbuf, disk);
    log := new Log(cache, layout);
    e := log.Recover(pid, 0, if nbuf >= 2 then 1 else 0);
  }
}
