/** filewrite of file.c: a long write in chunks that each fit one transaction. */
module File {
  import opened Bytes
  import opened FsLayout
  import opened FsMap
  import opened FsContent
  import opened FsCost
  import opened FsNeed
  import opened FsBook
  import opened Fs
  import LogImage

  // ((MAXOPBLOCKS-1-1-2) / 2) * 512
  const MAX_CHUNK: nat := (LogImage.MAXOPBLOCKS - 1 - 1 - 2) / 2 * 512

  // The worst case of a chunk is exactly what a transaction may hold: 4 data blocks, 4 bitmap
  // blocks, the indirect block and the inode.
  lemma ChunkCost(off: nat, n: nat)
    requires n <= MAX_CHUNK
    ensures MaxCost(off, n) <= LogImage.MAXOPBLOCKS && Touched(off, n) <= 4
  {
  }

  lemma SpliceMore(s: seq<byte>, off: nat, a: seq<byte>, b: seq<byte>)
    requires off <= |s|
    ensures off + |a| <= |Splice(s, off, a)|
    ensures Splice(Splice(s, off, a), off + |a|, b) == Splice(s, off, a + b)
  {
  }

  // A file system as a commit finds or leaves it.
  datatype Snap = Snap(disk: Image, tab: Table, own: Owners)

  // Everything is on disk: each block with its owner, each inode as it is in memory, no file with a hole.
  ghost predicate OnDiskOk(sb: Super, s: Snap)
  {
    && Wf(sb, s.disk, s.tab, s.own, {})
    && (forall j: nat {:trigger InodeOk(sb, s, j)} :: InodeOk(sb, s, j))
  }

  ghost predicate InodeOk(sb: Super, s: Snap, j: nat)
  {
    SuperOk(sb) && |s.disk| == sb.size && j < sb.ninodes && j < |s.tab| ==>
      OnDisk(sb, s.disk, j) == s.tab[j] && NoHoles(s.tab[j], s.disk)
  }

  // One transaction of filewrite.
  datatype Tx = Tx(before: Snap, after: Snap, ledger: Ledger)

  // What a transaction that has written a chunk has done to the files, and what it has cost.
  ghost predicate ChunkWrote(sb: Super, tx: Tx, i: nat, off: nat, chunk: seq<byte>)
  {
    && i < |tx.before.tab| && i < |tx.after.tab| && off <= |Content(tx.before.tab[i], tx.before.disk)|
    && Content(tx.after.tab[i], tx.after.disk) == Splice(Content(tx.before.tab[i], tx.before.disk), off, chunk)
    && OthersSame(tx.before, tx.after, i) && PaidFor(sb, tx, i, off, |chunk|)
  }

  // The state of the file system in which begin_op starts a transaction.
  function Start(s: Snap): Begun { Begun(s.disk, s.tab, s.own.Keys, Ledger({}, {}, s.disk)) }

  // The transaction has written n bytes at off of inode i, and paid for them to the block.
  ghost predicate PaidFor(sb: Super, tx: Tx, i: nat, off: nat, n: nat)
  {
    && i < |tx.after.tab|
    && Paid(sb, Start(tx.before), tx.after.tab[i], tx.after.disk, tx.after.own.Keys, tx.ledger, i, off, n)
  }

  lemma PaidBound(sb: Super, tx: Tx, i: nat, off: nat, n: nat)
    requires PaidFor(sb, tx, i, off, n) && n <= MAX_CHUNK
    ensures tx.ledger.clean == tx.before.disk
    ensures |tx.ledger.logged| <= LogImage.MAXOPBLOCKS && (sb.size <= BPB ==> |tx.ledger.logged| <= 7)
  {
    hide Extended;
    hide Draws;
    hide WriteSet;
    hide Need;
    hide MaxCost;
    hide Touched;
    ChunkCost(off, n);
    var blocks := WriteSet(sb, tx.before.tab[i], tx.before.disk, tx.after.tab[i], tx.after.disk, i, off, n);
    LoggedBound(sb, Start(tx.before).ledger, tx.ledger, blocks,
                Need(tx.before.tab[i], tx.before.disk, off / BSIZE, LastBlock(off, n)));
  }

  // The blocks in c are free, and come before every other free block.
  ghost predicate FreeFirst(sb: Super, disk: Image, c: set<nat>)
  {
    && SuperOk(sb) && |disk| == sb.size && c <= FreeBlocks(sb, disk)
    && forall b, x | b in FreeBlocks(sb, disk) && b !in c && x in c :: x < b
  }

  // There is one way to take so many of the first free blocks.
  lemma SameFirst(free: set<nat>, c: set<nat>, got: set<nat>)
    requires c <= free && got <= free && |got| == |c|
    requires forall b, x | b in free && b !in c && x in c :: x < b
    requires forall b, x | b in free && b !in got && x in got :: x < b
    ensures got == c
  {
    if x :| x in c && x !in got {
      forall b | b in got ensures b in c - {x} {
      }
      SubsetSize(got, c - {x});
    }
    if b :| b in got && b !in c {
      SubsetSize(c + {b}, got);
    }
  }

  // As many blocks as c has have been taken, so it is those.
  lemma TookFirst(sb: Super, s: Snap, t: Snap, c: set<nat>, was: Ledger, now: Ledger)
    requires Wf(sb, s.disk, s.tab, s.own, {}) && Wf(sb, t.disk, t.tab, t.own, {}) && FreeFirst(sb, s.disk, c)
    requires Draws(sb, s.own.Keys, t.own.Keys, was, now, |c|)
    ensures t.own.Keys - s.own.Keys == c
  {
    hide FreeBlocks;
    hide Wf;
    hide Draws;
    var free, got := FreeBlocks(sb, s.disk), t.own.Keys - s.own.Keys;
    Drawn(sb, s.own.Keys, t.own.Keys, was, now, |c|);
    forall b | b in got ensures b in free {
      OwnedRange(sb, t.disk, t.tab, t.own, {}, b);
      FreeIsUnowned(sb, s, b);
    }
    forall b, x | b in free && b !in got && x in got ensures x < b {
      FreeIsUnowned(sb, s, b);
      DrawnBefore(sb, s.own.Keys, t.own.Keys, was, now, |c|, x, b);
    }
    SameFirst(free, c, got);
  }

  lemma FreeIsUnowned(sb: Super, s: Snap, b: nat)
    requires Wf(sb, s.disk, s.tab, s.own, {})
    ensures b in FreeBlocks(sb, s.disk) <==> sb.datastart <= b < sb.size && b !in s.own
  {
    hide InUse;
    hide Ptr;
    assert MarkOk(sb, s.disk, s.own, {}, b);
  }

  // A chunk that starts in the last direct block of a file without an indirect block needs four blocks.
  lemma FourNew(d: Dinode, disk: Image, off: nat)
    requires NoHoles(d, disk) && d.addrs[NDIRECT] == 0 && (NDIRECT - 1) * BSIZE < off == d.size < NDIRECT * BSIZE
    ensures LastBlock(off, MAX_CHUNK) == NDIRECT + 3 && Touched(off, MAX_CHUNK) == 4 && off / BSIZE == NDIRECT - 1
    ensures Need(d, disk, NDIRECT - 1, NDIRECT + 3) == 4 && NewEntries(d, disk, NDIRECT - 1, NDIRECT + 3)
  {
    hide Ptr;
    assert Addr(d, disk, NDIRECT - 1) != 0;
    forall bn | NDIRECT <= bn < MAXFILE ensures Addr(d, disk, bn) == 0 {
      NoEntries(d, disk, bn - NDIRECT);
    }
    assert NewData(d, disk, NDIRECT - 1, NDIRECT) == 0;
    assert NewData(d, disk, NDIRECT - 1, NDIRECT + 2) == 2;
  }

  // Such a transaction logs all that MAXOPBLOCKS allows, if the first four free blocks have four
  // bitmap blocks: 4 data blocks, the indirect block, the inode, and the 4 bitmap blocks.
  lemma FullCost(sb: Super, tx: Tx, i: nat, off: nat, c: set<nat>)
    requires PaidFor(sb, tx, i, off, MAX_CHUNK) && OnDiskOk(sb, tx.before) && OnDiskOk(sb, tx.after)
    requires i < |tx.before.tab| && NoHoles(tx.before.tab[i], tx.before.disk) && tx.before.tab[i].addrs[NDIRECT] == 0
    requires (NDIRECT - 1) * BSIZE < off == tx.before.tab[i].size < NDIRECT * BSIZE
    requires FreeFirst(sb, tx.before.disk, c) && |c| == |Bitmaps(sb, c)| == 4
    ensures |tx.ledger.logged| == LogImage.MAXOPBLOCKS
  {
    hide OnDiskOk;
    hide Wf;
    hide NoHoles;
    hide Extended;
    hide FreeFirst;
    hide Bitmaps;
    hide LastBlock;
    hide Touched;
    hide WriteSet;
    hide Need;
    hide NewEntries;
    WfSizes(sb, tx.before);
    WfSizes(sb, tx.after);
    FourNew(tx.before.tab[i], tx.before.disk, off);
    TookFirst(sb, tx.before, tx.after, c, Start(tx.before).ledger, tx.ledger);
    ExactCost(sb, Start(tx.before), tx.after.disk, tx.after.tab, tx.after.own, tx.ledger, i, off, MAX_CHUNK);
  }

  // The blocks that a write of n bytes at off of a file has to allocate.
  function NeedOf(d: Dinode, disk: Image, off: nat, n: nat): nat
  {
    if LastBlock(off, n) <= MAXFILE then Need(d, disk, off / BSIZE, LastBlock(off, n)) else 0
  }

  // How much of a write of n bytes at off filewrite gets done, blocks permitting: all of it, or the
  // whole chunks that lie below the largest size, or nothing behind the end of the file.
  function Reach(off: nat, size: nat, n: nat): nat
  {
    if off > size || off > MAXFILE * BSIZE then 0
    else if off + n <= MAXFILE * BSIZE then n
    else (MAXFILE * BSIZE - off) / MAX_CHUNK * MAX_CHUNK
  }

  // k bytes of a write at off have been done since `first`: the blocks that took are there.
  ghost predicate Spread(first: Snap, now: Snap, i: nat, off: nat, k: nat)
  {
    i < |first.tab| && i < |now.tab| && off + k <= MAXFILE * BSIZE ==>
      && LastBlock(off, k) <= MAXFILE
      && Extended(first.tab[i], first.disk, now.tab[i], now.disk, off / BSIZE, LastBlock(off, k))
      && |now.own.Keys| == |first.own.Keys| + Need(first.tab[i], first.disk, off / BSIZE, LastBlock(off, k))
  }

  lemma SpreadNone(s: Snap, i: nat, off: nat)
    ensures Spread(s, s, i, off, 0)
  {
    hide Ptr;
  }

  lemma BlocksJoin(off: nat, k: nat, n: nat)
    requires n > 0 && off + k + n <= MAXFILE * BSIZE
    ensures LastBlock(off + k, n) == LastBlock(off, k + n) <= MAXFILE
    ensures off / BSIZE <= (off + k) / BSIZE <= LastBlock(off, k) <= LastBlock(off, k + n)
    ensures (off + k) / BSIZE < LastBlock(off, k + n)
  {
  }

  // A chunk more.
  lemma SpreadNext(sb: Super, first: Snap, tx: Tx, i: nat, off: nat, k: nat, n: nat)
    requires Spread(first, tx.before, i, off, k) && i < |first.tab| && i < |tx.before.tab| && n > 0
    requires off + k + n <= MAXFILE * BSIZE
    ensures NeedOf(first.tab[i], first.disk, off, k + n) ==
              NeedOf(first.tab[i], first.disk, off, k) + NeedOf(tx.before.tab[i], tx.before.disk, off + k, n)
    ensures PaidFor(sb, tx, i, off + k, n) ==> Spread(first, tx.after, i, off, k + n)
  {
    hide Extended;
    hide Draws;
    hide Spends;
    hide Need;
    hide MaxCost;
    hide LastBlock;
    hide WriteSet;
    BlocksJoin(off, k, n);
    var lo, m, lo1, hi := off / BSIZE, LastBlock(off, k), (off + k) / BSIZE, LastBlock(off, k + n);
    var d2 := if i < |tx.after.tab| then tx.after.tab[i] else first.tab[i];
    NeedJoin(first.tab[i], first.disk, tx.before.tab[i], tx.before.disk, d2, tx.after.disk, lo, m, lo1, hi);
    if PaidFor(sb, tx, i, off + k, n) {
      PaidCount(sb, Start(tx.before), tx.after.tab[i], tx.after.disk, tx.after.own.Keys, tx.ledger, i, off + k, n);
    }
  }

  // A longer write needs no less.
  lemma NeedLonger(d: Dinode, disk: Image, off: nat, k: nat, n: nat)
    requires k <= n && off + n <= MAXFILE * BSIZE
    ensures NeedOf(d, disk, off, k) <= NeedOf(d, disk, off, n)
  {
    hide Need;
    LastBlockIn(off, n, MAXFILE);
    NeedGrows(d, disk, off / BSIZE, LastBlock(off, k), LastBlock(off, n));
  }

  lemma ReachIs(off: nat, size: nat, n: nat, k: nat, m: nat)
    requires k == m * MAX_CHUNK && k < n && off <= size && off + k <= MAXFILE * BSIZE
    ensures var n1 := if n - k > MAX_CHUNK then MAX_CHUNK else n - k;
            if off + k + n1 > MAXFILE * BSIZE then Reach(off, size, n) == k else k + n1 <= Reach(off, size, n)
    ensures off + Reach(off, size, n) <= MAXFILE * BSIZE
  {
    var w := MAXFILE * BSIZE - off;
    if off + n > MAXFILE * BSIZE {
      if w < k + MAX_CHUNK { WholeChunks(w, m); } else { MoreChunks(w, m); }
    }
  }

  lemma WholeChunks(w: nat, m: nat)
    requires m * MAX_CHUNK <= w < m * MAX_CHUNK + MAX_CHUNK
    ensures w / MAX_CHUNK * MAX_CHUNK == m * MAX_CHUNK
  {
  }

  lemma MoreChunks(w: nat, m: nat)
    requires m * MAX_CHUNK + MAX_CHUNK <= w
    ensures m * MAX_CHUNK + MAX_CHUNK <= w / MAX_CHUNK * MAX_CHUNK <= w
  {
  }

  lemma NothingNeeded(d: Dinode, disk: Image, off: nat, size: nat, n: nat)
    requires off > size
    ensures NeedOf(d, disk, off, Reach(off, size, n)) == 0
  {
  }

  // There were blocks for everything that has been written.
  lemma Enough(sb: Super, first: Snap, now: Snap, i: nat, off: nat, size: nat, k: nat)
    requires OnDiskOk(sb, first) && OnDiskOk(sb, now) && i < |first.tab|
    requires Spread(first, now, i, off, k) && off + k <= MAXFILE * BSIZE && off <= size
    ensures Reach(off, size, k) == k
    ensures |FreeBlocks(sb, first.disk)| == |FreeBlocks(sb, now.disk)| + NeedOf(first.tab[i], first.disk, off, k)
  {
    hide Wf;
    hide OnDiskOk;
    hide Extended;
    hide Need;
    hide FreeBlocks;
    WfSizes(sb, first);
    WfSizes(sb, now);
    FreeCount(sb, first.disk, first.tab, first.own);
    FreeCount(sb, now.disk, now.tab, now.own);
  }

  lemma WfSizes(sb: Super, s: Snap)
    requires OnDiskOk(sb, s)
    ensures Wf(sb, s.disk, s.tab, s.own, {}) && SuperOk(sb) && |s.disk| == sb.size && |s.tab| == sb.ninodes
  {
  }

  // Blocks run out in the next chunk only if the whole write needs more than there were.
  lemma Shortage(sb: Super, first: Snap, now: Snap, i: nat, off: nat, size: nat, k: nat, m: nat, n: nat)
    requires OnDiskOk(sb, first) && OnDiskOk(sb, now) && i < |first.tab| && i < |now.tab|
    requires Spread(first, now, i, off, k) && off <= size && k == m * MAX_CHUNK && k < n && off + k <= MAXFILE * BSIZE
    ensures SuperOk(sb) && |first.disk| == |now.disk| == sb.size
    ensures var n1 := if n - k > MAX_CHUNK then MAX_CHUNK else n - k;
            var need := NeedOf(first.tab[i], first.disk, off, Reach(off, size, n));
            if off + k + n1 > MAXFILE * BSIZE then |FreeBlocks(sb, first.disk)| >= need
            else |FreeBlocks(sb, now.disk)| < NeedOf(now.tab[i], now.disk, off + k, n1) ==>
                   |FreeBlocks(sb, first.disk)| < NeedOf(first.tab[i], first.disk, off, Reach(off, size, n))
  {
    hide OnDiskOk;
    hide Wf;
    hide NeedOf;
    hide FreeBlocks;
    hide Spread;
    hide Reach;
    var n1 := if n - k > MAX_CHUNK then MAX_CHUNK else n - k;
    ReachIs(off, size, n, k, m);
    Enough(sb, first, now, i, off, size, k);
    WfSizes(sb, first);
    WfSizes(sb, now);
    if off + k + n1 <= MAXFILE * BSIZE {
      SpreadNext(sb, first, Tx(now, now, Ledger({}, {}, [])), i, off, k, n1);
      NeedLonger(first.tab[i], first.disk, off, k + n1, Reach(off, size, n));
    }
  }

  // It starts and ends with everything on disk, has logged whatever it changed, and fits the log.
  ghost predicate TxOk(sb: Super, tx: Tx)
  {
    && OnDiskOk(sb, tx.before) && OnDiskOk(sb, tx.after) && Recorded(sb, tx.after.disk, tx.ledger)
    && tx.ledger.clean == tx.before.disk
    && |tx.ledger.logged| <= LogImage.MAXOPBLOCKS && (sb.size <= BPB ==> |tx.ledger.logged| <= 7)
  }

  lemma AllOnDisk(sb: Super, disk: Image, icache: map<nat, Dinode>, tab: Table, own: Owners)
    requires StOk(sb, disk, icache, tab, own) && forall j | 0 <= j < sb.ninodes :: OnDisk(sb, disk, j) == tab[j]
    ensures OnDiskOk(sb, Snap(disk, tab, own))
  {
    hide NoHoles;
    hide Wf;
    hide Decode;
    hide Current;
  }

  // How much of n bytes the first t chunks hold.
  function Cut(n: nat, t: nat): nat { if t * MAX_CHUNK < n then t * MAX_CHUNK else n }

  // s with a written at off, if that is inside it.
  function After(s: seq<byte>, off: nat, a: seq<byte>): seq<byte> { if off <= |s| then Splice(s, off, a) else s }

  ghost predicate FileIs(s: Snap, i: nat, bytes: seq<byte>) { i < |s.tab| && Content(s.tab[i], s.disk) == bytes }

  ghost predicate OthersSame(s: Snap, t: Snap, i: nat)
  {
    && |s.tab| == |t.tab|
    && forall j | 0 <= j < |s.tab| && j != i ::
      t.tab[j] == s.tab[j] && Content(t.tab[j], t.disk) == Content(s.tab[j], s.disk)
  }

  // The m-th transaction of a filewrite: it finds m chunks written, and leaves one more, or fails and changes nothing.
  ghost predicate Wrote(sb: Super, i: nat, first: Snap, bytes: seq<byte>, off: nat, addr: seq<byte>, tx: Tx, m: nat)
  {
    && TxOk(sb, tx) && OthersSame(first, tx.before, i) && OthersSame(first, tx.after, i)
    && FileIs(tx.before, i, After(bytes, off, addr[..Cut(|addr|, m)]))
    && (FileIs(tx.after, i, After(bytes, off, addr[..Cut(|addr|, m + 1)])) || tx.after == tx.before)
  }

  ghost predicate WroteAt(sb: Super, i: nat, first: Snap, bytes: seq<byte>, off: nat, addr: seq<byte>, txs: seq<Tx>,
                          t0: nat, t: nat)
  {
    t0 <= t < |txs| ==> Wrote(sb, i, first, bytes, off, addr, txs[t], t - t0)
  }

  ghost predicate AllWrote(sb: Super, i: nat, first: Snap, bytes: seq<byte>, off: nat, addr: seq<byte>, txs: seq<Tx>,
                           t0: nat)
  {
    forall t: nat {:trigger WroteAt(sb, i, first, bytes, off, addr, txs, t0, t)} ::
      WroteAt(sb, i, first, bytes, off, addr, txs, t0, t)
  }

  lemma WroteNone(sb: Super, i: nat, first: Snap, bytes: seq<byte>, off: nat, addr: seq<byte>, txs: seq<Tx>)
    ensures AllWrote(sb, i, first, bytes, off, addr, txs, |txs|)
  {
  }

  lemma WroteMore(sb: Super, i: nat, first: Snap, bytes: seq<byte>, off: nat, addr: seq<byte>, txs: seq<Tx>, t0: nat,
                  tx: Tx)
    requires t0 <= |txs| && AllWrote(sb, i, first, bytes, off, addr, txs, t0)
    requires Wrote(sb, i, first, bytes, off, addr, tx, |txs| - t0)
    ensures AllWrote(sb, i, first, bytes, off, addr, txs + [tx], t0)
  {
    hide Wrote;
    var txs' := txs + [tx];
    forall t: nat ensures WroteAt(sb, i, first, bytes, off, addr, txs', t0, t) {
      assert WroteAt(sb, i, first, bytes, off, addr, txs, t0, t);
    }
  }

  lemma CutNext(n: nat, m: nat)
    requires Cut(n, m) < n
    ensures Cut(n, m) == m * MAX_CHUNK
    ensures Cut(n, m + 1) == Cut(n, m) + (if n - Cut(n, m) > MAX_CHUNK then MAX_CHUNK else n - Cut(n, m))
  {
  }

  // A chunk more of the file, and of no other.
  lemma AfterMore(bytes: seq<byte>, off: nat, addr: seq<byte>, i: nat, j: nat)
    requires i <= j <= |addr| && off <= |bytes|
    ensures off + i <= |After(bytes, off, addr[..i])|
    ensures Splice(After(bytes, off, addr[..i]), off + i, addr[i..j]) == After(bytes, off, addr[..j])
  {
    hide Splice;
    SpliceMore(bytes, off, addr[..i], addr[i..j]);
    assert addr[..i] + addr[i..j] == addr[..j];
  }

  lemma KeptTrans(s: Snap, t: Snap, u: Snap, i: nat)
    requires OthersSame(s, t, i) && OthersSame(t, u, i)
    ensures OthersSame(s, u, i)
  {
    hide Content;
  }

  class OpenFile {
    const fs: Fs
    const ip: nat
    const writable: bool
    var off: uint
    ghost var txs: seq<Tx>

    constructor (fs: Fs, ip: nat, writable: bool)
      ensures this.fs == fs && this.ip == ip && this.writable == writable && off == 0 && txs == []
      ensures fs.Valid() && ip < fs.sb.ninodes && OnDiskOk(fs.sb, Snap(fs.disk, fs.tab, fs.own)) ==> Valid()
    {
      this.fs, this.ip, this.writable, off, txs := fs, ip, writable, 0, [];
    }

    ghost function Now(): Snap
      reads this, fs
    {
      Snap(fs.disk, fs.tab, fs.own)
    }

    ghost predicate Valid()
      reads this, fs
    {
      fs.Valid() && ip < fs.sb.ninodes && OnDiskOk(fs.sb, Now())
    }

    ghost function Bytes(): seq<byte>
      reads this, fs
      requires ip < |fs.tab|
    {
      Content(fs.tab[ip], fs.disk)
    }

    // A chunk can be written at the current offset.
    ghost predicate Fits(n: nat)
      reads this, fs
      requires ip < |fs.tab|
    {
      off <= |Bytes()| && off + n <= MAXFILE * BSIZE
    }

    // ilock would find a free inode on disk.
    ghost predicate Dead()
      reads this, fs
      requires ip < |fs.tab|
    {
      ip !in fs.icache && fs.tab[ip].typ == 0
    }

    // There are fewer free blocks than a write of n bytes at the current offset needs.
    ghost predicate Short(n: nat)
      reads this, fs
      requires ip < |fs.tab| && SuperOk(fs.sb) && |fs.disk| == fs.sb.size
    {
      |FreeBlocks(fs.sb, fs.disk)| < NeedOf(fs.tab[ip], fs.disk, off, n)
    }

    // A transaction from begin_op to end_op, without the offset of the file.
    method Transact(chunk: seq<byte>) returns (r: IoResult)
      requires Valid() && |chunk| <= MAX_CHUNK && fs.tab[ip].typ != T_DEV
      modifies fs
      ensures !r.Panicked? ==> Valid() && ip in fs.icache && fs.tab[ip].typ == old(fs.tab[ip].typ)
      ensures !r.Panicked? ==> r == if old(Fits(|chunk|)) then Done(|chunk|) else Failed
      ensures !r.Panicked? ==> TxOk(fs.sb, Tx(old(Now()), Now(), fs.ledger))
      ensures r.Failed? ==> Now() == old(Now())
      ensures r.Done? ==> ChunkWrote(fs.sb, Tx(old(Now()), Now(), fs.ledger), ip, off, chunk)
      ensures r.Panicked? <==> old(Dead()) || old(Fits(|chunk|) && Short(|chunk|))
      ensures r.Panicked? && !old(Dead()) ==> fs.Valid() && FreeBlocks(fs.sb, fs.disk) == {}
    {
      hide StOk;
      hide Content;
      hide Paid;
      hide Need;
      hide LastBlock;
      hide FreeBlocks;
      hide Decode;
      hide Recorded;
      hide OnDiskOk;
      hide Spliced;
      hide OthersSame;
      hide TxOk;
      hide ChunkWrote;
      Synced(fs.sb, Now(), ip);
      Sizes(fs.sb, Now(), ip);
      fs.BeginOp();
      var ok := fs.Ilock(ip);
      if !ok { return Panicked; }
      assert fs.Begins() == Start(Now());
      r := fs.Writei(ip, chunk, off);
      if r.Panicked? { return; }
      if r.Done? {
        DoneIs(fs.sb, Tx(old(Now()), Now(), fs.ledger), fs.icache, ip, off, chunk);
      } else {
        NothingIs(fs.sb, Now(), fs.ledger);
      }
    }

    // One transaction: begin_op, ilock, writei, iunlock, end_op.
    method WriteOne(chunk: seq<byte>) returns (r: IoResult)
      requires Valid() && |chunk| <= MAX_CHUNK && fs.tab[ip].typ != T_DEV
      modifies this, fs
      ensures !r.Panicked? ==> Valid() && r == (if old(Fits(|chunk|)) then Done(|chunk|) else Failed)
      ensures r.Failed? ==> off == old(off) && Now() == old(Now())
      ensures r.Done? ==> old(off) <= |old(Bytes())| && Bytes() == Splice(old(Bytes()), old(off), chunk)
      ensures r.Done? ==> off == old(off) + |chunk| && OthersSame(old(Now()), Now(), ip)
      ensures !r.Panicked? ==> fs.tab[ip].typ == old(fs.tab[ip].typ)
      ensures !r.Panicked? ==> txs == old(txs) + [Tx(old(Now()), Now(), fs.ledger)] && TxOk(fs.sb, txs[|old(txs)|])
      ensures !r.Panicked? ==> ip in fs.icache
      // It panics exactly if the inode is free, or if blocks run out; and then there are none left.
      ensures r.Panicked? <==> old(Dead()) || old(Fits(|chunk|) && Short(|chunk|))
      ensures r.Panicked? && !old(Dead()) ==> fs.Valid() && FreeBlocks(fs.sb, fs.disk) == {}
      ensures r.Done? ==> PaidFor(fs.sb, txs[|old(txs)|], ip, old(off), |chunk|)
    {
      hide StOk;
      hide Content;
      hide FreeBlocks;
      hide NeedOf;
      hide Recorded;
      hide OnDiskOk;
      hide OthersSame;
      hide TxOk;
      hide PaidFor;
      r := Transact(chunk);
      if r.Panicked? { return; }
      if r.Done? && r.count > 0 { off := off + r.count; }
      txs := txs + [Tx(old(Now()), Now(), fs.ledger)];
    }

    // The bound MAXOPBLOCKS is reached.
    method FullTransaction(chunk: seq<byte>, ghost c: set<nat>) returns (r: IoResult)
      requires Valid() && |chunk| == MAX_CHUNK && fs.tab[ip].typ != T_DEV && fs.tab[ip].typ != 0
      requires fs.tab[ip].addrs[NDIRECT] == 0 && (NDIRECT - 1) * BSIZE < off == fs.tab[ip].size < NDIRECT * BSIZE
      requires FreeFirst(fs.sb, fs.disk, c) && |c| == |Bitmaps(fs.sb, c)| == 4
      modifies this, fs
      ensures r == Done(|chunk|) && Valid() && |fs.ledger.logged| == LogImage.MAXOPBLOCKS
    {
      hide StOk;
      hide Content;
      hide PaidFor;
      hide FreeBlocks;
      hide Recorded;
      hide OnDiskOk;
      hide NoHoles;
      hide Need;
      hide Bitmaps;
      ghost var t := |txs|;
      WholeFile(fs.sb, Now(), ip);
      Sizes(fs.sb, Now(), ip);
      FourNew(fs.tab[ip], fs.disk, off);
      AtLeast(fs.sb, fs.disk, c);
      r := WriteOne(chunk);
      FullCost(fs.sb, txs[t], ip, old(off), c);
    }

    // filewrite on an inode: Done when everything was written; on Failed a prefix of whole chunks was.
    method FileWrite(addr: seq<byte>) returns (r: IoResult, ghost k: nat)
      requires Valid() && |addr| < 0x8000_0000 && fs.tab[ip].typ != T_DEV
      modifies this, fs
      ensures !r.Panicked? ==> Valid() && k <= |addr| && off == old(off) + k
      ensures !r.Panicked? ==> Bytes() == After(old(Bytes()), old(off), addr[..k])
      ensures !r.Panicked? ==> (k > 0 ==> old(off) <= |old(Bytes())|)
      ensures !r.Device? && (r.Done? ==> k == |addr| == r.count)
      ensures !r.Panicked? ==> (r.Done? <==> writable && (|addr| == 0 || old(Fits(|addr|))))
      ensures !r.Panicked? ==> OthersSame(old(Now()), Now(), ip) && fs.tab[ip].typ == old(fs.tab[ip].typ)
      // It panics exactly if the inode is free, or if there are fewer blocks than the chunks that it
      // gets to write need.
      ensures r.Panicked? <==> writable && |addr| > 0 && (old(Dead()) || old(Short(Reach(off, |Bytes()|, |addr|))))
      // Each transaction fits the log and takes the file from one whole number of chunks to the next.
      ensures !r.Panicked? ==> old(txs) <= txs
      ensures !r.Panicked? ==> AllWrote(fs.sb, ip, old(Now()), old(Bytes()), old(off), addr, txs, |old(txs)|)
    {
      hide OthersSame;
      hide After;
      hide Content;
      hide Splice;
      hide TxOk;
      hide OnDiskOk;
      hide AllWrote;
      hide Cut;
      hide StOk;
      hide Recorded;
      hide PaidFor;
      hide NeedOf;
      hide FreeBlocks;
      hide Reach;
      hide Midway;
      k := 0;
      ghost var s, first, t0 := Bytes(), Now(), |txs|;
      MidwayStart(fs.sb, ip, s, off, addr, first, txs);
      if !writable { return Failed, 0; }
      var i := 0;
      ghost var m := 0;
      while i < |addr|
        invariant i <= |addr| && k == i == Cut(|addr|, m) && Valid() && off == old(off) + i
        invariant fs.tab[ip].typ == old(fs.tab[ip].typ)
        invariant Midway(fs.sb, ip, first, s, old(off), addr, Now(), txs, t0, m) && old(txs) <= txs
        invariant if i == 0 then Now() == first && fs.icache == old(fs.icache) else ip in fs.icache && !old(Dead())
      {
        var n1 := if |addr| - i > MAX_CHUNK then MAX_CHUNK else |addr| - i;
        ghost var txs0, before := txs, Now();
        MidwayFits(fs.sb, ip, first, s, old(off), addr, Now(), txs, t0, m);
        r := WriteOne(addr[i..i + n1]);
        if r.Panicked? { return; }
        if r.Failed? {
          MidwayFails(fs.sb, ip, first, s, old(off), addr, before, txs0, t0, m, txs[|txs0|]);
          return;
        }
        MidwayNext(fs.sb, ip, first, s, old(off), addr, before, txs0, t0, m, txs[|txs0|]);
        i := i + n1;
        k := i;
        m := m + 1;
      }
      assert addr[..|addr|] == addr;
      MidwayDone(fs.sb, ip, first, s, old(off), addr, Now(), txs, t0, m);
      r := Done(|addr|);
    }
  }

  // The first m chunks of a filewrite have been written, one transaction each.
  ghost predicate Midway(sb: Super, i: nat, first: Snap, s: seq<byte>, off: nat, addr: seq<byte>, now: Snap,
                         txs: seq<Tx>, t0: nat, m: nat)
  {
    && OnDiskOk(sb, first) && OnDiskOk(sb, now) && i < |first.tab| && i < |now.tab| && i < sb.ninodes
    && FileIs(first, i, s)
    && |txs| == t0 + m && AllWrote(sb, i, first, s, off, addr, txs, t0) && OthersSame(first, now, i)
    && var k := Cut(|addr|, m);
    && FileIs(now, i, After(s, off, addr[..k])) && Spread(first, now, i, off, k)
    && (k > 0 ==> off <= |s| && off + k <= MAXFILE * BSIZE)
  }

  lemma MidwayStart(sb: Super, i: nat, s: seq<byte>, off: nat, addr: seq<byte>, first: Snap, txs: seq<Tx>)
    requires OnDiskOk(sb, first) && i < |first.tab| && i < sb.ninodes && FileIs(first, i, s)
    ensures Midway(sb, i, first, s, off, addr, first, txs, |txs|, 0) && Cut(|addr|, 0) == 0
    ensures After(s, off, addr[..0]) == s && AllWrote(sb, i, first, s, off, addr, txs, |txs|)
    ensures OthersSame(first, first, i)
  {
    hide OnDiskOk;
    hide AllWrote;
    hide Content;
    hide Spread;
    WroteNone(sb, i, first, s, off, addr, txs);
    SpreadNone(first, i, off);
  }

  // The size of the next chunk.
  function NextChunk(n: nat, m: nat): nat
    requires Cut(n, m) < n
  {
    if n - Cut(n, m) > MAX_CHUNK then MAX_CHUNK else n - Cut(n, m)
  }

  // Whether the next chunk can be written, and blocks suffice for it.
  lemma MidwayFits(sb: Super, i: nat, first: Snap, s: seq<byte>, off: nat, addr: seq<byte>, now: Snap, txs: seq<Tx>,
                   t0: nat, m: nat)
    requires Midway(sb, i, first, s, off, addr, now, txs, t0, m) && Cut(|addr|, m) < |addr|
    ensures SuperOk(sb) && |first.disk| == |now.disk| == sb.size
    ensures var k, n1 := Cut(|addr|, m), NextChunk(|addr|, m);
            && k + n1 == Cut(|addr|, m + 1)
            && if off + k <= |Content(now.tab[i], now.disk)| && off + k + n1 <= MAXFILE * BSIZE
               then |FreeBlocks(sb, now.disk)| < NeedOf(now.tab[i], now.disk, off + k, n1) ==>
                      |FreeBlocks(sb, first.disk)| < NeedOf(first.tab[i], first.disk, off, Reach(off, |s|, |addr|))
               else |FreeBlocks(sb, first.disk)| >= NeedOf(first.tab[i], first.disk, off, Reach(off, |s|, |addr|)) &&
                    !(off <= |s| && off + |addr| <= MAXFILE * BSIZE)
  {
    hide OnDiskOk;
    hide AllWrote;
    hide Content;
    hide Spread;
    hide NeedOf;
    hide FreeBlocks;
    hide Reach;
    hide OthersSame;
    hide Cut;
    hide After;
    var k := Cut(|addr|, m);
    WfSizes(sb, first);
    WfSizes(sb, now);
    Sizes(sb, first, i);
    CutNext(|addr|, m);
    AfterLength(s, off, addr, k);
    if off <= |s| {
      Shortage(sb, first, now, i, off, |s|, k, m, |addr|);
    } else {
      NothingNeeded(first.tab[i], first.disk, off, |s|, |addr|);
    }
  }

  lemma TxEnds(sb: Super, tx: Tx)
    requires TxOk(sb, tx)
    ensures OnDiskOk(sb, tx.after)
  {
  }

  lemma MidwayNext(sb: Super, i: nat, first: Snap, s: seq<byte>, off: nat, addr: seq<byte>, now: Snap, txs: seq<Tx>,
                   t0: nat, m: nat, tx: Tx)
    requires Midway(sb, i, first, s, off, addr, now, txs, t0, m) && Cut(|addr|, m) < |addr| && tx.before == now
    requires TxOk(sb, tx)
    requires i < |tx.after.tab| && OthersSame(tx.before, tx.after, i)
    requires PaidFor(sb, tx, i, off + Cut(|addr|, m), NextChunk(|addr|, m))
    requires var k, n1, bytes := Cut(|addr|, m), NextChunk(|addr|, m), Content(now.tab[i], now.disk);
             && off + k <= |bytes| && off + k + n1 <= MAXFILE * BSIZE
             && FileIs(tx.after, i, Splice(bytes, off + k, addr[k..k + n1]))
    ensures Midway(sb, i, first, s, off, addr, tx.after, txs + [tx], t0, m + 1)
  {
    hide OnDiskOk;
    hide AllWrote;
    hide Content;
    hide Spread;
    hide Splice;
    hide PaidFor;
    hide Recorded;
    hide Cut;
    hide OthersSame;
    hide After;
    hide TxOk;
    TxEnds(sb, tx);
    var k, n1 := Cut(|addr|, m), NextChunk(|addr|, m);
    CutNext(|addr|, m);
    AfterLength(s, off, addr, k);
    AfterMore(s, off, addr, k, k + n1);
    KeptTrans(first, now, tx.after, i);
    SpreadNext(sb, first, tx, i, off, k, n1);
    assert FileIs(tx.after, i, After(s, off, addr[..Cut(|addr|, m + 1)]));
    WroteMore(sb, i, first, s, off, addr, txs, t0, tx);
  }

  lemma MidwayFails(sb: Super, i: nat, first: Snap, s: seq<byte>, off: nat, addr: seq<byte>, now: Snap, txs: seq<Tx>,
                    t0: nat, m: nat, tx: Tx)
    requires Midway(sb, i, first, s, off, addr, now, txs, t0, m) && TxOk(sb, tx) && tx.before == tx.after == now
    ensures AllWrote(sb, i, first, s, off, addr, txs + [tx], t0) && OthersSame(first, now, i)
    ensures FileIs(now, i, After(s, off, addr[..Cut(|addr|, m)]))
    ensures Cut(|addr|, m) > 0 ==> off <= |s|
  {
    hide OnDiskOk;
    hide AllWrote;
    hide Content;
    hide Spread;
    hide Recorded;
    WroteMore(sb, i, first, s, off, addr, txs, t0, tx);
  }

  lemma MidwayDone(sb: Super, i: nat, first: Snap, s: seq<byte>, off: nat, addr: seq<byte>, now: Snap, txs: seq<Tx>,
                   t0: nat, m: nat)
    requires Midway(sb, i, first, s, off, addr, now, txs, t0, m) && Cut(|addr|, m) == |addr|
    ensures AllWrote(sb, i, first, s, off, addr, txs, t0) && OthersSame(first, now, i)
    ensures FileIs(now, i, After(s, off, addr[..|addr|]))
    ensures SuperOk(sb) && |first.disk| == sb.size
    ensures addr != [] ==> off <= |s| && off + |addr| <= MAXFILE * BSIZE
    ensures addr != [] ==>
              |FreeBlocks(sb, first.disk)| >= NeedOf(first.tab[i], first.disk, off, Reach(off, |s|, |addr|))
  {
    hide OnDiskOk;
    hide AllWrote;
    hide Content;
    hide Spread;
    hide NeedOf;
    hide FreeBlocks;
    WfSizes(sb, first);
    WfSizes(sb, now);
    if addr != [] { Enough(sb, first, now, i, off, |s|, |addr|); }
  }

  lemma AfterLength(s: seq<byte>, off: nat, addr: seq<byte>, i: nat)
    requires i <= |addr|
    ensures off > |s| ==> After(s, off, addr[..i]) == s
    ensures off <= |s| ==> off + i <= |After(s, off, addr[..i])|
  {
  }

  lemma Synced(sb: Super, s: Snap, i: nat)
    requires OnDiskOk(sb, s) && i < sb.ninodes
    ensures |s.disk| == sb.size && SuperOk(sb) && i < |s.tab| && OnDisk(sb, s.disk, i) == s.tab[i]
  {
    assert InodeOk(sb, s, i);
  }

  // A chunk has been written, and everything is on disk again.
  lemma DoneIs(sb: Super, tx: Tx, icache: map<nat, Dinode>, i: nat, off: nat, chunk: seq<byte>)
    requires OnDiskOk(sb, tx.before)
    requires Spliced(sb, tx.before.disk, tx.before.tab, tx.after.disk, tx.after.tab, i, off, chunk)
    requires StOk(sb, tx.after.disk, icache, tx.after.tab, tx.after.own) && Recorded(sb, tx.after.disk, tx.ledger)
    requires OnDisk(sb, tx.after.disk, i) == tx.after.tab[i] && |chunk| <= MAX_CHUNK && PaidFor(sb, tx, i, off, |chunk|)
    ensures OnDiskOk(sb, tx.after) && TxOk(sb, tx) && ChunkWrote(sb, tx, i, off, chunk)
    ensures tx.after.tab[i].typ == tx.before.tab[i].typ
  {
    hide StOk;
    hide Content;
    hide Decode;
    hide Recorded;
    hide OnDiskOk;
    hide PaidFor;
    PaidBound(sb, tx, i, off, |chunk|);
    SplicedIs(sb, tx.before, tx.after, i, off, chunk);
    AllOnDisk(sb, tx.after.disk, icache, tx.after.tab, tx.after.own);
  }

  lemma NothingIs(sb: Super, s: Snap, ledger: Ledger)
    requires OnDiskOk(sb, s) && Recorded(sb, s.disk, ledger) && ledger == Start(s).ledger
    ensures TxOk(sb, Tx(s, s, ledger))
  {
    hide OnDiskOk;
  }

  lemma WholeFile(sb: Super, s: Snap, i: nat)
    requires OnDiskOk(sb, s) && i < sb.ninodes
    ensures i < |s.tab| && NoHoles(s.tab[i], s.disk)
  {
    assert InodeOk(sb, s, i);
  }

  lemma AtLeast(sb: Super, disk: Image, c: set<nat>)
    requires FreeFirst(sb, disk, c)
    ensures |FreeBlocks(sb, disk)| >= |c|
  {
    SubsetSize(c, FreeBlocks(sb, disk));
  }

  lemma Sizes(sb: Super, s: Snap, i: nat)
    requires OnDiskOk(sb, s) && i < sb.ninodes
    ensures i < |s.tab| && |Content(s.tab[i], s.disk)| == s.tab[i].size <= MAXFILE * BSIZE
  {
    assert InodeOk(sb, s, i);
  }

  // A write to inode i that leaves its own inode on disk leaves every inode on disk.
  lemma SplicedIs(sb: Super, s: Snap, t: Snap, i: nat, off: nat, src: seq<byte>)
    requires OnDiskOk(sb, s) && Spliced(sb, s.disk, s.tab, t.disk, t.tab, i, off, src)
    requires OnDisk(sb, t.disk, i) == t.tab[i]
    ensures forall j | 0 <= j < sb.ninodes :: OnDisk(sb, t.disk, j) == t.tab[j]
    ensures OthersSame(s, t, i) && t.tab[i].typ == s.tab[i].typ && off <= |Content(s.tab[i], s.disk)|
    ensures Content(t.tab[i], t.disk) == Splice(Content(s.tab[i], s.disk), off, src)
  {
    hide Decode;
    hide NoHoles;
    hide Content;
    hide Splice;
    forall j | 0 <= j < sb.ninodes ensures OnDisk(sb, t.disk, j) == t.tab[j] {
      assert InodeOk(sb, s, j);
    }
  }

  // What is on disk is a state of the file system.
  lemma MountOk(sb: Super, s: Snap)
    requires OnDiskOk(sb, s)
    ensures StOk(sb, s.disk, map[], s.tab, s.own)
  {
    hide Wf;
    hide Decode;
    hide NoHoles;
    WfSizes(sb, s);
    forall j: nat ensures CurrentOk(sb, s.disk, map[], s.tab, j) {
      assert InodeOk(sb, s, j);
    }
    forall j | 0 <= j < |s.tab| ensures NoHoles(s.tab[j], s.disk) {
      assert InodeOk(sb, s, j);
    }
  }

  // Boot from such a disk, and open inode ip.
  method Mount(sb: Super, disk: Image, ghost s: Snap, ip: nat, writable: bool) returns (f: OpenFile)
    requires OnDiskOk(sb, s) && s.disk == disk && ip < sb.ninodes
    ensures fresh(f) && fresh(f.fs) && f.Valid() && f.Now() == s && f.fs.sb == sb && f.fs.icache == map[]
    ensures f.ip == ip && f.writable == writable && f.off == 0 && f.txs == []
  {
    hide StOk;
    hide OnDiskOk;
    hide Recorded;
    MountOk(sb, s);
    var fs := new Fs(sb, disk, s.tab, s.own);
    f := new OpenFile(fs, ip, writable);
  }
}
