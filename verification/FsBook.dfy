/** The books that writei keeps, in effect: what a write has logged and allocated, to the block. */
module FsBook {
  import opened Bytes
  import opened FsLayout
  import opened FsMap
  import opened FsContent
  import opened FsCost
  import opened FsNeed

  // The state in which a write starts.
  datatype Begun = Begun(disk: Image, tab: Table, taken: set<nat>, ledger: Ledger)

  // Inode i is now d, and `tot` of n bytes have been written at off.
  ghost predicate Booked(sb: Super, at: Begun, d: Dinode, disk: Image, taken: set<nat>, ledger: Ledger, i: nat,
                         off: nat, tot: nat, n: nat, acc: Acc)
  {
    && i < |at.tab| && off + n <= MAXFILE * BSIZE && RoundsOk(off, tot, n, acc.rounds)
    && off / BSIZE + acc.rounds <= MAXFILE
    && Accounted(sb, at.ledger, ledger, off % BSIZE != 0, acc.rounds, acc.added, acc.w, acc.blocks, acc.ind,
                 d.addrs[NDIRECT])
    && Tally(at.tab[i], at.disk, d, disk, off / BSIZE, off / BSIZE + acc.rounds, acc)
    && Draws(sb, at.taken, taken, at.ledger, ledger, acc.added + acc.w)
  }

  lemma BookedStart(sb: Super, at: Begun, i: nat, off: nat, n: nat)
    requires i < |at.tab| && off + n <= MAXFILE * BSIZE && at.ledger.bitmaps <= at.ledger.logged
    ensures Booked(sb, at, at.tab[i], at.disk, at.taken, at.ledger, i, off, 0, n, Acc(0, 0, 0, {}, false))
  {
    hide Tally;
    hide Draws;
    TallyStart(at.tab[i], at.disk, off / BSIZE);
    DrawsNone(sb, at.taken, at.ledger, at.ledger);
  }

  // The round that writes block bn of the file, which bmap finds or puts at b.
  function NextAcc(acc: Acc, d: Dinode, disk: Image, bn: nat, b: nat): Acc
    requires bn < MAXFILE
  {
    var a := if Addr(d, disk, bn) == 0 then 1 else 0;
    var w := if bn >= NDIRECT && d.addrs[NDIRECT] == 0 then 1 else 0;
    Acc(acc.rounds + 1, acc.added + a, acc.w + w, acc.blocks + {b}, acc.ind || (bn >= NDIRECT && a == 1))
  }

  lemma BookedNext(sb: Super, at: Begun, d1: Dinode, disk1: Image, taken1: set<nat>, ledger1: Ledger, i: nat, off: nat,
                   tot: nat, n: nat, acc: Acc,
                   d: Dinode, disk: Image, taken: set<nat>, ledger: Ledger, b: nat)
    requires Booked(sb, at, d1, disk1, taken1, ledger1, i, off, tot, n, acc) && tot < n
    requires (off + tot) / BSIZE < MAXFILE && MappedOne(d1, disk1, d, disk, (off + tot) / BSIZE)
    requires b == Addr(d, disk, (off + tot) / BSIZE)
    requires tot == 0 && off % BSIZE != 0 ==> Addr(d1, disk1, off / BSIZE) != 0
    requires Spends(sb, ledger1, ledger,
                    {b} + One((off + tot) / BSIZE >= NDIRECT && Addr(d1, disk1, (off + tot) / BSIZE) == 0,
                              d.addrs[NDIRECT]),
                    NewBlocks(d1, disk1, (off + tot) / BSIZE))
    requires Draws(sb, taken1, taken, ledger1, ledger, NewBlocks(d1, disk1, (off + tot) / BSIZE))
    ensures Booked(sb, at, d, disk, taken, ledger, i, off, tot + Chunk(off + tot, n - tot), n,
                   NextAcc(acc, d1, disk1, (off + tot) / BSIZE, b))
  {
    hide Tally;
    hide Draws;
    hide Accounted;
    hide Spends;
    hide RoundsOk;
    hide MappedOne;
    hide One;
    hide Addr;
    var bn, acc' := (off + tot) / BSIZE, NextAcc(acc, d1, disk1, (off + tot) / BSIZE, b);
    RoundsNext(off, tot, n, acc.rounds);
    RoundBlock(off, tot, n, acc.rounds);
    MappedFacts(d1, disk1, d, disk, bn);
    AccountNext(sb, at.ledger, ledger1, ledger, off % BSIZE != 0, acc.rounds, acc.added, acc.w, acc.blocks, acc.ind,
                d1.addrs[NDIRECT], b,
                acc'.added - acc.added, acc'.w - acc.w, bn >= NDIRECT && Addr(d1, disk1, bn) == 0, d.addrs[NDIRECT]);
    TallyNext(at.tab[i], at.disk, d1, disk1, d, disk, off / BSIZE, bn, acc, acc');
    DrawsTrans(sb, at.taken, taken1, taken, at.ledger, ledger1, ledger, acc.added + acc.w, NewBlocks(d1, disk1, bn));
  }

  lemma MappedFacts(d: Dinode, disk: Image, d': Dinode, disk': Image, bn: nat)
    requires bn < MAXFILE && MappedOne(d, disk, d', disk', bn)
    ensures (d.addrs[NDIRECT] != 0 ==> d'.addrs[NDIRECT] == d.addrs[NDIRECT])
    ensures (bn >= NDIRECT ==> d'.addrs[NDIRECT] != 0)
  {
  }

  // A round that finds too few blocks: what it needs is needed by the write.
  lemma BookedShort(sb: Super, at: Begun, d: Dinode, disk: Image, taken: set<nat>, ledger: Ledger, i: nat, off: nat,
                    tot: nat, n: nat, acc: Acc)
    requires Booked(sb, at, d, disk, taken, ledger, i, off, tot, n, acc) && tot < n
    ensures (off + tot) / BSIZE < LastBlock(off, n) <= MAXFILE
    ensures |taken| + NewBlocks(d, disk, (off + tot) / BSIZE) <=
              |at.taken| + Need(at.tab[i], at.disk, off / BSIZE, LastBlock(off, n))
  {
    hide Accounted;
    hide Ptr;
    var lo, bn, hi := off / BSIZE, (off + tot) / BSIZE, LastBlock(off, n);
    RoundBlock(off, tot, n, acc.rounds);
    LastBlockIn(off, n, MAXFILE);
    IndirectPtr(at.tab[i], at.disk);
    IndirectPtr(d, disk);
    assert !InRange(SlotOf(bn), lo, bn);
    NeedGrows(at.tab[i], at.disk, lo, bn + 1, hi);
  }

  // The data blocks of a write, the indirect block if it gets new entries, and the block of the
  // inode if the file grows.
  ghost function WriteSet(sb: Super, d: Dinode, disk: Image, d': Dinode, disk': Image, i: nat, off: nat,
                          n: nat): set<nat>
    requires LastBlock(off, n) <= MAXFILE
  {
    var lo, hi := off / BSIZE, LastBlock(off, n);
    DataBlocks(d', disk', lo, hi) + One(NewEntries(d, disk, lo, hi), d'.addrs[NDIRECT]) +
    One(off + n > d.size, InodeBlock(sb, i))
  }

  // A write of n bytes at off to inode i, which is now d, has logged its blocks and has taken the
  // first free blocks, as many as it needed.
  ghost predicate Paid(sb: Super, at: Begun, d: Dinode, disk: Image, taken: set<nat>, ledger: Ledger, i: nat, off: nat,
                       n: nat)
  {
    && i < |at.tab| && LastBlock(off, n) <= MAXFILE
    && Extended(at.tab[i], at.disk, d, disk, off / BSIZE, LastBlock(off, n))
    && Draws(sb, at.taken, taken, at.ledger, ledger, Need(at.tab[i], at.disk, off / BSIZE, LastBlock(off, n)))
    && var blocks := WriteSet(sb, at.tab[i], at.disk, d, disk, i, off, n);
    && Spends(sb, at.ledger, ledger, blocks, Need(at.tab[i], at.disk, off / BSIZE, LastBlock(off, n)))
    && |blocks| <= Touched(off, n) + 2
    && |blocks| + Need(at.tab[i], at.disk, off / BSIZE, LastBlock(off, n)) <= MaxCost(off, n)
  }

  lemma PaidCount(sb: Super, at: Begun, d: Dinode, disk: Image, taken: set<nat>, ledger: Ledger, i: nat, off: nat,
                  n: nat)
    requires Paid(sb, at, d, disk, taken, ledger, i, off, n)
    ensures |taken| == |at.taken| + Need(at.tab[i], at.disk, off / BSIZE, LastBlock(off, n))
  {
  }

  // At the end the size is raised, which leaves every block where it was.
  lemma TallyDone(d: Dinode, was: Image, d1: Dinode, disk: Image, tab: Table, disk': Image, i: nat, lo: nat, hi: nat,
                  acc: Acc)
    requires hi <= MAXFILE && i < |tab| && d1.addrs == tab[i].addrs && SamePtrs(tab, disk, tab, disk')
    requires Tally(d, was, d1, disk, lo, hi, acc)
    ensures Tally(d, was, tab[i], disk', lo, hi, acc)
  {
    hide WordAt;
    forall k | 0 <= k < NSLOT ensures Ptr(tab[i], disk', k) == Ptr(d1, disk, k) {
    }
    hide Ptr;
    var now, was' := DataBlocks(tab[i], disk', lo, hi), DataBlocks(d1, disk, lo, hi);
    forall bn: nat | bn < MAXFILE ensures Addr(tab[i], disk', bn) == Addr(d1, disk, bn) {
    }
    forall b: nat ensures b in now <==> b in was' {
    }
  }

  lemma BookedDone(sb: Super, at: Begun, d1: Dinode, disk1: Image, taken: set<nat>, ledger1: Ledger, i: nat, off: nat,
                   n: nat, acc: Acc,
                   tab: Table, disk: Image, ledger: Ledger)
    requires Booked(sb, at, d1, disk1, taken, ledger1, i, off, n, n, acc) && i < |tab| && d1.addrs == tab[i].addrs
    requires SamePtrs(tab, disk1, tab, disk)
    requires if off + n > at.tab[i].size
             then Spends(sb, ledger1, ledger, {InodeBlock(sb, i)}, 0) && ledger.bitmaps == ledger1.bitmaps
             else ledger == ledger1
    ensures Paid(sb, at, tab[i], disk, taken, ledger, i, off, n)
  {
    hide Draws;
    hide Accounted;
    hide Spends;
    hide RoundsOk;
    hide SamePtrs;
    hide Extended;
    hide DataBlocks;
    hide One;
    hide MaxCost;
    LastBlockIn(off, n, MAXFILE);
    FinalCost(sb, at.ledger, ledger1, off, n, acc.rounds, acc.added, acc.w, acc.blocks, acc.ind, tab[i].addrs[NDIRECT],
              ledger,
              off + n > at.tab[i].size, InodeBlock(sb, i));
    TallyDone(at.tab[i], at.disk, d1, disk1, tab, disk, i, off / BSIZE, LastBlock(off, n), acc);
    SameBitmaps(sb, at.taken, taken, at.ledger, ledger1, ledger, acc.added + acc.w);
  }

  // Each block of a file has a disk block of its own.
  lemma {:induction false} DataBlocksCount(sb: Super, disk: Image, tab: Table, own: Owners, i: nat, lo: nat, hi: nat)
    requires Wf(sb, disk, tab, own, {}) && i < |tab| && lo <= hi <= MAXFILE
    requires forall bn: nat | lo <= bn < hi :: Addr(tab[i], disk, bn) != 0
    ensures |DataBlocks(tab[i], disk, lo, hi)| == hi - lo
    ensures forall b | b in DataBlocks(tab[i], disk, lo, hi) :: b in own && own[b].1 != NDIRECT && own[b].1 < SlotOf(hi)
    decreases hi
  {
    hide Ptr;
    hide Wf;
    if lo == hi {
      assert DataBlocks(tab[i], disk, lo, hi) == {};
      return;
    }
    hide DataBlocks;
    DataBlocksCount(sb, disk, tab, own, i, lo, hi - 1);
    DataBlocksMore(tab[i], disk, lo, hi - 1);
    SlotOwned(sb, disk, tab, own, i, SlotOf(hi - 1));
  }

  lemma DataBlocksMore(d: Dinode, disk: Image, lo: nat, hi: nat)
    requires lo <= hi < MAXFILE
    ensures DataBlocks(d, disk, lo, hi + 1) == DataBlocks(d, disk, lo, hi) + {Addr(d, disk, hi) as nat}
  {
    hide Ptr;
    var all, some := DataBlocks(d, disk, lo, hi + 1), DataBlocks(d, disk, lo, hi) + {Addr(d, disk, hi) as nat};
    forall c: nat ensures c in all <==> c in some {
    }
  }

  lemma SlotOwned(sb: Super, disk: Image, tab: Table, own: Owners, i: nat, k: nat)
    requires Wf(sb, disk, tab, own, {}) && i < |tab| && k < NSLOT && Ptr(tab[i], disk, k) != 0
    ensures Ptr(tab[i], disk, k) in own && own[Ptr(tab[i], disk, k)] == (i, k)
  {
    hide Ptr;
    assert SlotOk(disk, tab, own, i, k);
  }

  // With a range of blocks set, the data blocks and the indirect block are all different.
  lemma WriteSetCount(sb: Super, d: Dinode, was: Image, disk: Image, tab: Table, own: Owners, i: nat, off: nat, n: nat)
    requires Wf(sb, disk, tab, own, {}) && i < |tab| && LastBlock(off, n) <= MAXFILE
    requires Extended(d, was, tab[i], disk, off / BSIZE, LastBlock(off, n))
    ensures |WriteSet(sb, d, was, tab[i], disk, i, off, n)| == Touched(off, n) +
              (if NewEntries(d, was, off / BSIZE,
                             LastBlock(off, n)) then 1 else 0) + (if off + n > d.size then 1 else 0)
    ensures forall b | b in WriteSet(sb, d, was, tab[i], disk, i, off, n) :: b < sb.bmapstart || sb.datastart <= b
  {
    hide Ptr;
    hide Wf;
    hide NewEntries;
    hide DataBlocks;
    hide Extended;
    hide Addr;
    var lo, hi := off / BSIZE, LastBlock(off, n);
    ExtendedIs(d, was, tab[i], disk, lo, hi);
    DataBlocksCount(sb, disk, tab, own, i, lo, hi);
    var data, ind := DataBlocks(tab[i], disk, lo, hi), tab[i].addrs[NDIRECT] as nat;
    var changed, grew := NewEntries(d, was, lo, hi), off + n > d.size;
    if changed {
      NewEntriesReach(d, was, lo, hi);
      IndirectPtr(tab[i], disk);
      SlotOwned(sb, disk, tab, own, i, NDIRECT);
    }
    InodeBlockRange(sb, disk, tab, own, i);
    forall b | b in own ensures sb.datastart <= b {
      OwnedRange(sb, disk, tab, own, {}, b);
    }
    SizesAdd(data, changed, ind, grew, InodeBlock(sb, i));
  }

  lemma ExtendedIs(d: Dinode, was: Image, d': Dinode, disk: Image, lo: nat, hi: nat)
    requires Extended(d, was, d', disk, lo, hi) && hi <= MAXFILE
    ensures forall bn: nat | lo <= bn < hi :: Addr(d', disk, bn) != 0
    ensures lo < hi && hi > NDIRECT ==> d'.addrs[NDIRECT] != 0
  {
    hide Ptr;
    IndirectPtr(d', disk);
    assert lo < hi && hi > NDIRECT ==> InRange(NDIRECT, lo, hi);
    forall bn: nat | lo <= bn < hi ensures Addr(d', disk, bn) != 0 {
      assert InRange(SlotOf(bn), lo, hi);
    }
  }

  lemma SizesAdd(data: set<nat>, changed: bool, ind: nat, grew: bool, inode: nat)
    requires (changed ==> ind !in data && ind != inode) && inode !in data
    ensures |data + One(changed, ind) + One(grew,
                                            inode)| == |data| + (if changed then 1 else 0) + (if grew then 1 else 0)
  {
    assert data + {} == data;
  }

  lemma {:induction false} NewEntriesReach(d: Dinode, disk: Image, lo: nat, hi: nat)
    requires hi <= MAXFILE && NewEntries(d, disk, lo, hi)
    ensures lo < hi && hi > NDIRECT
    decreases hi
  {
    hide Ptr;
    if !(hi - 1 >= NDIRECT && Addr(d, disk, hi - 1) == 0) { NewEntriesReach(d, disk, lo, hi - 1); }
  }

  lemma InodeBlockRange(sb: Super, disk: Image, tab: Table, own: Owners, i: nat)
    requires Wf(sb, disk, tab, own, {}) && i < |tab|
    ensures InodeBlock(sb, i) < sb.bmapstart < sb.datastart
  {
  }

  // A transaction that consists of one write logs the blocks it writes to, the indirect block if it
  // gets new entries, the inode if the file grows, and the bitmap blocks of what it allocates.
  lemma ExactCost(sb: Super, at: Begun, disk: Image, tab: Table, own: Owners, ledger: Ledger, i: nat, off: nat, n: nat)
    requires Wf(sb, disk, tab, own, {}) && i < |tab| && at.ledger.logged == {} && at.ledger.bitmaps == {}
    requires Paid(sb, at, tab[i], disk, own.Keys, ledger, i, off, n)
    ensures |ledger.logged| == Touched(off, n) + |Bitmaps(sb, own.Keys - at.taken)| +
              (if off + n > at.tab[i].size then 1 else 0) +
              (if NewEntries(at.tab[i], at.disk, off / BSIZE, LastBlock(off, n)) then 1 else 0)
  {
    hide Wf;
    hide Extended;
    hide WriteSet;
    hide Bitmaps;
    hide Need;
    hide MaxCost;
    WriteSetCount(sb, at.tab[i], at.disk, disk, tab, own, i, off, n);
    var blocks, maps := WriteSet(sb, at.tab[i], at.disk, tab[i], disk, i, off, n), Bitmaps(sb, own.Keys - at.taken);
    BitmapsRange(sb, disk, tab, own, own.Keys - at.taken);
    assert ledger.logged == maps + blocks;
    assert maps !! blocks;
  }

  lemma BitmapsRange(sb: Super, disk: Image, tab: Table, own: Owners, blocks: set<nat>)
    requires Wf(sb, disk, tab, own, {}) && blocks <= own.Keys
    ensures forall x | x in Bitmaps(sb, blocks) :: sb.bmapstart <= x < sb.datastart
  {
    hide Ptr;
    hide Wf;
    forall x | x in Bitmaps(sb, blocks) ensures sb.bmapstart <= x < sb.datastart {
      var b :| b in blocks && BitmapBlock(sb, b) == x;
      OwnedRange(sb, disk, tab, own, {}, b);
      WfSuper(sb, disk, tab, own);
      BitmapRange(sb, b);
    }
  }

  lemma WfSuper(sb: Super, disk: Image, tab: Table, own: Owners)
    requires Wf(sb, disk, tab, own, {})
    ensures SuperOk(sb)
  {
  }
}
