/** How many blocks a write logs: the accounting of writei, round by round. */
module FsCost {
  import opened Bytes
  import opened FsLayout

  // The blocks passed to log_write in this transaction, the bitmap blocks among them, and the disk as
  // the transaction found it.
  datatype Ledger = Ledger(logged: set<nat>, bitmaps: set<nat>, clean: Image)

  // Block b has been logged, or is as it was.
  ghost predicate RecordedAt(clean: Image, disk: Image, logged: set<nat>, b: nat)
  {
    b < |disk| == |clean| && b !in logged ==> disk[b] == clean[b]
  }

  // Whatever has changed since the transaction began has been logged, and only blocks behind the log are.
  ghost predicate Recorded(sb: Super, disk: Image, l: Ledger)
  {
    && |disk| == |l.clean| && l.bitmaps <= l.logged && (forall b | b in l.logged :: sb.inodestart <= b < |disk|)
    && forall b: nat {:trigger RecordedAt(l.clean, disk, l.logged, b)} :: RecordedAt(l.clean, disk, l.logged, b)
  }

  lemma RecordOne(sb: Super, disk: Image, l: Ledger, b: nat, data: Block, l': Ledger)
    requires Recorded(sb, disk, l) && sb.inodestart <= b < |disk| && l'.clean == l.clean && l'.logged == l.logged + {b}
    requires l'.bitmaps <= l.bitmaps + {b}
    ensures Recorded(sb, disk[b := data], l')
  {
    var disk' := disk[b := data];
    forall c: nat ensures RecordedAt(l'.clean, disk', l'.logged, c) {
      assert RecordedAt(l.clean, disk, l.logged, c);
    }
  }

  lemma RecordedBitmaps(sb: Super, disk: Image, l: Ledger)
    requires Recorded(sb, disk, l)
    ensures l.bitmaps <= l.logged
  {
  }

  lemma RecordStart(sb: Super, disk: Image)
    ensures Recorded(sb, disk, Ledger({}, {}, disk))
  {
  }

  // The log now also holds `blocks`, and the bitmap blocks of n calls of balloc.
  ghost predicate Spends(sb: Super, was: Ledger, now: Ledger, blocks: set<nat>, n: nat)
  {
    && now.clean == was.clean && now.logged == was.logged + now.bitmaps + blocks
    && was.bitmaps <= now.bitmaps && |now.bitmaps| <= |was.bitmaps| + n
    && forall x | x in now.bitmaps && x !in was.bitmaps :: sb.bmapstart <= x && (x - sb.bmapstart) * BPB < sb.size
  }

  lemma SpendsNone(sb: Super, disk: Image, l: Ledger)
    requires Recorded(sb, disk, l)
    ensures Spends(sb, l, l, {}, 0)
  {
  }

  lemma SpendsTrans(sb: Super, a: Ledger, b: Ledger, c: Ledger, x: set<nat>, m: nat, y: set<nat>, n: nat)
    requires Spends(sb, a, b, x, m) && Spends(sb, b, c, y, n)
    ensures Spends(sb, a, c, x + y, m + n)
  {
  }

  function Bitmaps(sb: Super, blocks: set<nat>): set<nat> { set b | b in blocks :: BitmapBlock(sb, b) }

  // Every data block that is still free lies behind block b.
  ghost predicate BehindIt(sb: Super, taken: set<nat>, b: nat)
  {
    forall c | sb.datastart <= c < sb.size && c !in taken :: b < c
  }

  // Of the free blocks the first n are taken, and their bitmap blocks logged.
  ghost predicate Draws(sb: Super, taken: set<nat>, taken': set<nat>, was: Ledger, now: Ledger, n: nat)
  {
    && taken <= taken' && |taken'| == |taken| + n
    && now.bitmaps == was.bitmaps + Bitmaps(sb, taken' - taken)
    && forall b | b in taken' && b !in taken :: BehindIt(sb, taken', b)
  }

  lemma DrawsNone(sb: Super, taken: set<nat>, was: Ledger, now: Ledger)
    requires now.bitmaps == was.bitmaps
    ensures Draws(sb, taken, taken, was, now, 0)
  {
  }

  lemma DrawsOne(sb: Super, taken: set<nat>, b: nat, was: Ledger, now: Ledger)
    requires b !in taken && now.bitmaps == was.bitmaps + {BitmapBlock(sb, b)}
    requires forall c | sb.datastart <= c < b :: c in taken
    ensures Draws(sb, taken, taken + {b}, was, now, 1)
  {
    assert taken + {b} - taken == {b};
  }

  lemma DrawsTrans(sb: Super, x: set<nat>, y: set<nat>, z: set<nat>, a: Ledger, b: Ledger, c: Ledger, m: nat, n: nat)
    requires Draws(sb, x, y, a, b, m) && Draws(sb, y, z, b, c, n)
    ensures Draws(sb, x, z, a, c, m + n)
  {
    hide BitmapBlock;
    assert (y - x) + (z - y) == z - x;
    assert Bitmaps(sb, y - x) + Bitmaps(sb, z - y) == Bitmaps(sb, z - x);
    forall b | b in z && b !in x ensures BehindIt(sb, z, b) {
      assert b in y ==> BehindIt(sb, y, b);
    }
  }

  lemma DrawsCount(sb: Super, taken: set<nat>, taken': set<nat>, was: Ledger, now: Ledger, n: nat)
    requires Draws(sb, taken, taken', was, now, n)
    ensures |taken'| == |taken| + n
  {
  }

  lemma Drawn(sb: Super, taken: set<nat>, taken': set<nat>, was: Ledger, now: Ledger, n: nat)
    requires Draws(sb, taken, taken', was, now, n)
    ensures |taken' - taken| == n
  {
    assert taken' == taken + (taken' - taken);
  }

  lemma DrawnBefore(sb: Super, taken: set<nat>, taken': set<nat>, was: Ledger, now: Ledger, n: nat, x: nat, b: nat)
    requires Draws(sb, taken, taken', was, now, n) && x in taken' && x !in taken && sb.datastart <= b < sb.size
    requires b !in taken'
    ensures x < b
  {
    assert BehindIt(sb, taken', x);
  }

  lemma SameBitmaps(sb: Super, taken: set<nat>, taken': set<nat>, was: Ledger, now: Ledger, now': Ledger, n: nat)
    requires Draws(sb, taken, taken', was, now, n) && now'.bitmaps == now.bitmaps
    ensures Draws(sb, taken, taken', was, now', n)
  {
  }

  // One more block is logged.
  lemma SpendsAlso(sb: Super, was: Ledger, mid: Ledger, now: Ledger, b: nat, x: nat, n: nat)
    requires Spends(sb, was, mid, {b}, n) && now == mid.(logged := mid.logged + {x})
    ensures Spends(sb, was, now, {b, x}, n)
  {
  }

  // After bmap the data block itself is logged.
  lemma ChunkSpends(sb: Super, was: Ledger, mid: Ledger, now: Ledger, gap: bool, b: nat, indirect: bool, ind: nat,
                    n: nat)
    requires Spends(sb, was, mid, One(gap, b) + One(gap && indirect, ind), n) && now == mid.(logged := mid.logged + {b})
    ensures Spends(sb, was, now, {b} + One(indirect && gap, ind), n)
  {
  }

  // After `rounds` rounds a write at `off` has done `tot` of n bytes.
  ghost predicate RoundsOk(off: nat, tot: nat, n: nat, rounds: nat)
  {
    var start := off - off % BSIZE;
    && tot <= n && (rounds == 0 <==> tot == 0)
    && (rounds > 0 ==> start + (rounds - 1) * BSIZE < off + tot <= start + rounds * BSIZE)
    && (0 < tot < n ==> off + tot == start + rounds * BSIZE)
  }

  function Chunk(off: nat, left: nat): nat
  {
    if left < BSIZE - off % BSIZE then left else BSIZE - off % BSIZE
  }

  lemma RoundsNext(off: nat, tot: nat, n: nat, rounds: nat)
    requires RoundsOk(off, tot, n, rounds) && tot < n
    ensures rounds == 0 ==> tot == 0
    ensures Chunk(off + tot, n - tot) > 0 && RoundsOk(off, tot + Chunk(off + tot, n - tot), n, rounds + 1)
  {
    if rounds > 0 {
      assert (off + tot) % BSIZE == 0;
    }
  }

  // In every round but the last the write reaches the end of a block.
  lemma RoundBlock(off: nat, tot: nat, n: nat, rounds: nat)
    requires RoundsOk(off, tot, n, rounds) && tot < n
    ensures (off + tot) / BSIZE == off / BSIZE + rounds < LastBlock(off, n)
  {
  }

  // The block after the last that a write of n bytes at off touches.
  function LastBlock(off: nat, n: nat): nat { off / BSIZE + Touched(off, n) }

  lemma LastBlockIn(off: nat, n: nat, m: nat)
    requires off + n <= m * BSIZE
    ensures LastBlock(off, n) <= m
  {
  }

  // The blocks that a write of n bytes at off touches.
  function Touched(off: nat, n: nat): nat
  {
    if n == 0 then 0 else (off % BSIZE + n - 1) / BSIZE + 1
  }

  // Data blocks, the indirect block and the inode block, and a bitmap block for every new data
  // block and for a new indirect block.  A partly used first block is not new.
  function MaxCost(off: nat, n: nat): nat
  {
    2 * Touched(off, n) + 3 - (if off % BSIZE != 0 && n > 0 then 1 else 0)
  }

  function One(on: bool, x: nat): set<nat> { if on then {x} else {} }

  // `added` data blocks and w indirect blocks were new; `ind` says whether the indirect block
  // was used at all.
  ghost predicate Accounted(sb: Super, was: Ledger, now: Ledger, partial: bool, rounds: nat, added: nat, w: nat,
                            blocks: set<nat>, ind: bool, indirect: nat)
  {
    && |blocks| <= rounds && added + (if rounds > 0 && partial then 1 else 0) <= rounds
    && w <= 1 && (w == 1 || ind ==> indirect != 0)
    && Spends(sb, was, now, blocks + One(ind, indirect), added + w)
  }

  lemma Shuffle(blocks: set<nat>, b: nat, ind: bool, x: nat, ind': bool, x': nat)
    requires ind ==> x == x'
    ensures (blocks + One(ind, x)) + ({b} + One(ind', x')) == (blocks + {b}) + One(ind || ind', x')
    ensures |blocks + {b}| <= |blocks| + 1
  {
  }

  lemma AccountNext(sb: Super, was: Ledger, now: Ledger, next: Ledger, partial: bool, rounds: nat, added: nat, w: nat,
                    blocks: set<nat>, ind: bool, indirect: nat, b: nat, a: nat, w': nat, ind': bool, indirect': nat)
    requires Accounted(sb, was, now, partial, rounds, added, w, blocks, ind, indirect)
    requires Spends(sb, now, next, {b} + One(ind', indirect'), a + w')
    requires a <= 1 && (rounds == 0 && partial ==> a == 0)
    requires w' <= 1 && (w' == 1 ==> indirect == 0 && indirect' != 0) && (indirect != 0 ==> indirect' == indirect)
    requires ind' ==> indirect' != 0
    ensures Accounted(sb, was, next, partial, rounds + 1, added + a, w + w', blocks + {b}, ind || ind', indirect')
  {
    hide Spends;
    hide One;
    SpendsTrans(sb, was, now, next, blocks + One(ind, indirect), added + w, {b} + One(ind', indirect'), a + w');
    Shuffle(blocks, b, ind, indirect, ind', indirect');
  }

  lemma FinalCost(sb: Super, was: Ledger, now: Ledger, off: nat, n: nat, rounds: nat, added: nat, w: nat,
                  blocks: set<nat>, ind: bool, indirect: nat, last: Ledger, grew: bool, inode: nat)
    requires Accounted(sb, was, now, off % BSIZE != 0, rounds, added, w, blocks, ind, indirect)
    requires RoundsOk(off, n, n, rounds)
    requires if grew then Spends(sb, now, last, {inode}, 0) else last == now
    ensures rounds == Touched(off, n)
    ensures Spends(sb, was, last, blocks + One(ind, indirect) + One(grew, inode), added + w)
    ensures |blocks + One(ind, indirect) + One(grew, inode)| <= Touched(off, n) + 2
    ensures |blocks + One(ind, indirect) + One(grew, inode)| + added + w <= MaxCost(off, n)
  {
    assert rounds == Touched(off, n);
    assert blocks + One(ind, indirect) + {} == blocks + One(ind, indirect);
  }

  // A transaction that starts empty holds no more than the blocks and the bitmap blocks.
  lemma LoggedBound(sb: Super, was: Ledger, now: Ledger, blocks: set<nat>, a: nat)
    requires was.logged == {} && was.bitmaps == {} && Spends(sb, was, now, blocks, a)
    ensures now.clean == was.clean
    ensures |now.logged| <= |blocks| + a
    ensures sb.size <= BPB ==> |now.logged| <= |blocks| + 1
  {
    var all := now.bitmaps + blocks;
    SubsetSize(now.logged, all);
    assert |all| <= |now.bitmaps| + |blocks|;
    if sb.size <= BPB {
      forall x | x in now.bitmaps ensures x == sb.bmapstart {
        assert (x - sb.bmapstart) * BPB < BPB;
      }
      assert now.bitmaps <= {sb.bmapstart};
      SubsetSize(now.bitmaps, {sb.bmapstart});
    }
  }

  lemma {:induction false} SubsetSize(a: set<nat>, b: set<nat>)
    requires a <= b
    ensures |a| <= |b|
  {
    if a != {} {
      var x :| x in a;
      SubsetSize(a - {x}, b - {x});
    }
  }
}
