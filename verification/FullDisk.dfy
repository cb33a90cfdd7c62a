/**
 A disk on which a transaction of filewrite logs all that it may.

 Every data block but four is in use, and the four have four bitmap blocks.  Inode 1 is a file that ends
 in its last direct block; every other block in use is a file of its own.
 */
module FullDisk {
  import opened Bytes
  import opened FsLayout
  import opened FsMap
  import opened FsContent
  import opened FsCost
  import opened FsTrunc
  import opened Fs
  import opened File
  import opened Mkfs
  import LogImage

  // ---- An inode table and a bitmap on disk ----

  function LayInodes(sb: Super, disk: Image, tab: Table, n: nat): (r: Image)
    requires SuperOk(sb) && |disk| == sb.size && n <= |tab| == sb.ninodes
    ensures |r| == |disk| && forall x | 0 <= x < |disk| && !(sb.inodestart <= x < sb.bmapstart) :: r[x] == disk[x]
  {
    if n == 0 then disk
    else
      var r := LayInodes(sb, disk, tab, n - 1);
      InodePlace(sb, n - 1);
      r[InodeBlock(sb, n - 1) := Encode(r[InodeBlock(sb, n - 1)], (n - 1) % IPB, tab[n - 1])]
  }

  lemma InodePlace(sb: Super, i: nat)
    requires SuperOk(sb) && i < sb.ninodes
    ensures sb.inodestart <= InodeBlock(sb, i) < sb.bmapstart
  {
  }

  lemma {:induction false} InodesLaid(sb: Super, disk: Image, tab: Table, n: nat)
    requires SuperOk(sb) && |disk| == sb.size && n <= |tab| == sb.ninodes
    ensures forall j | 0 <= j < n :: OnDisk(sb, LayInodes(sb, disk, tab, n), j) == tab[j]
  {
    hide Decode;
    hide Encode;
    if n > 0 {
      InodesLaid(sb, disk, tab, n - 1);
      var was, now := LayInodes(sb, disk, tab, n - 1), LayInodes(sb, disk, tab, n);
      InodePlace(sb, n - 1);
      InodeRoundTrip(was[InodeBlock(sb, n - 1)], (n - 1) % IPB, tab[n - 1]);
      forall j | 0 <= j < n ensures OnDisk(sb, now, j) == tab[j] {
        InodePlace(sb, j);
        assert j < n - 1 ==> OnDisk(sb, was, j) == tab[j];
        assert InodeBlock(sb, j) == InodeBlock(sb, n - 1) && j < n - 1 ==> j % IPB != (n - 1) % IPB;
      }
    }
  }

  function LayBits(sb: Super, disk: Image, used: set<nat>, n: nat): (r: Image)
    requires SuperOk(sb) && |disk| == sb.size && n <= sb.size
    ensures |r| == |disk| && forall x | 0 <= x < |disk| && !(sb.bmapstart <= x < sb.datastart) :: r[x] == disk[x]
  {
    if n == 0 then disk
    else
      var r, b := LayBits(sb, disk, used, n - 1), n - 1;
      BitmapRange(sb, b);
      r[BitmapBlock(sb, b) := PutBit(r[BitmapBlock(sb, b)], b % BPB, b in used)]
  }

  lemma {:induction false} BitsLaid(sb: Super, disk: Image, used: set<nat>, n: nat)
    requires SuperOk(sb) && |disk| == sb.size && n <= sb.size
    ensures forall b | 0 <= b < n :: InUse(sb, LayBits(sb, disk, used, n), b) <==> b in used
  {
    hide InUse;
    hide PutBit;
    if n > 0 {
      BitsLaid(sb, disk, used, n - 1);
      var was := LayBits(sb, disk, used, n - 1);
      forall b | 0 <= b < n ensures InUse(sb, LayBits(sb, disk, used, n), b) <==> b in used {
        MarkBit(sb, was, n - 1, n - 1 in used, b);
        assert b < n - 1 ==> (InUse(sb, was, b) <==> b in used);
      }
    }
  }

  // ---- The files ----

  const T_FILE: ushort := 2

  // The blocks that may be free, and an inode for each of the others.
  predicate Roomy(sb: Super, free: set<nat>)
  {
    && SuperOk(sb) && sb.datastart + NDIRECT <= sb.size < UINT_LIMIT && sb.size - sb.datastart <= sb.ninodes
    && forall b | b in free :: sb.datastart + NDIRECT <= b < sb.size
  }

  // The one block of inode i.
  function BlockOf(sb: Super, i: nat): int { sb.datastart + NDIRECT + i - 2 }

  function DirectAddrs(first: nat, n: nat): (r: seq<uint>)
    requires first + n < UINT_LIMIT
    ensures |r| == n && forall k | 0 <= k < n :: r[k] == first + k
  {
    if n == 0 then [] else DirectAddrs(first, n - 1) + [first + n - 1]
  }

  function Inode(sb: Super, free: set<nat>, i: nat): Dinode
    requires Roomy(sb, free)
  {
    if i == 1 then Dinode(T_FILE, 0, 0, 1, (NDIRECT - 1) * BSIZE + 1, DirectAddrs(sb.datastart, NDIRECT) + [0])
    else if i >= 2 && BlockOf(sb, i) < sb.size && BlockOf(sb, i) !in free
    then Dinode(T_FILE, 0, 0, 1, 1, NO_ADDRS[0 := BlockOf(sb, i)])
    else BLANK_INODE
  }

  function Inodes(sb: Super, free: set<nat>): (r: Table)
    requires Roomy(sb, free)
    ensures |r| == sb.ninodes && forall i | 0 <= i < |r| :: r[i] == Inode(sb, free, i)
  {
    seq(sb.ninodes, i requires 0 <= i => Inode(sb, free, i))
  }

  function OwnerOf(sb: Super, b: nat): (nat, nat)
    requires sb.datastart <= b
  {
    if b < sb.datastart + NDIRECT then (1, b - sb.datastart) else (b - sb.datastart - NDIRECT + 2, 0)
  }

  ghost function OwnersOf(sb: Super, free: set<nat>): Owners
    requires Roomy(sb, free)
  {
    map b | b in Between(sb.datastart, sb.size) && b !in free :: OwnerOf(sb, b)
  }

  lemma PtrOf(sb: Super, free: set<nat>, disk: Image, i: nat, k: nat)
    requires Roomy(sb, free) && i < sb.ninodes && k < NSLOT
    ensures Ptr(Inode(sb, free, i), disk, k) ==
              if i == 1 && k < NDIRECT then sb.datastart + k
              else if i >= 2 && k == 0 && BlockOf(sb, i) < sb.size && BlockOf(sb, i) !in free then BlockOf(sb, i)
              else 0
  {
    hide WordAt;
  }

  // Each block but the free ones has its owner, and no file a hole.
  lemma FilesOk(sb: Super, free: set<nat>, disk: Image)
    requires Roomy(sb, free) && |disk| == sb.size
    requires forall b | 0 <= b < sb.size :: InUse(sb, disk, b) <==> b < sb.datastart || b !in free
    requires forall j | 0 <= j < sb.ninodes :: OnDisk(sb, disk, j) == Inode(sb, free, j)
    ensures OnDiskOk(sb, Snap(disk, Inodes(sb, free), OwnersOf(sb, free)))
  {
    hide InUse;
    hide Decode;
    hide Ptr;
    hide Inode;
    var tab, own := Inodes(sb, free), OwnersOf(sb, free);
    forall b: nat ensures OwnedOk(sb, disk, tab, own, b) {
      if b in own { PtrOf(sb, free, disk, own[b].0, own[b].1); }
    }
    forall i: nat, k: nat ensures SlotOk(disk, tab, own, i, k) {
      if i < |tab| && k < NSLOT { PtrOf(sb, free, disk, i, k); }
    }
    forall b: nat ensures MarkOk(sb, disk, own, {}, b) {
    }
    forall j: nat ensures InodeOk(sb, Snap(disk, tab, own), j) {
      if j < sb.ninodes { Whole(sb, free, disk, j); }
    }
  }

  lemma Whole(sb: Super, free: set<nat>, disk: Image, i: nat)
    requires Roomy(sb, free) && i < sb.ninodes
    ensures NoHoles(Inode(sb, free, i), disk)
  {
    hide Ptr;
    var d := Inode(sb, free, i);
    forall bn | 0 <= bn < MAXFILE && bn * BSIZE < d.size ensures Addr(d, disk, bn) != 0 {
      PtrOf(sb, free, disk, i, SlotOf(bn));
    }
  }

  // The disk with these files.
  function Filled(sb: Super, free: set<nat>): (r: Image)
    requires Roomy(sb, free)
    ensures |r| == sb.size
  {
    var blank := seq(sb.size, i => ZERO_BLOCK);
    var used := set b: nat | b < sb.size && (b < sb.datastart || b !in free);
    LayBits(sb, LayInodes(sb, blank, Inodes(sb, free), sb.ninodes), used, sb.size)
  }

  lemma FilledOk(sb: Super, free: set<nat>)
    requires Roomy(sb, free)
    ensures OnDiskOk(sb, Snap(Filled(sb, free), Inodes(sb, free), OwnersOf(sb, free)))
    ensures FreeBlocks(sb, Filled(sb, free)) == free
  {
    hide InUse;
    hide Decode;
    hide Inode;
    hide LayBits;
    hide LayInodes;
    var blank, used := seq(sb.size, i => ZERO_BLOCK), set b: nat | b < sb.size && (b < sb.datastart || b !in free);
    var laid := LayInodes(sb, blank, Inodes(sb, free), sb.ninodes);
    var disk := Filled(sb, free);
    assert disk == LayBits(sb, laid, used, sb.size);
    InodesLaid(sb, blank, Inodes(sb, free), sb.ninodes);
    BitsLaid(sb, laid, used, sb.size);
    forall j | 0 <= j < sb.ninodes ensures OnDisk(sb, disk, j) == Inode(sb, free, j) {
      InodePlace(sb, j);
    }
    FilesOk(sb, free, disk);
  }

  // ---- The transaction ----

  // Four blocks under four bitmap blocks, from block first on.
  function FourFree(first: nat): set<nat>
  {
    var next := (first / BPB + 1) * BPB;
    {first, next, next + BPB, next + 2 * BPB}
  }

  lemma FourBitmaps(sb: Super, first: nat)
    ensures |FourFree(first)| == |Bitmaps(sb, FourFree(first))| == 4
    ensures forall b | b in FourFree(first) :: first <= b <= first + 3 * BPB
  {
    var q := first / BPB;
    var x, a, b, c := q + sb.bmapstart, (q + 1) * BPB, (q + 1) * BPB + BPB, (q + 1) * BPB + 2 * BPB;
    Quotients(first);
    assert FourFree(first) == {first, a, b, c};
    FourApart(first, a, b, c);
    assert Bitmaps(sb, FourFree(first)) == {x, x + 1, x + 2, x + 3};
    FourApart(x, x + 1, x + 2, x + 3);
  }

  lemma FourApart(a: nat, b: nat, c: nat, d: nat)
    requires a < b < c < d
    ensures |{a, b, c, d}| == 4
  {
  }

  lemma Quotients(first: nat)
    ensures var a := (first / BPB + 1) * BPB;
      && first < a <= first + BPB && a / BPB == first / BPB + 1
      && (a + BPB) / BPB == first / BPB + 2 && (a + 2 * BPB) / BPB == first / BPB + 3
  {
  }

  // A disk laid out by mkfs, with as many inodes as blocks.
  lemma GeometryRoomy(size: nat, nlog: nat)
    requires 20000 + 2 * nlog <= size < UINT_LIMIT
    ensures var sb := Geometry(size, size, nlog); Roomy(sb, FourFree(sb.datastart + NDIRECT))
  {
    var sb := Geometry(size, size, nlog);
    assert sb.datastart + NDIRECT + 3 * BPB < size;
    GeometryOk(size, size, nlog);
    FourBitmaps(sb, sb.datastart + NDIRECT);
  }

  // On such a disk of any size, one chunk at the end of inode 1 logs MAXOPBLOCKS blocks.
  method TenBlocks(size: nat, nlog: nat, chunk: seq<byte>) returns (f: OpenFile, r: IoResult)
    requires 20000 + 2 * nlog <= size < UINT_LIMIT && |chunk| == MAX_CHUNK
    ensures fresh(f) && fresh(f.fs) && f.Valid() && f.fs.sb == Geometry(size, size, nlog)
    ensures r == Done(|chunk|) && |f.fs.ledger.logged| == LogImage.MAXOPBLOCKS
  {
    hide OnDiskOk;
    hide StOk;
    hide FreeBlocks;
    hide Filled;
    hide FourFree;
    hide Roomy;
    hide Bitmaps;
    var sb := Geometry(size, size, nlog);
    var free := FourFree(sb.datastart + NDIRECT);
    GeometryRoomy(size, nlog);
    FilledOk(sb, free);
    FourBitmaps(sb, sb.datastart + NDIRECT);
    GeometryOk(size, size, nlog);
    ghost var s := Snap(Filled(sb, free), Inodes(sb, free), OwnersOf(sb, free));
    f := Mount(sb, Filled(sb, free), s, 1, true);
    f.off := (NDIRECT - 1) * BSIZE + 1;
    r := f.FullTransaction(chunk, free);
  }
}
