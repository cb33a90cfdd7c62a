/** mkfs.c: the layout of a new disk, and an empty file system on it. */
module Mkfs {
  import opened Bytes
  import opened FsLayout
  import opened FsMap
  import opened FsContent
  import opened FsTrunc
  import opened Fs
  import opened File
  import opened FileCrash
  import L = LogImage

  // [ boot | super | log | inode blocks | free bit map | data blocks ]
  function Geometry(size: nat, ninodes: nat, nlog: nat): Super
  {
    var nbitmap, ninodeblocks := size / BPB + 1, ninodes / IPB + 1;
    Super(size, ninodes, 2 + nlog, 2 + nlog + ninodeblocks, 2 + nlog + ninodeblocks + nbitmap)
  }

  lemma GeometryOk(size: nat, ninodes: nat, nlog: nat)
    requires Geometry(size, ninodes, nlog).datastart <= size <= UINT_LIMIT
    ensures SuperOk(Geometry(size, ninodes, nlog))
  {
  }

  const BLANK_INODE := Dinode(0, 0, 0, 0, 0, NO_ADDRS)

  lemma BlankInode(s: nat)
    requires s < IPB
    ensures Decode(ZERO_BLOCK, s) == BLANK_INODE
  {
    hide WordAt;
    forall k | 0 <= k < WORDS ensures WordAt(ZERO_BLOCK, k) == 0 {
      ZeroWords(k);
    }
    assert AddrsAt(ZERO_BLOCK, s) == NO_ADDRS;
  }

  // A file system without files: no inode is used, and every data block is free.
  function Blank(sb: Super, disk: Image): Snap { Snap(disk, seq(sb.ninodes, i => BLANK_INODE), map[]) }

  lemma BlankOk(sb: Super, disk: Image)
    requires SuperOk(sb) && |disk| == sb.size
    requires forall x | sb.inodestart <= x < sb.bmapstart :: disk[x] == ZERO_BLOCK
    requires forall b | 0 <= b < sb.size :: InUse(sb, disk, b) <==> b < sb.datastart
    ensures OnDiskOk(sb, Blank(sb, disk)) && |FreeBlocks(sb, disk)| == sb.size - sb.datastart
  {
    hide InUse;
    hide Decode;
    var s := Blank(sb, disk);
    forall i: nat, k: nat ensures SlotOk(disk, s.tab, s.own, i, k) {
      if i < |s.tab| && k < NSLOT { NoPtrs(s.tab[i], disk, k); }
    }
    forall b: nat ensures OwnedOk(sb, disk, s.tab, s.own, b) {
    }
    forall b: nat ensures MarkOk(sb, disk, s.own, {}, b) {
    }
    forall j: nat ensures InodeOk(sb, s, j) {
      BlankInode(j % IPB);
    }
    FreeCount(sb, disk, s.tab, s.own);
  }

  // balloc of mkfs.c: the first `used` blocks are in use; None is the failed assertion.
  method Balloc(used: nat) returns (r: Option<Block>)
    ensures r == None <==> used >= BPB
    ensures r.Some? ==> forall i | 0 <= i < BPB :: BitAt(r.value, i) <==> i < used
  {
    hide BitAt;
    hide PutBit;
    if used >= BPB { return None; }
    var buf := ZERO_BLOCK;
    forall i | 0 <= i < BPB ensures !BitAt(ZERO_BLOCK, i) {
      ZeroBit(i);
    }
    for i := 0 to used
      invariant forall j | 0 <= j < BPB :: BitAt(buf, j) <==> j < i
    {
      forall j | 0 <= j < BPB ensures BitAt(PutBit(buf, i, true), j) == (j == i || BitAt(buf, j)) {
        BitAtPutBit(buf, i, true, j);
      }
      buf := PutBit(buf, i, true);
    }
    return Some(buf);
  }

  lemma ZeroBit(i: nat)
    requires i < BPB
    ensures !BitAt(ZERO_BLOCK, i)
  {
    NoBits(i % 8);
  }

  lemma {:induction false} NoBits(k: nat)
    ensures !Bit(0, k)
  {
    if k > 0 { NoBits(k - 1); }
  }

  // mkfs without files, on a disk that has room for the metadata.
  method Mkfs(size: nat, ninodes: nat, nlog: nat, super: Block) returns (r: Option<Image>)
    requires Geometry(size, ninodes, nlog).datastart <= size <= UINT_LIMIT
    ensures r == None <==> Geometry(size, ninodes, nlog).datastart >= BPB
    ensures r.Some? ==> OnDiskOk(Geometry(size, ninodes, nlog), Blank(Geometry(size, ninodes, nlog), r.value))
    ensures r.Some? ==> r.value[1] == super
    ensures r.Some? ==> forall x | 2 <= x < 2 + nlog :: r.value[x] == ZERO_BLOCK
    // The log lies before the inodes, and is empty.
    ensures r.Some? && nlog > 0 ==>
              Ready(L.Layout(2, nlog), Geometry(size, ninodes, nlog), Blank(Geometry(size, ninodes, nlog), r.value))
  {
    hide InUse;
    hide OnDiskOk;
    var sb := Geometry(size, ninodes, nlog);
    GeometryOk(size, ninodes, nlog);
    var disk: Image := [];
    for i := 0 to size
      invariant |disk| == i && forall x | 0 <= x < i :: disk[x] == ZERO_BLOCK
    {
      disk := disk + [ZERO_BLOCK];
    }
    disk := disk[1 := super];
    var bits := Balloc(sb.datastart);
    if bits == None { return None; }
    disk := disk[sb.bmapstart := bits.value];
    forall b | 0 <= b < sb.size ensures InUse(sb, disk, b) <==> b < sb.datastart {
      MarkedFirst(sb, disk, bits.value, b);
    }
    BlankOk(sb, disk);
    if nlog > 0 { LogReady(size, ninodes, nlog, disk); }
    return Some(disk);
  }

  lemma LogReady(size: nat, ninodes: nat, nlog: nat, disk: Image)
    requires Geometry(size, ninodes, nlog).datastart <= size <= UINT_LIMIT && nlog > 0
    requires |disk| == size && disk[2] == ZERO_BLOCK
    ensures var l := L.Layout(2, nlog);
      LogBefore(l, Geometry(size, ninodes, nlog)) && L.Sound(l, disk) && L.Count(disk[l.start]) == 0
  {
    GeometryOk(size, ninodes, nlog);
    ZeroWords(0);
  }

  // Blocks of the first bitmap block that are not in use are free, and so are those of the others.
  lemma MarkedFirst(sb: Super, disk: Image, bits: Block, b: nat)
    requires SuperOk(sb) && |disk| == sb.size && b < sb.size && sb.datastart < BPB && disk[sb.bmapstart] == bits
    requires forall x | sb.bmapstart < x < sb.datastart :: disk[x] == ZERO_BLOCK
    requires forall i | 0 <= i < BPB :: BitAt(bits, i) <==> i < sb.datastart
    ensures InUse(sb, disk, b) <==> b < sb.datastart
  {
    hide BitAt;
    BitmapRange(sb, b);
    if b >= BPB { ZeroBit(b % BPB); }
  }

  // The last step of mkfs rounds the size of the root directory up to the next block boundary, also
  // where it already is at one.  The root has no hole then exactly if it was not.
  lemma RootSize(d: Dinode, disk: Image)
    requires d.size < MAXFILE * BSIZE
    requires forall bn | 0 <= bn < MAXFILE :: Addr(d, disk, bn) != 0 <==> bn * BSIZE < d.size
    ensures NoHoles(d.(size := (d.size / BSIZE + 1) * BSIZE), disk) <==> d.size % BSIZE != 0
  {
    hide WordAt;
    var bn, d' := d.size / BSIZE, d.(size := (d.size / BSIZE + 1) * BSIZE);
    assert forall k | 0 <= k < MAXFILE :: Addr(d', disk, k) == Addr(d, disk, k);
    assert Addr(d, disk, bn) != 0 <==> d.size % BSIZE != 0;
    forall k | 0 <= k < MAXFILE && k * BSIZE < d'.size ensures k <= bn {
    }
  }
}
