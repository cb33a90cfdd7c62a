/** The on-disk structures of fs.h: the free bitmap, the inode table and the block map of an inode. */
module FsLayout {
  import opened Bytes

  const NDIRECT: nat := 12
  const NINDIRECT: nat := WORDS
  const MAXFILE: nat := NDIRECT + NINDIRECT
  const IPB: nat := 8           // inodes per block
  const DINODE_WORDS: nat := 16 // 32-bit words in an inode

  type ushort = x: int | 0 <= x < 0x10000

  // struct superblock, with the first data block in place of nblocks and without the log.
  datatype Super = Super(size: nat, ninodes: nat, inodestart: nat, bmapstart: nat, datastart: nat)

  function InodeBlock(sb: Super, i: nat): nat { i / IPB + sb.inodestart }

  function BitmapBlock(sb: Super, b: nat): nat { b / BPB + sb.bmapstart }

  // [ boot | super | log | inode blocks | free bit map | data blocks ]
  predicate SuperOk(sb: Super)
  {
    && 0 < sb.inodestart <= sb.bmapstart < sb.datastart <= sb.size <= UINT_LIMIT
    && sb.ninodes <= (sb.bmapstart - sb.inodestart) * IPB && sb.size <= (sb.datastart - sb.bmapstart) * BPB
  }

  // ----- bits -----

  predicate Bit(x: nat, k: nat)
  {
    if k == 0 then x % 2 == 1 else Bit(x / 2, k - 1)
  }

  // x | 1 << k, or x & ~(1 << k)
  function SetBit(x: nat, k: nat, on: bool): nat
  {
    if k == 0 then x / 2 * 2 + (if on then 1 else 0) else SetBit(x / 2, k - 1, on) * 2 + x % 2
  }

  lemma {:induction false} BitOfSetBit(x: nat, k: nat, on: bool, j: nat)
    ensures Bit(SetBit(x, k, on), j) == if j == k then on else Bit(x, j)
  {
    if k > 0 && j > 0 {
      BitOfSetBit(x / 2, k - 1, on, j - 1);
    }
  }

  function Power(k: nat): nat { if k == 0 then 1 else 2 * Power(k - 1) }

  lemma {:induction false} SetBitFits(x: nat, k: nat, on: bool, w: nat)
    requires x < Power(w) && k < w
    ensures SetBit(x, k, on) < Power(w)
  {
    assert Power(w) == 2 * Power(w - 1);
    Halved(x, Power(w - 1));
    if k > 0 {
      SetBitFits(x / 2, k - 1, on, w - 1);
    }
  }

  lemma Halved(x: nat, p: nat)
    requires x < 2 * p
    ensures x / 2 < p && 2 * (x / 2) + 1 < 2 * p
  {
  }

  predicate BitAt(b: Block, i: nat)
    requires i < BPB
  {
    Bit(b[i / 8], i % 8)
  }

  function PutBit(b: Block, i: nat, on: bool): Block
    requires i < BPB
  {
    assert Power(8) == 256;
    SetBitFits(b[i / 8], i % 8, on, 8);
    b[i / 8 := SetBit(b[i / 8], i % 8, on)]
  }

  lemma BitAtPutBit(b: Block, i: nat, on: bool, j: nat)
    requires i < BPB && j < BPB
    ensures BitAt(PutBit(b, i, on), j) == if i == j then on else BitAt(b, j)
  {
    BitOfSetBit(b[i / 8], i % 8, on, j % 8);
  }

  // ----- inodes -----

  type Addrs = s: seq<uint> | |s| == NDIRECT + 1 witness seq(NDIRECT + 1, i => 0)

  datatype Dinode = Dinode(typ: ushort, major: ushort, minor: ushort, nlink: ushort, size: uint, addrs: Addrs)

  function InodeWord(d: Dinode, k: nat): uint
    requires k < DINODE_WORDS
  {
    if k == 0 then d.typ + 0x10000 * d.major
    else if k == 1 then d.minor + 0x10000 * d.nlink
    else if k == 2 then d.size
    else d.addrs[k - 3]
  }

  function AddrsUpTo(b: Block, s: nat, n: nat): (r: seq<uint>)
    requires s < IPB && n <= NDIRECT + 1
    ensures |r| == n && forall i | 0 <= i < n :: r[i] == WordAt(b, DINODE_WORDS * s + 3 + i)
  {
    if n == 0 then [] else AddrsUpTo(b, s, n - 1) + [WordAt(b, DINODE_WORDS * s + 3 + n - 1)]
  }

  function AddrsAt(b: Block, s: nat): Addrs
    requires s < IPB
  {
    AddrsUpTo(b, s, NDIRECT + 1)
  }

  function Decode(b: Block, s: nat): Dinode
    requires s < IPB
  {
    var w0, w1, w2 := WordAt(b, DINODE_WORDS * s), WordAt(b, DINODE_WORDS * s + 1), WordAt(b, DINODE_WORDS * s + 2);
    Dinode(w0 % 0x10000, w0 / 0x10000, w1 % 0x10000, w1 / 0x10000, w2, AddrsAt(b, s))
  }

  function PutInodeWords(b: Block, s: nat, d: Dinode, n: nat): (r: Block)
    requires s < IPB && n <= DINODE_WORDS
    ensures forall k | 0 <= k < n :: WordAt(r, DINODE_WORDS * s + k) == InodeWord(d, k)
    ensures forall j | 0 <= j < WORDS && !(DINODE_WORDS * s <= j < DINODE_WORDS * s + n) :: WordAt(r, j) == WordAt(b, j)
  {
    if n == 0 then b
    else PutWord(PutInodeWords(b, s, d, n - 1), DINODE_WORDS * s + n - 1, InodeWord(d, n - 1))
  }

  function Encode(b: Block, s: nat, d: Dinode): Block
    requires s < IPB
  {
    PutInodeWords(b, s, d, DINODE_WORDS)
  }

  // iupdate and ilock invert each other, and leave the other inodes of the block alone.
  lemma InodeRoundTrip(b: Block, s: nat, d: Dinode)
    requires s < IPB
    ensures Decode(Encode(b, s, d), s) == d
    ensures forall t | 0 <= t < IPB && t != s :: Decode(Encode(b, s, d), t) == Decode(b, t)
  {
    hide WordAt;
    hide PutInodeWords;
    hide AddrsUpTo;
    var r := Encode(b, s, d);
    var w := DINODE_WORDS * s;
    forall i | 0 <= i <= NDIRECT ensures AddrsAt(r, s)[i] == d.addrs[i] {
      assert WordAt(r, w + (3 + i)) == InodeWord(d, 3 + i);
    }
    assert AddrsAt(r, s) == d.addrs;
    assert WordAt(r, w + 0) == InodeWord(d, 0) && WordAt(r, w + 1) == InodeWord(d, 1);
    assert WordAt(r, w + 2) == InodeWord(d, 2);
    forall t | 0 <= t < IPB && t != s ensures Decode(r, t) == Decode(b, t) {
      assert AddrsAt(r, t) == AddrsAt(b, t);
    }
  }
}
