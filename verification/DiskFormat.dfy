/** The structures on the disk byte by byte: inodes and the blocks of a file, the free bitmap, and the log's header. */
module DiskFormat {
  import opened Bytes
  import opened FsContent
  import opened FsLayout
  import L = LogImage

  // The four bytes from position p on, the lowest first.
  predicate Holds(b: Block, p: nat, v: uint)
    requires p + 4 <= BSIZE
  {
    b[p] == v % 0x100 && b[p + 1] == v / 0x100 % 0x100 && b[p + 2] == v / 0x10000 % 0x100 && b[p + 3] == v / 0x1000000
  }

  lemma WordHeld(b: Block, k: nat)
    requires k < WORDS
    ensures Holds(b, 4 * k, WordAt(b, k))
  {
    FourBytes(b[4 * k], b[4 * k + 1], b[4 * k + 2], b[4 * k + 3]);
  }

  lemma FourBytes(b0: byte, b1: byte, b2: byte, b3: byte)
    ensures var v := b0 as int + 0x100 * b1 + 0x10000 * b2 + 0x1000000 * b3;
      && v % 0x100 == b0 && v / 0x100 % 0x100 == b1 && v / 0x10000 % 0x100 == b2 && v / 0x1000000 == b3
  {
    var x0: int, x1: int, x2: int, x3: int := b0, b1, b2, b3;
    var v := x0 + 0x100 * x1 + 0x10000 * x2 + 0x1000000 * x3;
    Low(x0, x1 + 0x100 * x2 + 0x10000 * x3);
    Low(x1, x2 + 0x100 * x3);
    Low(x2, x3);
    assert v / 0x10000 == x2 + 0x100 * x3 && v / 0x1000000 == x3;
  }

  lemma Low(x: int, rest: int)
    requires 0 <= x < 0x100
    ensures (x + 0x100 * rest) % 0x100 == x && (x + 0x100 * rest) / 0x100 == rest
  {
  }

  // struct dinode, 64 bytes for each of the eight inodes of a block: type, major, minor and nlink in two bytes each,
  // then the size and the thirteen addresses in four.
  lemma InodeBytes(b: Block, s: nat, d: Dinode, k: nat)
    requires s < IPB && k <= NDIRECT
    ensures var r, p := Encode(b, s, d), 64 * s;
      && r[p] == d.typ % 0x100 && r[p + 1] == d.typ / 0x100
      && r[p + 2] == d.major % 0x100 && r[p + 3] == d.major / 0x100
      && r[p + 4] == d.minor % 0x100 && r[p + 5] == d.minor / 0x100
      && r[p + 6] == d.nlink % 0x100 && r[p + 7] == d.nlink / 0x100
      && Holds(r, p + 8, d.size) && Holds(r, p + 12 + 4 * k, d.addrs[k])
  {
    hide WordAt;
    hide PutInodeWords;
    var r, w := Encode(b, s, d), DINODE_WORDS * s;
    assert WordAt(r, w + 0) == InodeWord(d, 0) && WordAt(r, w + 1) == InodeWord(d, 1);
    assert WordAt(r, w + 2) == InodeWord(d, 2) && WordAt(r, w + (3 + k)) == InodeWord(d, 3 + k);
    WordHeld(r, w);
    WordHeld(r, w + 1);
    WordHeld(r, w + 2);
    WordHeld(r, w + 3 + k);
    Halves(d.typ, d.major);
    Halves(d.minor, d.nlink);
  }

  lemma Halves(lo: ushort, hi: ushort)
    ensures var v := lo + 0x10000 * hi;
      && v % 0x100 == lo % 0x100 && v / 0x100 % 0x100 == lo / 0x100
      && v / 0x10000 % 0x100 == hi % 0x100 && v / 0x1000000 == hi / 0x100
  {
    FourBytes(lo % 0x100, lo / 0x100, hi % 0x100, hi / 0x100);
  }

  // Byte p of a file is byte p % 512 of a block of it: one of the first twelve addresses, or one of those in the block
  // that the thirteenth leads to.
  lemma FileBytes(d: Dinode, disk: Image, p: nat, a: uint)
    requires p < d.size <= MAXFILE * BSIZE && 0 < a < |disk|
    requires p / 512 < 12 ==> d.addrs[p / 512] == a
    requires p / 512 >= 12 ==> 0 < d.addrs[12] < |disk| && Holds(disk[d.addrs[12]], 4 * (p / 512 - 12), a)
    ensures Content(d, disk)[p] == disk[a][p % 512]
  {
    if p / 512 >= 12 {
      WordHeld(disk[d.addrs[12]], p / 512 - 12);
      SameDigits(a, WordAt(disk[d.addrs[12]], p / 512 - 12));
    }
  }

  lemma SameDigits(v: uint, w: uint)
    requires v % 0x100 == w % 0x100 && v / 0x100 % 0x100 == w / 0x100 % 0x100
    requires v / 0x10000 % 0x100 == w / 0x10000 % 0x100 && v / 0x1000000 == w / 0x1000000
    ensures v == w
  {
    Digits(v);
    Digits(w);
  }

  // struct logheader: the number of blocks, then the number of each.
  lemma HeaderBytes(h: Block, lh: seq<uint>, i: nat)
    requires |lh| <= L.LOGSIZE && i < |lh|
    ensures Holds(L.PutHeader(h, lh), 0, |lh|) && Holds(L.PutHeader(h, lh), 4 + 4 * i, lh[i])
  {
    var r := L.PutHeader(h, lh);
    assert L.Count(r) == |lh| && L.Listed(r, i) == lh[i];
    WordHeld(r, 0);
    WordHeld(r, 1 + i);
  }

  // Bit i of the bitmap, for disk block i, is bit i % 8 of byte i / 8.
  lemma BitmapBits(b: Block, i: nat)
    requires i < BPB
    ensures BitAt(b, i) <==> b[i / 8] / [1, 2, 4, 8, 16, 32, 64, 128][i % 8] % 2 == 1
  {
    BitIs(b[i / 8], i % 8);
    Powers(i % 8);
  }

  lemma Powers(k: nat)
    requires k < 8
    ensures Power(k) == [1, 2, 4, 8, 16, 32, 64, 128][k]
  {
    assert Power(3) == 8 && Power(5) == 32 && Power(7) == 128;
  }

  lemma {:induction false} BitIs(x: nat, k: nat)
    ensures Power(k) > 0 && (Bit(x, k) <==> x / Power(k) % 2 == 1)
  {
    if k > 0 {
      BitIs(x / 2, k - 1);
      HalfFirst(x, Power(k - 1));
    }
  }

  lemma HalfFirst(x: nat, p: nat)
    requires p > 0
    ensures x / 2 / p == x / (2 * p)
  {
    var q, r := x / (2 * p), x % (2 * p);
    assert x == 2 * (p * q) + r && x / 2 == p * q + r / 2;
    assert r / 2 < p;
    Quotient(x / 2, p, q, r / 2);
  }

  lemma Quotient(x: nat, p: nat, q: nat, r: nat)
    requires x == p * q + r && r < p
    ensures x / p == q
  {
    var d := x / p - q;
    assert p * d == r - x % p;
  }
}
