/** Disk blocks as arrays of bytes, with the little-endian words and the bits that the kernel reads in them. */
module Bytes {

  const BSIZE: nat := 512
  const WORDS: nat := BSIZE / 4  // 32-bit words in a block
  const BPB: nat := BSIZE * 8    // bits in a block
  const UINT_LIMIT: nat := 0x1_0000_0000

  type byte = x: int | 0 <= x < 256
  type uint = x: int | 0 <= x < UINT_LIMIT
  type Block = b: seq<byte> | |b| == BSIZE witness seq(BSIZE, i => 0)
  type Image = seq<Block>  // a disk

  function Zeros(n: nat): (r: seq<byte>)
    ensures |r| == n && forall i | 0 <= i < n :: r[i] == 0
  {
    if n == 0 then [] else Zeros(n - 1) + [0]
  }

  const ZERO_BLOCK: Block := Zeros(BSIZE)

  // n words x
  function Fill(n: nat, x: uint): (r: seq<uint>)
    ensures |r| == n && forall i | 0 <= i < n :: r[i] == x
  {
    if n == 0 then [] else Fill(n - 1, x) + [x]
  }

  datatype Option<+T> = None | Some(value: T)

  function WordAt(b: Block, k: nat): uint
    requires k < WORDS
  {
    var b0: int, b1: int, b2: int, b3: int := b[4 * k], b[4 * k + 1], b[4 * k + 2], b[4 * k + 3];
    b0 + 0x100 * b1 + 0x10000 * b2 + 0x1000000 * b3
  }

  lemma Digits(v: uint)
    ensures v == v % 0x100 + 0x100 * (v / 0x100 % 0x100) + 0x10000 * (v / 0x10000 % 0x100) + 0x1000000 * (v / 0x1000000)
    ensures v / 0x1000000 < 0x100
  {
  }

  function PutWord(b: Block, k: nat, v: uint): (r: Block)
    requires k < WORDS
    ensures WordAt(r, k) == v
    ensures forall j | 0 <= j < WORDS && j != k :: WordAt(r, j) == WordAt(b, j)
  {
    Digits(v);
    b[4 * k := v % 0x100][4 * k + 1 := v / 0x100 % 0x100][4 * k + 2 := v / 0x10000 % 0x100][4 * k + 3 := v / 0x1000000]
  }

  lemma SliceExtends<T>(s: seq<T>, i: nat, j: nat)
    requires i <= j < |s|
    ensures s[i..j + 1] == s[i..j] + [s[j]]
  {
  }

  lemma SliceJoins<T>(s: seq<T>, i: nat, j: nat, k: nat)
    requires i <= j <= k <= |s|
    ensures s[i..j] + s[j..k] == s[i..k]
  {
  }

  // The sum of two 32-bit unsigned integers.
  function UAdd(a: uint, b: uint): uint { (a + b) % UINT_LIMIT }

  // The overflow test `a + b < a`.
  lemma UAddWraps(a: uint, b: uint)
    ensures UAdd(a, b) < a <==> a + b >= UINT_LIMIT
    ensures UAdd(a, b) == if a + b < UINT_LIMIT then a + b else a + b - UINT_LIMIT
  {
  }
}
