/**
 Which disk block belongs to whom: the bitmap, the inode table and the block maps together.

 The inode table is taken at its current value, which for a cached inode is the in-memory copy.
 */
module FsMap {
  import opened Bytes
  import opened FsLayout

  type Table = seq<Dinode>

  // The places that hold a block number: addrs[0..NDIRECT], then the entries of the indirect block.
  const NSLOT: nat := NDIRECT + 1 + NINDIRECT

  type Owners = map<nat, (nat, nat)>  // block -> (inode, slot)

  predicate InUse(sb: Super, disk: Image, b: nat)
    requires SuperOk(sb) && |disk| == sb.size && b < sb.size
  {
    BitAt(disk[BitmapBlock(sb, b)], b % BPB)
  }

  function Ptr(d: Dinode, disk: Image, k: nat): uint
    requires k < NSLOT
  {
    if k <= NDIRECT then d.addrs[k]
    else if d.addrs[NDIRECT] == 0 || d.addrs[NDIRECT] >= |disk| then 0
    else WordAt(disk[d.addrs[NDIRECT]], k - NDIRECT - 1)
  }

  // Block b is where its owner says.
  ghost predicate OwnedOk(sb: Super, disk: Image, tab: Table, own: Owners, b: nat)
  {
    b in own ==>
      && sb.datastart <= b < sb.size && own[b].0 < |tab| && own[b].1 < NSLOT
      && Ptr(tab[own[b].0], disk, own[b].1) == b
  }

  // Slot k of inode i is empty, or owns its block.
  ghost predicate SlotOk(disk: Image, tab: Table, own: Owners, i: nat, k: nat)
  {
    i < |tab| && k < NSLOT && Ptr(tab[i], disk, k) != 0 ==>
      Ptr(tab[i], disk, k) in own && own[Ptr(tab[i], disk, k)] == (i, k)
  }

  // Block b is marked in use exactly if it is metadata, owned, or in `extra`.
  ghost predicate MarkOk(sb: Super, disk: Image, own: Owners, extra: set<nat>, b: nat)
    requires SuperOk(sb) && |disk| == sb.size
  {
    b < sb.size ==> (InUse(sb, disk, b) <==> b < sb.datastart || b in own || b in extra)
  }

  // Every block number in the table has its own block, and every block in use has its owner,
  // except the blocks in `extra`, which are allocated but not yet linked.
  ghost predicate Wf(sb: Super, disk: Image, tab: Table, own: Owners, extra: set<nat>)
  {
    && SuperOk(sb) && |disk| == sb.size && |tab| == sb.ninodes
    && (forall b: nat {:trigger OwnedOk(sb, disk, tab, own, b)} :: OwnedOk(sb, disk, tab, own, b))
    && (forall i: nat, k: nat {:trigger SlotOk(disk, tab, own, i, k)} :: SlotOk(disk, tab, own, i, k))
    && (forall b: nat {:trigger MarkOk(sb, disk, own, extra, b)} :: MarkOk(sb, disk, own, extra, b))
    && (forall b | b in extra :: sb.datastart <= b < sb.size && b !in own)
  }

  ghost predicate SamePtrs(tab: Table, disk: Image, tab': Table, disk': Image)
  {
    |tab| == |tab'| && forall i, k | 0 <= i < |tab| && 0 <= k < NSLOT :: Ptr(tab'[i], disk', k) == Ptr(tab[i], disk, k)
  }

  // What balloc does to the disk: block b was free, and is now marked and zero.
  ghost predicate Allocated(sb: Super, disk: Image, b: nat, disk': Image)
    requires SuperOk(sb) && |disk| == sb.size
  {
    && |disk'| == |disk| && sb.datastart <= b < |disk| && !InUse(sb, disk, b) && disk'[b] == ZERO_BLOCK
    && (forall c | 0 <= c < |disk| :: InUse(sb, disk', c) == (c == b || InUse(sb, disk, c)))
    && (forall x | 0 <= x < |disk| && !(sb.bmapstart <= x < sb.datastart) && x != b :: disk'[x] == disk[x])
  }

  // What bfree does: block b is no longer marked.
  ghost predicate Freed(sb: Super, disk: Image, b: nat, disk': Image)
    requires SuperOk(sb) && |disk| == sb.size
  {
    && |disk'| == |disk| && b < |disk|
    && (forall c | 0 <= c < |disk| :: InUse(sb, disk', c) == (c != b && InUse(sb, disk, c)))
    && (forall x | 0 <= x < |disk| && !(sb.bmapstart <= x < sb.datastart) :: disk'[x] == disk[x])
  }

  ghost function FreeBlocks(sb: Super, disk: Image): set<nat>
    requires SuperOk(sb) && |disk| == sb.size
  {
    set b: nat | b < sb.size && !InUse(sb, disk, b)
  }

  ghost function Between(lo: nat, hi: nat): (r: set<nat>)
    requires lo <= hi
    ensures |r| == hi - lo && forall b: nat :: b in r <==> lo <= b < hi
    decreases hi
  {
    if lo == hi then {} else Between(lo, hi - 1) + {hi - 1}
  }

  // A data block is free or has an owner.
  lemma FreeCount(sb: Super, disk: Image, tab: Table, own: Owners)
    requires Wf(sb, disk, tab, own, {})
    ensures |FreeBlocks(sb, disk)| + |own.Keys| == sb.size - sb.datastart
  {
    hide InUse;
    hide Ptr;
    var free := FreeBlocks(sb, disk);
    forall b: nat ensures b in free + own.Keys <==> b in Between(sb.datastart, sb.size) {
      assert MarkOk(sb, disk, own, {}, b) && OwnedOk(sb, disk, tab, own, b);
    }
    forall b | b in free ensures b !in own {
      assert MarkOk(sb, disk, own, {}, b);
    }
    assert free + own.Keys == Between(sb.datastart, sb.size);
    assert |free + own.Keys| == |free| + |own.Keys|;
  }

  // The bitmap is all that InUse reads.
  lemma SameBitmap(sb: Super, disk: Image, disk': Image)
    requires SuperOk(sb) && |disk| == |disk'| == sb.size
    requires forall x | sb.bmapstart <= x < sb.datastart :: disk'[x] == disk[x]
    ensures forall c | 0 <= c < sb.size :: InUse(sb, disk', c) == InUse(sb, disk, c)
  {
    hide BitAt;
    forall c | 0 <= c < sb.size ensures InUse(sb, disk', c) == InUse(sb, disk, c) {
      assert sb.bmapstart <= BitmapBlock(sb, c) < sb.datastart;
    }
  }

  lemma BitPosition(sb: Super, b: nat, bi: nat)
    requires b % BPB == 0 && bi < BPB
    ensures BitmapBlock(sb, b + bi) == BitmapBlock(sb, b) && (b + bi) % BPB == bi
  {
  }

  lemma BitmapRange(sb: Super, b: nat)
    requires SuperOk(sb) && b < sb.size
    ensures sb.bmapstart <= BitmapBlock(sb, b) < sb.datastart && (BitmapBlock(sb, b) - sb.bmapstart) * BPB < sb.size
  {
  }

  lemma MarkBit(sb: Super, disk: Image, b: nat, on: bool, c: nat)
    requires SuperOk(sb) && |disk| == sb.size && b < sb.size && c < sb.size
    ensures InUse(sb, disk[BitmapBlock(sb, b) := PutBit(disk[BitmapBlock(sb, b)], b % BPB, on)], c) ==
            if c == b then on else InUse(sb, disk, c)
  {
    hide BitAt;
    hide PutBit;
    BitAtPutBit(disk[BitmapBlock(sb, b)], b % BPB, on, c % BPB);
  }

  lemma AllocBits(sb: Super, disk: Image, b: nat, marked: Image)
    requires SuperOk(sb) && |disk| == sb.size && sb.datastart <= b < sb.size && !InUse(sb, disk, b)
    requires marked == disk[BitmapBlock(sb, b) := PutBit(disk[BitmapBlock(sb, b)], b % BPB, true)]
    ensures Allocated(sb, disk, b, marked[b := ZERO_BLOCK])
  {
    hide InUse;
    hide PutBit;
    assert sb.bmapstart <= BitmapBlock(sb, b) < sb.datastart;
    SameBitmap(sb, marked, marked[b := ZERO_BLOCK]);
    forall c | 0 <= c < sb.size ensures InUse(sb, marked[b := ZERO_BLOCK], c) == (c == b || InUse(sb, disk, c)) {
      MarkBit(sb, disk, b, true, c);
    }
  }

  lemma FreeBits(sb: Super, disk: Image, b: nat, disk': Image)
    requires SuperOk(sb) && |disk| == sb.size && b < sb.size
    requires disk' == disk[BitmapBlock(sb, b) := PutBit(disk[BitmapBlock(sb, b)], b % BPB, false)]
    ensures Freed(sb, disk, b, disk')
  {
    hide InUse;
    hide PutBit;
    assert sb.bmapstart <= BitmapBlock(sb, b) < sb.datastart;
    forall c | 0 <= c < sb.size ensures InUse(sb, disk', c) == (c != b && InUse(sb, disk, c)) {
      MarkBit(sb, disk, b, false, c);
    }
  }

  lemma ZeroWords(k: nat)
    requires k < WORDS
    ensures WordAt(ZERO_BLOCK, k) == 0
  {
  }

  // Block numbers are read from the table and from indirect blocks, and nowhere else.
  lemma PtrFrame(sb: Super, disk: Image, tab: Table, own: Owners, extra: set<nat>, disk': Image)
    requires Wf(sb, disk, tab, own, extra) && |disk'| == |disk|
    requires forall b | b in own && own[b].1 == NDIRECT && b < |disk| :: disk'[b] == disk[b]
    ensures SamePtrs(tab, disk, tab, disk')
  {
    hide WordAt;
    forall i, k | 0 <= i < |tab| && 0 <= k < NSLOT ensures Ptr(tab[i], disk', k) == Ptr(tab[i], disk, k) {
      assert SlotOk(disk, tab, own, i, NDIRECT);
    }
  }

  lemma OwnedRange(sb: Super, disk: Image, tab: Table, own: Owners, extra: set<nat>, b: nat)
    requires Wf(sb, disk, tab, own, extra) && b in own
    ensures sb.datastart <= b < sb.size
  {
    assert OwnedOk(sb, disk, tab, own, b);
  }

  // Wf needs no more than the block numbers and the bitmap.
  lemma WfFrame(sb: Super, disk: Image, tab: Table, own: Owners, extra: set<nat>, disk': Image, tab': Table)
    requires Wf(sb, disk, tab, own, extra) && |disk'| == |disk| && SamePtrs(tab, disk, tab', disk')
    requires forall x | sb.bmapstart <= x < sb.datastart :: disk'[x] == disk[x]
    ensures Wf(sb, disk', tab', own, extra)
  {
    hide Ptr;
    hide InUse;
    SameBitmap(sb, disk, disk');
    forall b: nat ensures OwnedOk(sb, disk', tab', own, b) {
      assert OwnedOk(sb, disk, tab, own, b);
    }
    forall i: nat, k: nat ensures SlotOk(disk', tab', own, i, k) {
      assert SlotOk(disk, tab, own, i, k);
    }
    forall b: nat ensures MarkOk(sb, disk', own, extra, b) {
      assert MarkOk(sb, disk, own, extra, b);
    }
  }

  // Same block numbers and the same bitmap but for one new block.
  lemma AllocKeeps(sb: Super, disk: Image, tab: Table, own: Owners, b: nat, disk': Image)
    requires Wf(sb, disk, tab, own, {}) && Allocated(sb, disk, b, disk')
    ensures b !in own && Wf(sb, disk', tab, own, {b}) && SamePtrs(tab, disk, tab, disk')
  {
    hide InUse;
    hide Ptr;
    assert MarkOk(sb, disk, own, {}, b);
    forall c | c in own ensures sb.datastart <= c < sb.size {
      assert OwnedOk(sb, disk, tab, own, c);
    }
    PtrFrame(sb, disk, tab, own, {}, disk');
    forall c: nat ensures OwnedOk(sb, disk', tab, own, c) {
      assert OwnedOk(sb, disk, tab, own, c);
    }
    forall i: nat, k: nat ensures SlotOk(disk', tab, own, i, k) {
      assert SlotOk(disk, tab, own, i, k);
    }
    forall c: nat ensures MarkOk(sb, disk', own, {b}, c) {
      assert MarkOk(sb, disk, own, {}, c);
    }
  }

  // addrs[k] = b
  function SetAddr(tab: Table, i: nat, k: nat, b: uint): Table
    requires i < |tab| && k <= NDIRECT
  {
    tab[i := tab[i].(addrs := tab[i].addrs[k := b])]
  }

  // Slot k of inode i now holds b, and that is all.
  ghost predicate OnePtr(tab: Table, disk: Image, tab': Table, disk': Image, i: nat, k: nat, b: nat)
  {
    && |tab| == |tab'| && i < |tab| && k < NSLOT
    && forall j, m | 0 <= j < |tab| && 0 <= m < NSLOT ::
         Ptr(tab'[j], disk', m) == if j == i && m == k then b else Ptr(tab[j], disk, m)
  }

  lemma AddrPtrs(tab: Table, disk: Image, i: nat, k: nat, b: uint)
    requires i < |tab| && k <= NDIRECT && tab[i].addrs[k] == 0
    requires k == NDIRECT ==> b < |disk| && disk[b] == ZERO_BLOCK
    ensures OnePtr(tab, disk, SetAddr(tab, i, k, b), disk, i, k, b)
  {
    hide WordAt;
    forall m | 0 <= m < WORDS ensures WordAt(ZERO_BLOCK, m) == 0 {
      ZeroWords(m);
    }
  }

  lemma EntryPtrs(sb: Super, disk: Image, tab: Table, own: Owners, extra: set<nat>, i: nat, j: nat, b: uint)
    requires Wf(sb, disk, tab, own, extra) && i < |tab| && j < NINDIRECT && tab[i].addrs[NDIRECT] != 0
    ensures tab[i].addrs[NDIRECT] in own && own[tab[i].addrs[NDIRECT]] == (i, NDIRECT)
    ensures sb.datastart <= tab[i].addrs[NDIRECT] < |disk|
    ensures OnePtr(tab, disk, tab, disk[tab[i].addrs[NDIRECT] := PutWord(disk[tab[i].addrs[NDIRECT]], j, b)], i,
                   NDIRECT + 1 + j, b)
  {
    hide WordAt;
    hide PutWord;
    hide InUse;
    var ind := tab[i].addrs[NDIRECT];
    assert SlotOk(disk, tab, own, i, NDIRECT) && OwnedOk(sb, disk, tab, own, ind);
    var disk' := disk[ind := PutWord(disk[ind], j, b)];
    forall x, m | 0 <= x < |tab| && 0 <= m < NSLOT
      ensures Ptr(tab[x], disk', m) == if x == i && m == NDIRECT + 1 + j then b else Ptr(tab[x], disk, m)
    {
      assert SlotOk(disk, tab, own, x, NDIRECT);
    }
  }

  lemma OnePtrAfter(tab: Table, disk: Image, disk1: Image, tab2: Table, disk2: Image, i: nat, k: nat, b: nat)
    requires SamePtrs(tab, disk, tab, disk1) && OnePtr(tab, disk1, tab2, disk2, i, k, b)
    ensures OnePtr(tab, disk, tab2, disk2, i, k, b)
  {
    hide Ptr;
  }

  // Linking an allocated block at one empty place makes that place its owner.
  lemma LinkKeeps(sb: Super, disk: Image, tab: Table, own: Owners, extra: set<nat>, disk': Image, tab': Table, i: nat,
                  k: nat, b: nat)
    requires Wf(sb, disk, tab, own, extra) && b in extra
    requires OnePtr(tab, disk, tab', disk', i, k, b) && Ptr(tab[i], disk, k) == 0 && |disk'| == |disk|
    requires forall x | sb.bmapstart <= x < sb.datastart :: disk'[x] == disk[x]
    ensures Wf(sb, disk', tab', own[b := (i, k)], extra - {b})
  {
    hide Ptr;
    hide InUse;
    SameBitmap(sb, disk, disk');
    var own' := own[b := (i, k)];
    forall x: nat ensures OwnedOk(sb, disk', tab', own', x) {
      assert OwnedOk(sb, disk, tab, own, x);
    }
    forall j: nat, m: nat ensures SlotOk(disk', tab', own', j, m) {
      assert SlotOk(disk, tab, own, j, m);
    }
    forall x: nat ensures MarkOk(sb, disk', own', extra - {b}, x) {
      assert MarkOk(sb, disk, own, extra, x);
    }
  }

  // Writing a data block moves nothing.
  lemma PatchKeeps(sb: Super, disk: Image, tab: Table, own: Owners, extra: set<nat>, b: nat, data: Block)
    requires Wf(sb, disk, tab, own, extra) && b in own && own[b].1 != NDIRECT
    ensures sb.datastart <= b < |disk|
    ensures Wf(sb, disk[b := data], tab, own, extra) && SamePtrs(tab, disk, tab, disk[b := data])
  {
    assert OwnedOk(sb, disk, tab, own, b);
    PtrFrame(sb, disk, tab, own, extra, disk[b := data]);
    WfFrame(sb, disk, tab, own, extra, disk[b := data], tab);
  }

  function Disown(own: Owners, i: nat): Owners { map b | b in own && own[b].0 != i :: own[b] }

  // The blocks of inode i, freed and forgotten.
  lemma TruncKeeps(sb: Super, disk: Image, tab: Table, own: Owners, disk': Image, tab': Table, i: nat)
    requires Wf(sb, disk, tab, own, {}) && i < |tab| && |disk'| == |disk| && |tab'| == |tab|
    requires forall j | 0 <= j < |tab| && j != i :: tab'[j] == tab[j]
    requires forall k | 0 <= k < NSLOT :: Ptr(tab'[i], disk', k) == 0
    requires forall b | sb.datastart <= b < |disk| :: disk'[b] == disk[b]
    requires forall b | 0 <= b < sb.size :: InUse(sb, disk', b) == (InUse(sb, disk, b) && !(b in own && own[b].0 == i))
    ensures Wf(sb, disk', tab', Disown(own, i), {})
  {
    hide InUse;
    hide Ptr;
    var own' := Disown(own, i);
    forall b | b in own ensures sb.datastart <= b < |disk| {
      assert OwnedOk(sb, disk, tab, own, b);
    }
    PtrFrame(sb, disk, tab, own, {}, disk');
    forall b: nat ensures OwnedOk(sb, disk', tab', own', b) {
      assert OwnedOk(sb, disk, tab, own, b);
    }
    forall j: nat, m: nat ensures SlotOk(disk', tab', own', j, m) {
      assert SlotOk(disk, tab, own, j, m);
    }
    forall b: nat ensures MarkOk(sb, disk', own', {}, b) {
      assert MarkOk(sb, disk, own, {}, b);
      assert OwnedOk(sb, disk, tab, own, b);
    }
  }
}
