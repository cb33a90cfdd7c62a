/**
 Blocks, inodes and file contents of fs.c, over the blocks that bread shows and log_write changes.

 The disk here is the logical one of Bio.dfy; `logged` is the set of blocks that the current
 transaction has passed to log_write.  A panic is a result.
 */
module Fs {
  import opened Bytes
  import opened FsLayout
  import opened FsMap
  import opened FsContent
  import opened FsCost
  import opened FsNeed
  import opened FsBook
  import opened FsTrunc

  const T_DEV: ushort := 3

  function OnDisk(sb: Super, disk: Image, i: nat): Dinode
    requires SuperOk(sb) && |disk| == sb.size && i < sb.ninodes
  {
    assert i / IPB <= sb.ninodes / IPB;
    Decode(disk[InodeBlock(sb, i)], i % IPB)
  }

  // The current value of inode i is the in-memory copy if there is a valid one.
  ghost predicate CurrentOk(sb: Super, disk: Image, icache: map<nat, Dinode>, tab: Table, i: nat)
    requires SuperOk(sb) && |disk| == sb.size && |tab| == sb.ninodes
  {
    && (i in icache ==> i < sb.ninodes)
    && (i < sb.ninodes ==> tab[i] == if i in icache then icache[i] else OnDisk(sb, disk, i))
  }

  ghost predicate Current(sb: Super, disk: Image, icache: map<nat, Dinode>, tab: Table)
    requires SuperOk(sb) && |disk| == sb.size && |tab| == sb.ninodes
  {
    forall i: nat {:trigger CurrentOk(sb, disk, icache, tab, i)} :: CurrentOk(sb, disk, icache, tab, i)
  }

  // Only inode i, which is cached, has changed.
  lemma CurrentFrame(sb: Super, disk: Image, icache: map<nat, Dinode>, tab: Table, disk': Image, icache': map<nat,
                     Dinode>, tab': Table, i: nat)
    requires SuperOk(sb) && |disk| == |disk'| == sb.size && |tab| == |tab'| == sb.ninodes
    requires Current(sb, disk, icache, tab)
    requires forall x | 0 <= x < sb.bmapstart :: disk'[x] == disk[x]
    requires i in icache && i < |tab| && icache' == icache[i := tab'[i]] && tab' == tab[i := tab'[i]]
    ensures Current(sb, disk', icache', tab')
  {
    hide Decode;
    forall j: nat ensures CurrentOk(sb, disk', icache', tab', j) {
      assert CurrentOk(sb, disk, icache, tab, j);
      assert j < sb.ninodes ==> InodeBlock(sb, j) < sb.bmapstart;
    }
  }

  lemma CachedIsCurrent(sb: Super, disk: Image, icache: map<nat, Dinode>, tab: Table, i: nat)
    requires SuperOk(sb) && |disk| == sb.size && |tab| == sb.ninodes && Current(sb, disk, icache, tab) && i in icache
    ensures i < |tab| && tab[i] == icache[i]
  {
    assert CurrentOk(sb, disk, icache, tab, i);
  }

  // balloc leaves a block that nobody owns yet.
  lemma AllocGrows(sb: Super, disk: Image, tab: Table, own: Owners, i: nat, b: nat, disk1: Image)
    requires SuperOk(sb) && |disk| == sb.size && Wf(sb, disk, tab, own, {}) && i < |tab|
    requires Allocated(sb, disk, b, disk1)
    ensures b !in own && Wf(sb, disk1, tab, own, {b}) && Grown(disk, tab, own, disk1, tab, i)
    ensures SamePtrs(tab, disk, tab, disk1)
  {
    hide InUse;
    hide Ptr;
    hide Wf;
    AllocKeeps(sb, disk, tab, own, b, disk1);
    forall j: nat, m: nat ensures KeepPtr(disk, tab, disk1, tab, j, m) {
    }
    forall c | c in own && c < |disk| && own[c].1 != NDIRECT ensures disk1[c] == disk[c] {
      OwnedRange(sb, disk, tab, own, {}, c);
    }
  }

  // ip->addrs[k] = b
  lemma AddrLinked(sb: Super, disk: Image, tab: Table, own: Owners, i: nat, k: nat, b: uint, tab1: Table)
    requires Wf(sb, disk, tab, own, {b}) && i < |tab| && k <= NDIRECT && tab[i].addrs[k] == 0
    requires b < |disk| && disk[b] == ZERO_BLOCK && tab1 == SetAddr(tab, i, k, b)
    ensures |tab1| == |tab| && Wf(sb, disk, tab1, own[b := (i, k)], {}) && Grown(disk, tab, own, disk, tab1, i)
    ensures OnePtr(tab, disk, tab1, disk, i, k, b)
  {
    hide Wf;
    assert Ptr(tab[i], disk, k) == 0;
    AddrPtrs(tab, disk, i, k, b);
    LinkKeeps(sb, disk, tab, own, {b}, disk, tab1, i, k, b);
    assert {b} - {b} == {};
    GrownByOne(disk, tab, own, disk, tab1, i, k, b);
  }

  // a[j] = b in the indirect block
  lemma EntryLinked(sb: Super, disk: Image, tab: Table, own: Owners, i: nat, j: nat, b: uint, ind: uint, disk1: Image)
    requires Wf(sb, disk, tab, own, {b}) && i < |tab| && j < NINDIRECT && ind == tab[i].addrs[NDIRECT] != 0
    requires ind < |disk| && WordAt(disk[ind], j) == 0 && disk1 == disk[ind := PutWord(disk[ind], j, b)]
    ensures |disk1| == |disk| && ind in own && own[ind] == (i, NDIRECT) && sb.datastart <= ind
    ensures Wf(sb, disk1, tab, own[b := (i, NDIRECT + 1 + j)], {}) && Grown(disk, tab, own, disk1, tab, i)
    ensures OnePtr(tab, disk, tab, disk1, i, NDIRECT + 1 + j, b)
  {
    hide Wf;
    hide WordAt;
    hide PutWord;
    var k := NDIRECT + 1 + j;
    EntryPtrs(sb, disk, tab, own, {b}, i, j, b);
    assert Ptr(tab[i], disk, k) == 0;
    LinkKeeps(sb, disk, tab, own, {b}, disk1, tab, i, k, b);
    assert {b} - {b} == {};
    GrownByOne(disk, tab, own, disk1, tab, i, k, b);
  }

  lemma OnePtrAt(tab: Table, disk: Image, tab': Table, disk': Image, i: nat, k: nat, b: nat)
    requires OnePtr(tab, disk, tab', disk', i, k, b)
    ensures |tab'| == |tab| && i < |tab| && k < NSLOT && Ptr(tab'[i], disk', k) == b
  {
  }

  // The state of the file system between calls.
  ghost predicate StOk(sb: Super, disk: Image, icache: map<nat, Dinode>, tab: Table, own: Owners)
  {
    && SuperOk(sb) && |disk| == sb.size && |tab| == sb.ninodes
    && Wf(sb, disk, tab, own, {}) && Current(sb, disk, icache, tab)
    && (forall j | 0 <= j < |tab| :: NoHoles(tab[j], disk))
  }

  lemma GrownOk(sb: Super, disk: Image, icache: map<nat, Dinode>, tab: Table, own: Owners,
                disk': Image, icache': map<nat, Dinode>, tab': Table, own': Owners, i: nat)
    requires StOk(sb, disk, icache, tab, own) && Grown(disk, tab, own, disk', tab', i) && Wf(sb, disk', tab', own', {})
    requires i in icache && icache' == icache[i := tab'[i]]
    requires forall x | 0 <= x < sb.bmapstart :: disk'[x] == disk[x]
    ensures StOk(sb, disk', icache', tab', own')
  {
    hide Wf;
    hide Ptr;
    CurrentFrame(sb, disk, icache, tab, disk', icache', tab', i);
    forall j | 0 <= j < |tab'| ensures NoHoles(tab'[j], disk') {
      GrownNoHoles(disk, tab, own, disk', tab', i, j);
    }
  }

  lemma AllocFrame(sb: Super, disk: Image, b: nat, disk': Image)
    requires SuperOk(sb) && |disk| == sb.size && Allocated(sb, disk, b, disk')
    ensures |disk'| == |disk| && 0 < sb.datastart <= b < |disk| && disk'[b] == ZERO_BLOCK && !InUse(sb, disk, b)
    ensures forall x | 0 <= x < |disk| && !(sb.bmapstart <= x < sb.datastart) && x != b :: disk'[x] == disk[x]
  {
    hide InUse;
  }

  // Inode i has grown, what was mapped or owned still is, and the blocks before the bitmap are as they were.
  ghost predicate Growth(sb: Super, disk: Image, tab: Table, own: Owners, disk': Image, tab': Table, own': Owners,
                         i: nat)
  {
    && Grown(disk, tab, own, disk', tab', i) && (forall b | b in own :: b in own' && own'[b] == own[b])
    && sb.bmapstart <= |disk| == |disk'| && forall x | 0 <= x < sb.bmapstart :: disk'[x] == disk[x]
  }

  // balloc and the store in ip->addrs[k] together.
  lemma AddrStep(sb: Super, disk: Image, icache: map<nat, Dinode>, tab: Table, own: Owners,
                 disk': Image, icache': map<nat, Dinode>, tab': Table, i: nat, k: nat, b: uint)
    requires StOk(sb, disk, icache, tab, own) && SuperOk(sb) && |disk| == sb.size && Allocated(sb, disk, b, disk')
    requires i in icache && i < |tab| && k <= NDIRECT && tab[i].addrs[k] == 0
    requires tab' == SetAddr(tab, i, k, b) && icache' == icache[i := tab'[i]]
    ensures b !in own && StOk(sb, disk', icache', tab', own[b := (i, k)])
    ensures Growth(sb, disk, tab, own, disk', tab', own[b := (i, k)], i) && OnePtr(tab, disk, tab', disk', i, k, b)
  {
    hide Ptr;
    hide Wf;
    hide InUse;
    hide Current;
    hide NoHoles;
    hide Grown;
    hide Allocated;
    hide OnePtr;
    AllocFrame(sb, disk, b, disk');
    AllocGrows(sb, disk, tab, own, i, b, disk');
    AddrLinked(sb, disk', tab, own, i, k, b, tab');
    OnePtrAfter(tab, disk, disk', tab', disk', i, k, b);
    GrownTrans(disk, tab, own, disk', tab, own, disk', tab', i);
    GrownOk(sb, disk, icache, tab, own, disk', icache', tab', own[b := (i, k)], i);
  }

  // balloc and the store in the indirect block together.
  lemma EntryStep(sb: Super, disk: Image, icache: map<nat, Dinode>, tab: Table, own: Owners,
                  disk1: Image, disk': Image, i: nat, j: nat, b: uint, ind: uint)
    requires StOk(sb, disk, icache, tab, own) && SuperOk(sb) && |disk| == sb.size && Allocated(sb, disk, b, disk1)
    requires i in icache && i < |tab| && tab[i] == icache[i] && j < NINDIRECT && ind == tab[i].addrs[NDIRECT] != 0
    requires ind < |disk| && WordAt(disk[ind], j) == 0 && disk' == disk1[ind := PutWord(disk1[ind], j, b)]
    ensures b !in own && disk1[ind] == disk[ind]
    ensures StOk(sb, disk', icache, tab, own[b := (i, NDIRECT + 1 + j)])
    ensures Growth(sb, disk, tab, own, disk', tab, own[b := (i, NDIRECT + 1 + j)], i)
    ensures OnePtr(tab, disk, tab, disk', i, NDIRECT + 1 + j, b) && Ptr(tab[i], disk', NDIRECT + 1 + j) == b
  {
    hide Ptr;
    hide Wf;
    hide InUse;
    hide Current;
    hide NoHoles;
    hide WordAt;
    hide PutWord;
    hide Grown;
    hide Allocated;
    hide OnePtr;
    IndirectOwned(sb, disk, tab, own, i);
    AllocFrame(sb, disk, b, disk1);
    AllocGrows(sb, disk, tab, own, i, b, disk1);
    EntryLinked(sb, disk1, tab, own, i, j, b, ind, disk');
    OnePtrAfter(tab, disk, disk1, tab, disk', i, NDIRECT + 1 + j, b);
    OnePtrAt(tab, disk, tab, disk', i, NDIRECT + 1 + j, b);
    GrownTrans(disk, tab, own, disk1, tab, own, disk', tab, i);
    assert icache == icache[i := tab[i]];
    GrownOk(sb, disk, icache, tab, own, disk', icache, tab, own[b := (i, NDIRECT + 1 + j)], i);
  }

  lemma IndirectOwned(sb: Super, disk: Image, tab: Table, own: Owners, i: nat)
    requires Wf(sb, disk, tab, own, {}) && i < |tab| && tab[i].addrs[NDIRECT] != 0
    ensures tab[i].addrs[NDIRECT] in own && own[tab[i].addrs[NDIRECT]] == (i, NDIRECT)
    ensures sb.datastart <= tab[i].addrs[NDIRECT] < sb.size && InUse(sb, disk, tab[i].addrs[NDIRECT])
  {
    hide WordAt;
    assert MarkOk(sb, disk, own, {}, tab[i].addrs[NDIRECT]);
    assert SlotOk(disk, tab, own, i, NDIRECT);
    assert OwnedOk(sb, disk, tab, own, tab[i].addrs[NDIRECT]);
  }

  lemma GrowthTrans(sb: Super, disk: Image, tab: Table, own: Owners, disk1: Image, tab1: Table, own1: Owners,
                    disk2: Image, tab2: Table, own2: Owners, i: nat)
    requires Growth(sb, disk, tab, own, disk1, tab1, own1, i) && Growth(sb, disk1, tab1, own1, disk2, tab2, own2, i)
    ensures Growth(sb, disk, tab, own, disk2, tab2, own2, i)
  {
    hide Grown;
    GrownTrans(disk, tab, own, disk1, tab1, own1, disk2, tab2, i);
  }

  lemma Logs(b: nat, ind: nat)
    ensures {ind} + (One(true, b) + One(true, ind)) == One(true, b) + One(true, ind)
  {
  }

  lemma GrownSelf(disk: Image, tab: Table, own: Owners, i: nat)
    requires i < |tab|
    ensures Grown(disk, tab, own, disk, tab, i)
  {
    hide Ptr;
    assert tab == tab[i := tab[i].(addrs := tab[i].addrs)];
    forall j: nat, k: nat ensures KeepPtr(disk, tab, disk, tab, j, k) {
    }
  }

  lemma DataOwned(sb: Super, disk: Image, tab: Table, own: Owners, i: nat, bn: nat)
    requires Wf(sb, disk, tab, own, {}) && i < |tab| && bn < MAXFILE && Addr(tab[i], disk, bn) != 0
    ensures sb.datastart <= Addr(tab[i], disk, bn) < sb.size
    ensures Addr(tab[i], disk, bn) in own && own[Addr(tab[i], disk, bn)] == (i, SlotOf(bn))
  {
    hide Ptr;
    assert SlotOk(disk, tab, own, i, SlotOf(bn));
    assert OwnedOk(sb, disk, tab, own, Addr(tab[i], disk, bn));
  }

  lemma FreeIsData(sb: Super, disk: Image, tab: Table, own: Owners, b: nat)
    requires Wf(sb, disk, tab, own, {}) && b < sb.size && !InUse(sb, disk, b)
    ensures sb.datastart <= b
  {
    assert MarkOk(sb, disk, own, {}, b);
  }

  // With every block before b in use, b is the first that a data block can have.
  lemma FirstFree(sb: Super, disk: Image, tab: Table, own: Owners, b: nat)
    requires Wf(sb, disk, tab, own, {}) && b < sb.size && !InUse(sb, disk, b)
    requires forall c | 0 <= c < b :: InUse(sb, disk, c)
    ensures b !in own && forall c | sb.datastart <= c < b :: c in own
  {
    hide InUse;
    hide Ptr;
    assert MarkOk(sb, disk, own, {}, b);
    forall c | sb.datastart <= c < b ensures c in own {
      assert MarkOk(sb, disk, own, {}, c);
    }
  }

  lemma NoEntries(d: Dinode, disk: Image, j: nat)
    requires j < NINDIRECT
    ensures d.addrs[NDIRECT] == 0 ==> Ptr(d, disk, NDIRECT + 1 + j) == 0
  {
  }

  lemma ZeroEntry(d: Dinode, disk: Image, j: nat, ind: uint)
    requires j < NINDIRECT && ind == d.addrs[NDIRECT] < |disk| && disk[ind] == ZERO_BLOCK
    ensures Ptr(d, disk, NDIRECT + 1 + j) == 0
  {
    hide WordAt;
    ZeroWords(j);
  }

  // A data block of inode i has been written.
  lemma PatchOk(sb: Super, disk: Image, icache: map<nat, Dinode>, tab: Table, own: Owners, i: nat, bn: nat, data: Block,
                disk': Image)
    requires StOk(sb, disk, icache, tab, own) && i < |tab| && bn < MAXFILE && 0 < Addr(tab[i], disk, bn) < |disk|
    requires disk' == disk[Addr(tab[i], disk, bn) := data]
    ensures StOk(sb, disk', icache, tab, own) && SamePtrs(tab, disk, tab, disk')
    ensures forall x | 0 <= x < sb.bmapstart :: disk'[x] == disk[x]
  {
    hide Wf;
    hide Decode;
    hide Ptr;
    hide NoHoles;
    var b := Addr(tab[i], disk, bn);
    DataOwned(sb, disk, tab, own, i, bn);
    PatchKeeps(sb, disk, tab, own, {}, b, data);
    forall j: nat ensures CurrentOk(sb, disk', icache, tab, j) {
      assert CurrentOk(sb, disk, icache, tab, j);
      assert j < sb.ninodes ==> InodeBlock(sb, j) < sb.bmapstart;
    }
    forall j | 0 <= j < |tab| ensures NoHoles(tab[j], disk') {
      SameNoHoles(disk, tab, disk', j);
    }
  }

  // iupdate: the inode goes to its place in the inode block, and stays the current one.
  lemma UpdateOk(sb: Super, disk: Image, icache: map<nat, Dinode>, tab: Table, own: Owners, i: nat, disk': Image)
    requires StOk(sb, disk, icache, tab, own) && i in icache && i < |tab| && tab[i] == icache[i]
    requires InodeBlock(sb, i) < |disk|
    requires disk' == disk[InodeBlock(sb, i) := Encode(disk[InodeBlock(sb, i)], i % IPB, icache[i])]
    ensures InodeBlock(sb, i) < sb.bmapstart && StOk(sb, disk', icache, tab, own) && SamePtrs(tab, disk, tab, disk')
    ensures OnDisk(sb, disk', i) == icache[i]
    ensures forall j | 0 <= j < sb.ninodes && j != i :: OnDisk(sb, disk', j) == OnDisk(sb, disk, j)
  {
    hide Wf;
    hide Decode;
    hide Encode;
    hide Ptr;
    hide NoHoles;
    var x := InodeBlock(sb, i);
    assert x < sb.bmapstart;
    InodeRoundTrip(disk[x], i % IPB, icache[i]);
    forall j | 0 <= j < sb.ninodes && j != i ensures OnDisk(sb, disk', j) == OnDisk(sb, disk, j) {
      assert InodeBlock(sb, j) == x ==> j % IPB != i % IPB;
    }
    forall b | b in own ensures sb.datastart <= b {
      OwnedRange(sb, disk, tab, own, {}, b);
    }
    PtrFrame(sb, disk, tab, own, {}, disk');
    WfFrame(sb, disk, tab, own, {}, disk', tab);
    forall j: nat ensures CurrentOk(sb, disk', icache, tab, j) {
      assert CurrentOk(sb, disk, icache, tab, j);
    }
    forall j | 0 <= j < |tab| ensures NoHoles(tab[j], disk') {
      SameNoHoles(disk, tab, disk', j);
    }
  }

  // ip->size = size
  lemma ResizeOk(sb: Super, disk: Image, icache: map<nat, Dinode>, tab: Table, own: Owners, i: nat, size: uint,
                 icache': map<nat, Dinode>, tab': Table)
    requires StOk(sb, disk, icache, tab, own) && i in icache && i < |tab| && tab[i] == icache[i]
    requires tab' == tab[i := tab[i].(size := size)] && icache' == icache[i := tab'[i]] && NoHoles(tab'[i], disk)
    ensures StOk(sb, disk, icache', tab', own)
  {
    hide Wf;
    hide NoHoles;
    hide WordAt;
    CurrentFrame(sb, disk, icache, tab, disk, icache', tab', i);
    WfFrame(sb, disk, tab, own, {}, disk, tab');
  }

  lemma UpdatedContents(sb: Super, disk: Image, icache: map<nat, Dinode>, tab: Table, own: Owners, disk': Image)
    requires StOk(sb, disk, icache, tab, own) && SamePtrs(tab, disk, tab, disk') && |disk'| == |disk|
    requires forall x | sb.bmapstart <= x < |disk| :: disk'[x] == disk[x]
    ensures forall j | 0 <= j < |tab| :: Content(tab[j], disk') == Content(tab[j], disk)
  {
    hide Wf;
    hide Content;
    hide NoHoles;
    hide SamePtrs;
    forall j | 0 <= j < |tab| ensures Content(tab[j], disk') == Content(tab[j], disk) {
      ContentFrame(sb, disk, tab, own, disk', j);
    }
  }

  // itrunc is done: inode i has no blocks and no contents.
  lemma TruncOk(sb: Super, disk: Image, icache: map<nat, Dinode>, tab: Table, own: Owners, disk': Image,
                icache': map<nat, Dinode>, tab': Table, own': Owners, i: nat)
    requires StOk(sb, disk, icache, tab, own) && SuperOk(sb) && |disk| == sb.size && i in icache && i < |tab|
    requires |disk'| == |disk|
    requires tab' == tab[i := tab[i].(size := 0, addrs := NO_ADDRS)] && icache' == icache[i := tab'[i]]
    requires own' == Disown(own, i)
    requires forall b | 0 <= b < sb.size :: InUse(sb, disk', b) == (InUse(sb, disk, b) && !(b in own && own[b].0 == i))
    requires forall x | 0 <= x < |disk| && !(sb.bmapstart <= x < sb.datastart) :: disk'[x] == disk[x]
    ensures StOk(sb, disk', icache', tab', own')
    ensures forall j | 0 <= j < |tab| && j != i :: Content(tab'[j], disk') == Content(tab[j], disk)
  {
    hide Wf;
    hide InUse;
    hide Ptr;
    hide Content;
    forall k | 0 <= k < NSLOT ensures Ptr(tab'[i], disk', k) == 0 {
      NoPtrs(tab'[i], disk', k);
    }
    TruncKeeps(sb, disk, tab, own, disk', tab', i);
    CurrentFrame(sb, disk, icache, tab, disk', icache', tab', i);
    forall b | b in own ensures sb.datastart <= b {
      OwnedRange(sb, disk, tab, own, {}, b);
    }
    PtrFrame(sb, disk, tab, own, {}, disk');
    forall j | 0 <= j < |tab| ensures NoHoles(tab'[j], disk') {
      if j != i { SameNoHoles(disk, tab, disk', j); }
    }
    forall j | 0 <= j < |tab| && j != i ensures Content(tab'[j], disk') == Content(tab[j], disk) {
      ContentFrame(sb, disk, tab, own, disk', j);
    }
  }

  // Without holes, the block of a byte below the size is mapped.
  lemma MappedBelowSize(sb: Super, disk: Image, icache: map<nat, Dinode>, tab: Table, own: Owners, i: nat, p: nat)
    requires StOk(sb, disk, icache, tab, own) && i < |tab|
    ensures p < MAXFILE * BSIZE ==> p / BSIZE < MAXFILE
    ensures p < tab[i].size || (p == tab[i].size && p % BSIZE != 0) ==> p / BSIZE < MAXFILE
    ensures p < tab[i].size || (p == tab[i].size && p % BSIZE != 0) ==> Addr(tab[i], disk, p / BSIZE) != 0
  {
    hide Ptr;
    hide Wf;
    hide Current;
    assert NoHoles(tab[i], disk);
    assert p / BSIZE * BSIZE <= p;
  }

  lemma OkNoHoles(sb: Super, disk: Image, icache: map<nat, Dinode>, tab: Table, own: Owners)
    requires StOk(sb, disk, icache, tab, own)
    ensures forall j | 0 <= j < |tab| :: NoHoles(tab[j], disk) && tab[j].size <= MAXFILE * BSIZE
  {
    hide Wf;
    hide Current;
    hide Addr;
  }

  // A write of src at off of inode i, and of nothing else: the file has it spliced in, every other file and
  // every other inode on disk is as it was.
  ghost predicate Spliced(sb: Super, disk: Image, tab: Table, disk': Image, tab': Table, i: nat, off: nat,
                          src: seq<byte>)
  {
    && SuperOk(sb) && |disk| == |disk'| == sb.size && |tab| == |tab'| == sb.ninodes && i < |tab|
    && tab' == tab[i := tab[i].(size := tab'[i].size, addrs := tab'[i].addrs)]
    && off <= |Content(tab[i], disk)| && Content(tab'[i], disk') == Splice(Content(tab[i], disk), off, src)
    && (forall j | 0 <= j < |tab| && j != i :: Content(tab'[j], disk') == Content(tab[j], disk))
    && (forall j | 0 <= j < |tab| && j != i :: OnDisk(sb, disk', j) == OnDisk(sb, disk, j))
  }

  // The last step of a write: from disk1 to disk2 the size of the file has been raised to fit.
  ghost predicate Resized(sb: Super, disk: Image, tab: Table, disk1: Image, tab1: Table, disk2: Image, tab2: Table,
                          i: nat, off: nat, src: seq<byte>)
  {
    && SuperOk(sb) && |disk1| == |disk2| == sb.size && |tab| == |tab1| == |tab2| == sb.ninodes && i < |tab|
    && tab2 == tab1[i := tab1[i].(size := tab2[i].size)]
    && off <= |Content(tab[i], disk)| && Content(tab2[i], disk2) == Splice(Content(tab[i], disk), off, src)
    && (forall j | 0 <= j < |tab| && j != i :: Content(tab2[j], disk2) == Content(tab1[j], disk1))
    && (forall j | 0 <= j < |tab| && j != i :: OnDisk(sb, disk2, j) == OnDisk(sb, disk1, j))
  }

  lemma WrittenAndResized(sb: Super, disk: Image, tab: Table, disk1: Image, tab1: Table, disk2: Image, tab2: Table,
                          i: nat, off: nat, src: seq<byte>)
    requires Resized(sb, disk, tab, disk1, tab1, disk2, tab2, i, off, src) && |disk| == sb.size
    requires tab1 == tab[i := tab[i].(addrs := tab1[i].addrs)]
    requires forall j | 0 <= j < |tab| && j != i ::
               tab1[j] == tab[j] && Content(tab1[j], disk1) == Content(tab[j], disk)
    requires forall j | 0 <= j < |tab| :: OnDisk(sb, disk1, j) == OnDisk(sb, disk, j)
    ensures Spliced(sb, disk, tab, disk2, tab2, i, off, src)
  {
    hide Content;
    hide Decode;
    hide Splice;
  }

  lemma OthersKept(sb: Super, disk: Image, icache: map<nat, Dinode>, tab: Table, own: Owners, disk': Image, tab': Table,
                   i: nat, off: nat, src: seq<byte>)
    requires StOk(sb, disk, icache, tab, own) && Written(disk, tab, disk', tab', i, off, src) && |disk'| == |disk|
    requires |tab'| == |tab| && SuperOk(sb) && |disk| == sb.size && |tab| == sb.ninodes
    requires forall x | 0 <= x < sb.bmapstart :: disk'[x] == disk[x]
    ensures forall j | 0 <= j < |tab| && j != i :: tab'[j] == tab[j] && Content(tab'[j], disk') == Content(tab[j], disk)
    ensures forall j | 0 <= j < |tab| :: OnDisk(sb, disk', j) == OnDisk(sb, disk, j)
  {
    hide Wf;
    hide Current;
    hide Content;
    hide Written;
    hide Decode;
    hide NoHoles;
    forall j | 0 <= j < |tab| && j != i ensures tab'[j] == tab[j] && Content(tab'[j], disk') == Content(tab[j], disk) {
      OtherContent(disk, tab, disk', tab', i, off, src, j);
    }
    forall j | 0 <= j < |tab| ensures OnDisk(sb, disk', j) == OnDisk(sb, disk, j) {
      assert InodeBlock(sb, j) < sb.bmapstart;
    }
  }

  // A piece of one data block is a piece of the contents.
  lemma ChunkOfContent(d: Dinode, disk: Image, p: nat, m: nat)
    requires d.size <= MAXFILE * BSIZE && p + m <= d.size && p % BSIZE + m <= BSIZE && m > 0
    requires p / BSIZE < MAXFILE && 0 < Addr(d, disk, p / BSIZE) < |disk|
    ensures disk[Addr(d, disk, p / BSIZE)][p % BSIZE..p % BSIZE + m] == Content(d, disk)[p..p + m]
  {
    hide Addr;
    hide ContentUpTo;
    var b := Addr(d, disk, p / BSIZE);
    var piece, part := disk[b][p % BSIZE..p % BSIZE + m], Content(d, disk)[p..p + m];
    forall k | 0 <= k < m ensures piece[k] == part[k] {
      assert (p + k) / BSIZE == p / BSIZE && (p + k) % BSIZE == p % BSIZE + k;
    }
  }

  lemma ReleasedNone(sb: Super, disk: Image, d: Dinode)
    requires SuperOk(sb) && |disk| == sb.size
    ensures Released(sb, disk, disk, SlotPtrs(d, disk, {}))
  {
    hide InUse;
    hide Ptr;
  }

  lemma ContentSize(d: Dinode, disk: Image)
    requires NoHoles(d, disk)
    ensures |Content(d, disk)| == d.size
  {
  }

  lemma EmptyContent(d: Dinode, disk: Image)
    requires d.size == 0
    ensures Content(d, disk) == []
  {
  }

  lemma Counted(sb: Super, disk: Image, icache: map<nat, Dinode>, tab: Table, own: Owners)
    requires StOk(sb, disk, icache, tab, own)
    ensures |disk| == sb.size && SuperOk(sb) && |FreeBlocks(sb, disk)| + |own.Keys| == sb.size - sb.datastart
  {
    FreeCount(sb, disk, tab, own);
  }

  lemma NoneFree(sb: Super, disk: Image)
    requires SuperOk(sb) && |disk| == sb.size && forall c | 0 <= c < sb.size :: InUse(sb, disk, c)
    ensures FreeBlocks(sb, disk) == {}
  {
  }

  lemma SamePtrsSelf(tab: Table, disk: Image)
    ensures SamePtrs(tab, disk, tab, disk)
  {
  }

  datatype IoResult = Done(count: nat) | Failed | Device | Panicked

  class Fs {
    const sb: Super
    var disk: Image
    var icache: map<nat, Dinode>   // the valid in-memory inodes
    ghost var tab: Table           // the current inodes
    ghost var own: Owners
    ghost var ledger: Ledger

    ghost predicate Valid()
      reads this
    {
      && SuperOk(sb) && |disk| == sb.size && |tab| == sb.ninodes && StOk(sb, disk, icache, tab, own)
      && (forall i | i in icache :: i < |tab| && tab[i] == icache[i])
      && Recorded(sb, disk, ledger)
    }

    // A file system as it is on disk, with no inode in memory.
    constructor (sb: Super, disk: Image, ghost tab: Table, ghost own: Owners)
      requires StOk(sb, disk, map[], tab, own)
      ensures Valid() && this.sb == sb && this.disk == disk && this.tab == tab && this.own == own && icache == map[]
    {
      this.sb, this.disk, icache := sb, disk, map[];
      this.tab, this.own, ledger := tab, own, Ledger({}, {}, disk);
      new;
      RecordStart(sb, disk);
    }

    // The transaction has logged `blocks`, and the bitmap blocks of the n blocks it has taken, which
    // were the first that were free.
    twostate predicate Spent(new blocks: set<nat>, new n: nat)
      reads this
    {
      Spends(sb, old(ledger), ledger, blocks, n) && Draws(sb, old(own.Keys), own.Keys, old(ledger), ledger, n)
    }

    // n blocks were needed, and there were not as many.
    twostate predicate RanOut(new n: nat)
      reads this
    {
      && Valid() && |own.Keys| < |old(own.Keys)| + n
      && forall c | 0 <= c < sb.size :: InUse(sb, disk, c)
    }

    // The scan of balloc: the first block whose bit is clear.
    method FindFree() returns (r: Option<uint>)
      requires SuperOk(sb) && |disk| == sb.size
      ensures r == None ==> forall c | 0 <= c < sb.size :: InUse(sb, disk, c)
      ensures r.Some? ==> r.value < sb.size && !InUse(sb, disk, r.value)
      ensures r.Some? ==> forall c | 0 <= c < r.value :: InUse(sb, disk, c)
    {
      hide Recorded;
      hide BitAt;
      var b := 0;
      while b < sb.size
        invariant b % BPB == 0
        invariant forall c | 0 <= c < b && c < sb.size :: InUse(sb, disk, c)
      {
        var bp := disk[BitmapBlock(sb, b)];
        var bi := 0;
        while bi < BPB && b + bi < sb.size
          invariant 0 <= bi <= BPB
          invariant forall c | 0 <= c < b + bi && c < sb.size :: InUse(sb, disk, c)
        {
          BitPosition(sb, b, bi);
          if !BitAt(bp, bi) { return Some(b + bi); }
          bi := bi + 1;
        }
        b := b + BPB;
      }
      return None;
    }

    // Allocate a zeroed block, the first free one; None is the panic.
    method Balloc() returns (r: Option<uint>)
      requires Valid()
      modifies this`disk, this`ledger
      ensures r == None ==> disk == old(disk) && ledger == old(ledger)
      ensures r == None ==> forall c | 0 <= c < sb.size :: InUse(sb, disk, c)
      ensures Recorded(sb, disk, ledger)
      ensures r.Some? ==> Allocated(sb, old(disk), r.value, disk)
      ensures r.Some? ==> forall c | 0 <= c < r.value :: InUse(sb, old(disk), c)
      ensures r.Some? ==> Spends(sb, old(ledger), ledger, {r.value}, 1)
      ensures r.Some? ==> ledger.bitmaps == old(ledger).bitmaps + {BitmapBlock(sb, r.value)}
    {
      hide InUse;
      hide PutBit;
      hide BitmapBlock;
      hide Recorded;
      r := FindFree();
      if r == None { return; }
      var b := r.value;
      BitmapRange(sb, b);
      RecordedBitmaps(sb, disk, ledger);
      FreeIsData(sb, disk, tab, own, b);
      disk := disk[BitmapBlock(sb, b) := PutBit(disk[BitmapBlock(sb, b)], b % BPB, true)];
      AllocBits(sb, old(disk), b, disk);
      ghost var marked := ledger.(logged := ledger.logged + {BitmapBlock(sb, b)},
                                  bitmaps := ledger.bitmaps + {BitmapBlock(sb, b)});
      RecordOne(sb, old(disk), ledger, BitmapBlock(sb, b), disk[BitmapBlock(sb, b)], marked);
      ghost var disk1 := disk;
      disk := disk[b := ZERO_BLOCK];
      ledger := marked.(logged := marked.logged + {b});
      RecordOne(sb, disk1, marked, b, ZERO_BLOCK, ledger);
    }

    // Free a block; false is the panic "freeing free block".
    method Bfree(b: uint) returns (ok: bool)
      requires SuperOk(sb) && |disk| == sb.size && b < sb.size && Recorded(sb, disk, ledger)
      modifies this`disk, this`ledger
      ensures Recorded(sb, disk, ledger) && ledger.clean == old(ledger.clean)
      ensures ok == InUse(sb, old(disk), b)
      ensures if ok then Freed(sb, old(disk), b, disk) else disk == old(disk)
    {
      hide BitAt;
      hide PutBit;
      hide Recorded;
      if !BitAt(disk[BitmapBlock(sb, b)], b % BPB) { return false; }
      disk := disk[BitmapBlock(sb, b) := PutBit(disk[BitmapBlock(sb, b)], b % BPB, false)];
      FreeBits(sb, old(disk), b, disk);
      ledger := ledger.(logged := ledger.logged + {BitmapBlock(sb, b)},
                        bitmaps := ledger.bitmaps + {BitmapBlock(sb, b)});
      RecordOne(sb, old(disk), old(ledger), BitmapBlock(sb, b), disk[BitmapBlock(sb, b)], ledger);
      return true;
    }

    // Inode i has not moved; what was mapped in any file still is.
    twostate predicate Grew(new i: nat)
      reads this
    {
      && Valid() && icache.Keys == old(icache.Keys) && i < |old(tab)|
      && Growth(sb, old(disk), old(tab), old(own), disk, tab, own, i)
    }

    // ip->addrs[k] = balloc(ip->dev)
    method AllocAddr(i: nat, k: nat) returns (r: Option<uint>)
      requires Valid() && i in icache && k <= NDIRECT && icache[i].addrs[k] == 0
      modifies this
      ensures r.Some? ==> Grew(i) && tab == SetAddr(old(tab), i, k, r.value)
      ensures r.Some? ==> r.value != 0 && r.value < |disk| && disk[r.value] == ZERO_BLOCK
      ensures r.Some? ==> icache == old(icache)[i := tab[i]]
      ensures r.Some? ==> own == old(own)[r.value := (i, k)] && r.value !in old(own)
      ensures r.Some? ==> Spent({r.value}, 1) && OnePtr(old(tab), old(disk), tab, disk, i, k, r.value)
      ensures r == None ==> RanOut(1)
    {
      hide OnePtr;
      hide Draws;
      hide Spends;
      hide Recorded;
      hide Wf;
      hide InUse;
      hide NoHoles;
      hide Current;
      hide Growth;
      hide Allocated;
      CachedIsCurrent(sb, disk, icache, tab, i);
      r := Balloc();
      if r == None { return; }
      AllocFrame(sb, old(disk), r.value, disk);
      icache := icache[i := icache[i].(addrs := icache[i].addrs[k := r.value])];
      tab := SetAddr(tab, i, k, r.value);
      AddrStep(sb, old(disk), old(icache), old(tab), own, disk, icache, tab, i, k, r.value);
      FirstFree(sb, old(disk), old(tab), own, r.value);
      DrawsOne(sb, own.Keys, r.value, old(ledger), ledger);
      own := own[r.value := (i, k)];
      assert own.Keys == old(own.Keys) + {r.value};
    }

    // a[j] = balloc(ip->dev) in the indirect block of inode i
    method AllocEntry(i: nat, j: nat, ind: uint) returns (r: Option<uint>)
      requires Valid() && i in icache && j < NINDIRECT && ind == icache[i].addrs[NDIRECT] != 0 && ind < |disk|
      requires WordAt(disk[ind], j) == 0
      modifies this
      ensures r.Some? ==> Grew(i) && tab == old(tab) && icache == old(icache)
      ensures r.Some? ==> r.value != 0 && r.value < |disk| && disk[r.value] == ZERO_BLOCK
      ensures r.Some? ==> Ptr(tab[i], disk, NDIRECT + 1 + j) == r.value
      ensures r.Some? ==> own == old(own)[r.value := (i, NDIRECT + 1 + j)] && r.value !in old(own)
      ensures r.Some? ==> Spent({r.value, ind}, 1)
      ensures r.Some? ==> OnePtr(old(tab), old(disk), tab, disk, i, NDIRECT + 1 + j, r.value)
      ensures r == None ==> RanOut(1)
    {
      hide OnePtr;
      hide Draws;
      hide Spends;
      hide Recorded;
      hide Wf;
      hide InUse;
      hide NoHoles;
      hide Current;
      hide Growth;
      hide Allocated;
      hide WordAt;
      hide PutWord;
      hide Ptr;
      CachedIsCurrent(sb, disk, icache, tab, i);
      IndirectOwned(sb, disk, tab, own, i);
      var bp := disk[ind];
      r := Balloc();
      if r == None { return; }
      AllocFrame(sb, old(disk), r.value, disk);
      ghost var disk1 := disk;
      disk := disk[ind := PutWord(bp, j, r.value)];
      ghost var ledger1 := ledger;
      ledger := ledger.(logged := ledger.logged + {ind});
      RecordOne(sb, disk1, ledger1, ind, disk[ind], ledger);
      SpendsAlso(sb, old(ledger), ledger1, ledger, r.value, ind, 1);
      EntryStep(sb, old(disk), icache, tab, own, disk1, disk, i, j, r.value, ind);
      FirstFree(sb, old(disk), tab, own, r.value);
      DrawsOne(sb, own.Keys, r.value, old(ledger), ledger);
      own := own[r.value := (i, NDIRECT + 1 + j)];
      assert own.Keys == old(own.Keys) + {r.value};
    }

    // bmap for a direct block; None is a panic.
    method BmapDirect(i: nat, bn: nat) returns (r: Option<uint>)
      requires Valid() && i in icache && bn < NDIRECT
      modifies this
      ensures r.Some? ==> Grew(i) && r.value == tab[i].addrs[bn] && 0 < r.value < |disk|
      ensures r.Some? ==> tab == old(tab)[i := tab[i]] && icache == old(icache)[i := tab[i]]
      ensures old(tab[i]).addrs[bn] != 0 ==> r.Some? && disk == old(disk) && tab == old(tab)
      ensures r.Some? && old(tab[i]).addrs[bn] == 0 ==> disk[r.value] == ZERO_BLOCK
      ensures r.Some? ==> MappedOne(old(tab[i]), old(disk), tab[i], disk, bn)
      ensures r.Some? ==> var gap := old(tab[i]).addrs[bn] == 0; Spent(One(gap, r.value), if gap then 1 else 0)
      ensures r == None ==> RanOut(1)
    {
      hide OnePtr;
      hide Draws;
      hide Spends;
      hide MappedOne;
      hide InUse;
      hide Recorded;
      hide Wf;
      hide NoHoles;
      hide Current;
      hide Grown;
      hide WordAt;
      if icache[i].addrs[bn] != 0 {
        GrownSelf(disk, tab, own, i);
        DataOwned(sb, disk, tab, own, i, bn);
        MappedSame(tab[i], disk, bn);
        DrawsNone(sb, own.Keys, ledger, ledger);
        SpendsNone(sb, disk, ledger);
        return Some(icache[i].addrs[bn]);
      }
      r := AllocAddr(i, bn);
      if r.Some? { DirectMapped(old(tab), old(disk), tab, disk, i, bn, r.value); }
    }

    // bmap for entry j of an indirect block that is there; None is a panic.
    method BmapEntry(i: nat, j: nat) returns (r: Option<uint>)
      requires Valid() && i in icache && j < NINDIRECT && icache[i].addrs[NDIRECT] != 0
      modifies this
      ensures r.Some? ==> Grew(i) && r.value == Ptr(tab[i], disk, NDIRECT + 1 + j) && 0 < r.value < |disk|
      ensures r.Some? ==> tab == old(tab) && icache == old(icache)
      ensures Ptr(old(tab[i]), old(disk), NDIRECT + 1 + j) != 0 ==> r.Some? && disk == old(disk)
      ensures r.Some? && Ptr(old(tab[i]), old(disk), NDIRECT + 1 + j) == 0 ==> disk[r.value] == ZERO_BLOCK
      ensures r.Some? ==> MappedOne(old(tab[i]), old(disk), tab[i], disk, NDIRECT + j)
      ensures r.Some? ==> var gap := Ptr(old(tab[i]), old(disk), NDIRECT + 1 + j) == 0;
                          Spent(One(gap, r.value) + One(gap, tab[i].addrs[NDIRECT]), if gap then 1 else 0)
      ensures r == None ==> RanOut(1)
    {
      hide OnePtr;
      hide Draws;
      hide Spends;
      hide MappedOne;
      hide InUse;
      hide Recorded;
      hide Wf;
      hide NoHoles;
      hide Current;
      hide Grown;
      hide WordAt;
      var ind := icache[i].addrs[NDIRECT];
      IndirectOwned(sb, disk, tab, own, i);
      var addr := WordAt(disk[ind], j);
      if addr != 0 {
        GrownSelf(disk, tab, own, i);
        DataOwned(sb, disk, tab, own, i, NDIRECT + j);
        MappedSame(tab[i], disk, NDIRECT + j);
        assert One(false, addr) + One(false, ind) == {};
        DrawsNone(sb, own.Keys, ledger, ledger);
        SpendsNone(sb, disk, ledger);
        return Some(addr);
      }
      r := AllocEntry(i, j, ind);
      if r.Some? {
        EntryMapped(old(tab), old(disk), tab, disk, i, NDIRECT + j, r.value);
        assert {r.value} + {ind} == {r.value, ind};
      }
    }

    // bmap for the first block that needs an indirect block; None is a panic.
    method BmapFirst(i: nat, j: nat) returns (r: Option<uint>)
      requires Valid() && i in icache && j < NINDIRECT && icache[i].addrs[NDIRECT] == 0
      modifies this
      ensures r.Some? ==> Grew(i) && r.value == Ptr(tab[i], disk, NDIRECT + 1 + j) && 0 < r.value < |disk|
      ensures r.Some? ==> disk[r.value] == ZERO_BLOCK
      ensures r.Some? ==> tab == old(tab)[i := tab[i]] && icache == old(icache)[i := tab[i]]
      ensures r.Some? ==> MappedOne(old(tab[i]), old(disk), tab[i], disk, NDIRECT + j)
      ensures r.Some? ==> Spent(One(true, r.value) + One(true, tab[i].addrs[NDIRECT]), 2)
      ensures r == None ==> RanOut(2)
    {
      hide Ptr;
      hide StOk;
      hide OnePtr;
      hide Draws;
      hide Spends;
      hide MappedOne;
      hide InUse;
      hide Recorded;
      hide Growth;
      hide One;
      ghost var tab0, disk0 := tab, disk;
      r := AllocAddr(i, NDIRECT);
      if r == None { return; }
      ZeroEntry(tab[i], disk, j, r.value);
      ghost var ind: nat, disk1, tab1, own1, ledger1 := r.value, disk, tab, own, ledger;
      DrawsCount(sb, old(own.Keys), own.Keys, old(ledger), ledger, 1);
      r := BmapEntry(i, j);
      if r == None { return; }
      ghost var b: nat := r.value;
      assert tab == tab1 && tab[i].addrs[NDIRECT] == ind;
      IndirectMapped(tab0, disk0, tab1, disk1, tab[i], disk, i, ind, NDIRECT + j);
      SpendsTrans(sb, old(ledger), ledger1, ledger, {ind}, 1, One(true, b) + One(true, ind), 1);
      DrawsTrans(sb, old(own.Keys), own1.Keys, own.Keys, old(ledger), ledger1, ledger, 1, 1);
      Logs(b, ind);
      GrowthTrans(sb, disk0, tab0, old(own), disk1, tab1, own1, disk, tab, own, i);
    }

    // bmap for an indirect block; None is a panic.
    method BmapIndirect(i: nat, j: nat) returns (r: Option<uint>)
      requires Valid() && i in icache && j < NINDIRECT
      modifies this
      ensures r.Some? ==> Grew(i) && r.value == Ptr(tab[i], disk, NDIRECT + 1 + j) && 0 < r.value < |disk|
      ensures r.Some? ==> tab == old(tab)[i := tab[i]] && icache == old(icache)[i := tab[i]]
      ensures Ptr(old(tab[i]), old(disk), NDIRECT + 1 + j) != 0 ==> r.Some? && disk == old(disk) && tab == old(tab)
      ensures r.Some? && Ptr(old(tab[i]), old(disk), NDIRECT + 1 + j) == 0 ==> disk[r.value] == ZERO_BLOCK
      ensures r.Some? ==> MappedOne(old(tab[i]), old(disk), tab[i], disk, NDIRECT + j)
      ensures r.Some? ==> var gap := Ptr(old(tab[i]), old(disk), NDIRECT + 1 + j) == 0;
                          Spent(One(gap, r.value) + One(gap, tab[i].addrs[NDIRECT]),
                                NewBlocks(old(tab[i]), old(disk), NDIRECT + j))
      ensures r == None ==> RanOut(NewBlocks(old(tab[i]), old(disk), NDIRECT + j))
    {
      hide Ptr;
      hide StOk;
      hide OnePtr;
      hide Draws;
      hide Spends;
      hide MappedOne;
      hide InUse;
      hide Recorded;
      hide Growth;
      NoEntries(tab[i], disk, j);
      if icache[i].addrs[NDIRECT] == 0 {
        r := BmapFirst(i, j);
      } else {
        r := BmapEntry(i, j);
      }
    }

    // The disk block of block bn of inode i, allocated if there is none; None is a panic.
    method Bmap(i: nat, bn: nat) returns (r: Option<uint>)
      requires Valid() && i in icache
      modifies this
      ensures bn >= MAXFILE ==> r == None
      ensures r.Some? ==> Grew(i) && r.value == Addr(tab[i], disk, bn) && 0 < r.value < |disk|
      ensures r.Some? ==> tab == old(tab)[i := tab[i]] && icache == old(icache)[i := tab[i]]
      // A block that is there is found without any change, and a new one is zero.
      ensures bn < MAXFILE && Addr(old(tab[i]), old(disk), bn) != 0 ==> r.Some? && disk == old(disk) && tab == old(tab)
      ensures r.Some? && Addr(old(tab[i]), old(disk), bn) == 0 ==> disk[r.value] == ZERO_BLOCK
      ensures r.Some? ==> MappedOne(old(tab[i]), old(disk), tab[i], disk, bn)
      // What is new is logged, and the indirect block if it has changed.
      ensures r.Some? ==> var gap := Addr(old(tab[i]), old(disk), bn) == 0;
                          Spent(One(gap, r.value) + One(gap && bn >= NDIRECT, tab[i].addrs[NDIRECT]),
                                NewBlocks(old(tab[i]), old(disk), bn))
      // The panic is for want of blocks: fewer were free than it takes.
      ensures r == None && bn < MAXFILE ==> RanOut(NewBlocks(old(tab[i]), old(disk), bn))
    {
      hide OnePtr;
      hide Draws;
      hide Spends;
      hide MappedOne;
      hide InUse;
      hide Recorded;
      hide Wf;
      hide NoHoles;
      hide Current;
      hide Growth;
      hide WordAt;
      if bn < NDIRECT {
        r := BmapDirect(i, bn);
        return;
      }
      if bn - NDIRECT < NINDIRECT {
        r := BmapIndirect(i, bn - NDIRECT);
        return;
      }
      return None;
    }

    // The cached copy of inode i is what is on disk.
    ghost predicate Synced(i: nat)
      reads this
    {
      Valid() && i in icache && OnDisk(sb, disk, i) == icache[i]
    }

    // Lock the inode and read it from disk if necessary; false is the panic on a free inode.
    method Ilock(i: nat) returns (ok: bool)
      requires Valid() && i < sb.ninodes && (i in icache ==> Synced(i))
      modifies this`icache
      ensures ok == (i in old(icache) || old(tab[i]).typ != 0)
      ensures ok ==> Synced(i) && icache == old(icache)[i := tab[i]]
    {
      hide Recorded;
      hide Wf;
      hide Decode;
      hide NoHoles;
      assert CurrentOk(sb, disk, icache, tab, i);
      if i !in icache {
        icache := icache[i := OnDisk(sb, disk, i)];
        forall j: nat ensures CurrentOk(sb, disk, icache, tab, j) {
          assert CurrentOk(sb, disk, old(icache), tab, j);
        }
        if icache[i].typ == 0 { return false; }
      }
      return true;
    }

    // begin_op: the operation has not logged anything yet.
    method BeginOp()
      requires Valid()
      modifies this`ledger
      ensures Valid() && ledger == Ledger({}, {}, disk)
    {
      ledger := Ledger({}, {}, disk);
      RecordStart(sb, disk);
    }

    // Copy the in-memory inode to disk.
    method Iupdate(i: nat)
      requires Valid() && i in icache
      modifies this`disk, this`ledger
      ensures Synced(i) && SamePtrs(tab, old(disk), tab, disk)
      ensures forall j | 0 <= j < sb.ninodes && j != i :: OnDisk(sb, disk, j) == OnDisk(sb, old(disk), j)
      ensures forall x | sb.bmapstart <= x < |disk| :: disk[x] == old(disk)[x]
      ensures Spent({InodeBlock(sb, i)}, 0) && ledger.bitmaps == old(ledger).bitmaps
    {
      hide Recorded;
      hide Wf;
      hide Encode;
      hide Decode;
      hide NoHoles;
      hide Ptr;
      hide Current;
      assert InodeBlock(sb, i) < sb.bmapstart;
      RecordedBitmaps(sb, disk, ledger);
      disk := disk[InodeBlock(sb, i) := Encode(disk[InodeBlock(sb, i)], i % IPB, icache[i])];
      UpdateOk(sb, old(disk), icache, tab, own, i, disk);
      ledger := ledger.(logged := ledger.logged + {InodeBlock(sb, i)});
      RecordOne(sb, old(disk), old(ledger), InodeBlock(sb, i), disk[InodeBlock(sb, i)], ledger);
    }

    // One round of the loop in writei: part of one block.
    method WriteChunk(i: nat, off: nat, src: seq<byte>) returns (ok: bool, ghost b: nat)
      requires Valid() && i in icache && off / BSIZE < MAXFILE && off % BSIZE + |src| <= BSIZE
      modifies this
      ensures ok ==> Valid() && icache == old(icache)[i := tab[i]]
      ensures ok ==> Written(old(disk), old(tab), disk, tab, i, off, src)
      ensures ok ==> tab == old(tab)[i := old(tab[i]).(addrs := tab[i].addrs)]
      ensures ok ==> forall x | 0 <= x < sb.bmapstart :: disk[x] == old(disk)[x]
      ensures ok && Addr(old(tab[i]), old(disk), off / BSIZE) != 0 ==> tab == old(tab)
      ensures ok ==> MappedOne(old(tab[i]), old(disk), tab[i], disk, off / BSIZE)
      ensures ok ==> b == Addr(tab[i], disk, off / BSIZE)
      ensures ok ==>
                Spent({b} + One(off / BSIZE >= NDIRECT && Addr(old(tab[i]), old(disk), off / BSIZE) == 0,
                                tab[i].addrs[NDIRECT]),
                           NewBlocks(old(tab[i]), old(disk), off / BSIZE))
      ensures !ok ==> RanOut(NewBlocks(old(tab[i]), old(disk), off / BSIZE))
    {
      hide Spends;
      hide One;
      hide NewBlocks;
      hide Recorded;
      hide Wf;
      hide NoHoles;
      hide Current;
      hide KeepPtr;
      hide Ptr;
      hide Written;
      hide Patch;
      hide MappedOne;
      hide Draws;
      hide InUse;
      b := 0;
      var r := Bmap(i, off / BSIZE);
      if r == None { return false, 0; }
      ghost var disk1 := disk;
      var bp := Patch(disk[r.value], off % BSIZE, src);
      disk := disk[r.value := bp];
      ghost var ledger1 := ledger;
      DataOwned(sb, disk1, tab, own, i, off / BSIZE);
      ledger := ledger.(logged := ledger.logged + {r.value});
      RecordOne(sb, disk1, ledger1, r.value, bp, ledger);
      ChunkSpends(sb, old(ledger), ledger1, ledger, Addr(old(tab[i]), old(disk), off / BSIZE) == 0, r.value,
                  off / BSIZE >= NDIRECT, tab[i].addrs[NDIRECT], NewBlocks(old(tab[i]), old(disk), off / BSIZE));
      SameBitmaps(sb, old(own.Keys), own.Keys, old(ledger), ledger1, ledger,
                  NewBlocks(old(tab[i]), old(disk), off / BSIZE));
      PatchOk(sb, disk1, icache, tab, own, i, off / BSIZE, bp, disk);
      MappedThen(tab, old(tab[i]), old(disk), disk1, disk, i, off / BSIZE);
      ChunkWritten(sb, old(disk), old(tab), old(own), disk1, tab, own, i, off, src, r.value, disk);
      PatchByte(sb, disk1, tab, own, {}, i, off / BSIZE, bp, i, off);
      return true, r.value;
    }

    ghost function Begins(): Begun
      reads this
    {
      Begun(disk, tab, own.Keys, ledger)
    }

    // The state of writei's loop: `tot` bytes of src are in place.
    ghost predicate Writing(at: Begun, i: nat, off: nat, src: seq<byte>, tot: nat, acc: Acc)
      reads this
    {
      && Valid() && i in icache && tot <= |src| && |at.tab| == |tab| && |at.disk| == |disk|
      && tab == at.tab[i := at.tab[i].(addrs := tab[i].addrs)]
      && off <= tab[i].size && off + |src| <= MAXFILE * BSIZE
      && Written(at.disk, at.tab, disk, tab, i, off, src[..tot])
      && (forall x | 0 <= x < sb.bmapstart :: disk[x] == at.disk[x])
      // Only a write that ends behind the old end of the file has allocated anything.
      && (tab == at.tab || off + tot > tab[i].size)
      && Booked(sb, at, tab[i], disk, own.Keys, ledger, i, off, tot, |src|, acc)
    }

    // The disk is full, and the write started in `at` needs more blocks than there were.
    ghost predicate Overrun(at: Begun, i: nat, off: nat, n: nat)
      reads this
    {
      && Valid() && i < |at.tab| && LastBlock(off, n) <= MAXFILE && FreeBlocks(sb, disk) == {}
      && |own.Keys| < |at.taken| + Need(at.tab[i], at.disk, off / BSIZE, LastBlock(off, n))
    }

    // One round of the loop; false is a panic.
    method WriteRound(i: nat, off: nat, src: seq<byte>, tot: nat, ghost at: Begun, ghost acc: Acc)
      returns (ok: bool, m: nat, ghost acc': Acc)
      requires tot < |src| && Writing(at, i, off, src, tot, acc)
      modifies this
      ensures 0 < m <= |src| - tot
      ensures ok ==> Writing(at, i, off, src, tot + m, acc') && icache == old(icache)[i := tab[i]]
      ensures !ok ==> Overrun(at, i, off, |src|)
    {
      hide Recorded;
      hide StOk;
      hide Written;
      hide Spends;
      hide Addr;
      hide Draws;
      hide InUse;
      hide FreeBlocks;
      hide MappedOne;
      hide Booked;
      hide Need;
      hide NewBlocks;
      hide LastBlock;
      hide NextAcc;
      hide One;
      m := Chunk(off + tot, |src| - tot);
      ghost var disk1, d1, tab1, ledger1, taken1 := disk, tab[i], tab, ledger, own.Keys;
      BookedShort(sb, at, d1, disk1, taken1, ledger1, i, off, tot, |src|, acc);
      MappedBelowSize(sb, disk, icache, tab, own, i, off + tot);
      ghost var b;
      acc' := acc;
      ok, b := WriteChunk(i, off + tot, src[tot..tot + m]);
      if !ok {
        NoneFree(sb, disk);
        return;
      }
      WrittenMore(at.disk, at.tab, disk1, tab1, disk, tab, i, off, src[..tot], src[tot..tot + m]);
      assert src[..tot] + src[tot..tot + m] == src[..tot + m];
      BookedNext(sb, at, d1, disk1, taken1, ledger1, i, off, tot, |src|, acc, tab[i], disk, own.Keys, ledger, b);
      acc' := NextAcc(acc, d1, disk1, (off + tot) / BSIZE, b);
    }

    // The end of writei: raise the size and write the inode back if the file has grown.
    method FinishWrite(i: nat, off: nat, src: seq<byte>, ghost at: Begun, ghost acc: Acc)
      requires Writing(at, i, off, src, |src|, acc) && NoHoles(at.tab[i], at.disk)
      requires OnDisk(sb, at.disk, i) == at.tab[i]
      modifies this
      ensures Synced(i) && icache == old(icache)[i := tab[i]] && tab == old(tab)[i := tab[i]]
      ensures Resized(sb, at.disk, at.tab, old(disk), old(tab), disk, tab, i, off, src)
      ensures Paid(sb, at, tab[i], disk, own.Keys, ledger, i, off, |src|)
    {
      hide Recorded;
      hide StOk;
      hide Written;
      hide Spends;
      hide Draws;
      hide SamePtrs;
      hide Addr;
      hide Booked;
      hide Paid;
      hide NoHoles;
      hide Content;
      hide Decode;
      assert src[..|src|] == src;
      ContentSize(at.tab[i], at.disk);
      var size := if off + |src| > icache[i].size then off + |src| else icache[i].size;
      WrittenContent(at.disk, at.tab, disk, tab, i, off, src, tab[i].(size := size));
      if |src| > 0 && off + |src| > icache[i].size {
        icache := icache[i := icache[i].(size := off + |src|)];
        tab := tab[i := icache[i]];
        ResizeOk(sb, disk, old(icache), old(tab), own, i, size, icache, tab);
        Iupdate(i);
        UpdatedContents(sb, old(disk), icache, tab, own, disk);
      } else {
        SamePtrsSelf(tab, disk);
      }
      BookedDone(sb, at, old(tab[i]), old(disk), own.Keys, old(ledger), i, off, |src|, acc, tab, disk, ledger);
    }

    // The loop of writei; false is a panic.
    method WriteAll(i: nat, off: nat, src: seq<byte>) returns (ok: bool, ghost acc: Acc)
      requires Valid() && i in icache && off <= tab[i].size && off + |src| <= MAXFILE * BSIZE
      modifies this
      ensures ok ==> Writing(old(Begins()), i, off, src, |src|, acc) && icache == old(icache)[i := tab[i]]
      ensures !ok ==> Overrun(old(Begins()), i, off, |src|)
    {
      hide Recorded;
      hide StOk;
      hide Written;
      hide Booked;
      hide Overrun;
      acc := Acc(0, 0, 0, {}, false);
      RecordedBitmaps(sb, disk, ledger);
      BookedStart(sb, Begins(), i, off, |src|);
      WrittenNothing(disk, tab, i, off);
      assert src[..0] == [];
      var tot := 0;
      while tot < |src|
        invariant Writing(old(Begins()), i, off, src, tot, acc)
        invariant icache == old(icache)[i := tab[i]]
      {
        var m;
        ok, m, acc := WriteRound(i, off, src, tot, old(Begins()), acc);
        if !ok { return; }
        tot := tot + m;
      }
      ok := true;
    }

    // writei once its tests are passed; false is a panic.
    method WriteInRange(i: nat, src: seq<byte>, off: nat) returns (ok: bool)
      requires Synced(i) && off <= tab[i].size && off + |src| <= MAXFILE * BSIZE
      modifies this
      ensures LastBlock(off, |src|) <= MAXFILE
      ensures ok <==> |FreeBlocks(sb, old(disk))| >= Need(old(tab[i]), old(disk), off / BSIZE, LastBlock(off, |src|))
      ensures !ok ==> Valid() && FreeBlocks(sb, disk) == {}
      ensures ok ==> Synced(i) && icache == old(icache)[i := tab[i]]
      ensures ok ==> Spliced(sb, old(disk), old(tab), disk, tab, i, off, src)
      ensures ok ==> Paid(sb, old(Begins()), tab[i], disk, own.Keys, ledger, i, off, |src|)
    {
      hide Spliced;
      hide Resized;
      hide Recorded;
      hide StOk;
      hide Written;
      hide NoHoles;
      hide Content;
      hide Decode;
      hide Booked;
      hide Paid;
      hide InUse;
      hide FreeBlocks;
      hide Need;
      hide LastBlock;
      LastBlockIn(off, |src|, MAXFILE);
      OkNoHoles(sb, disk, icache, tab, own);
      Counted(sb, disk, icache, tab, own);
      ghost var acc;
      ok, acc := WriteAll(i, off, src);
      if !ok {
        Counted(sb, disk, icache, tab, own);
        return;
      }
      assert src[..|src|] == src;
      ghost var disk1, tab1 := disk, tab;
      OthersKept(sb, old(disk), old(icache), old(tab), old(own), disk, tab, i, off, src);
      FinishWrite(i, off, src, old(Begins()), acc);
      WrittenAndResized(sb, old(disk), old(tab), disk1, tab1, disk, tab, i, off, src);
      PaidCount(sb, old(Begins()), tab[i], disk, own.Keys, ledger, i, off, |src|);
      Counted(sb, disk, icache, tab, own);
    }

    // Write src at off.  A failed write changes nothing; a write that is done puts src in place,
    // leaves every other file alone, and leaves the inode on disk as it is in memory.
    method Writei(i: nat, src: seq<byte>, off: uint) returns (r: IoResult)
      requires Synced(i) && |src| < UINT_LIMIT
      modifies this
      ensures r == Device <==> old(tab[i]).typ == T_DEV
      ensures r == Failed <==> old(tab[i]).typ != T_DEV && (off > old(tab[i]).size || off + |src| > MAXFILE * BSIZE)
      ensures r == Device || r == Failed ==> Synced(i) && disk == old(disk) && icache == old(icache) && tab == old(tab)
      ensures r == Device || r == Failed ==> own == old(own) && ledger == old(ledger)
      ensures r.Done? ==> r.count == |src| && Synced(i) && icache == old(icache)[i := tab[i]]
      ensures r.Done? ==> Spliced(sb, old(disk), old(tab), disk, tab, i, off, src)
      // It panics exactly if the write is in range and needs more blocks than are free.
      ensures off + |src| <= MAXFILE * BSIZE ==> LastBlock(off, |src|) <= MAXFILE
      ensures r == Panicked <==>
                (old(tab[i]).typ != T_DEV && off <= old(tab[i]).size && off + |src| <= MAXFILE * BSIZE &&
                                  |FreeBlocks(sb, old(disk))| <
                                    Need(old(tab[i]), old(disk), off / BSIZE, LastBlock(off, |src|)))
      ensures r == Panicked ==> Valid() && FreeBlocks(sb, disk) == {}
      ensures r.Done? ==> Paid(sb, old(Begins()), tab[i], disk, own.Keys, ledger, i, off, |src|)
    {
      hide Spliced;
      hide Recorded;
      hide StOk;
      hide Content;
      hide Decode;
      hide UAdd;
      hide Paid;
      hide FreeBlocks;
      hide Need;
      hide LastBlock;
      if off + |src| <= MAXFILE * BSIZE { LastBlockIn(off, |src|, MAXFILE); }
      if icache[i].typ == T_DEV { return Device; }
      UAddWraps(off, |src|);
      if off > icache[i].size || UAdd(off, |src|) < off { return Failed; }
      if UAdd(off, |src|) > MAXFILE * BSIZE { return Failed; }
      var ok := WriteInRange(i, src, off);
      r := if ok then Done(|src|) else Panicked;
    }

    // One round of the loop in readi: part of one block.
    method ReadChunk(i: nat, p: nat, m: nat) returns (dst: seq<byte>)
      requires Valid() && i in icache && m > 0 && p + m <= tab[i].size && p % BSIZE + m <= BSIZE
      modifies this
      ensures Valid() && disk == old(disk) && icache == old(icache) && tab == old(tab)
      ensures p + m <= |Content(tab[i], disk)| && dst == Content(tab[i], disk)[p..p + m]
    {
      hide Recorded;
      hide StOk;
      hide Addr;
      hide Spends;
      hide NoHoles;
      hide Grown;
      hide Content;
      OkNoHoles(sb, disk, icache, tab, own);
      MappedBelowSize(sb, disk, icache, tab, own, i, p);
      var b := Bmap(i, p / BSIZE);
      assert icache == old(icache);
      ChunkOfContent(tab[i], disk, p, m);
      dst := disk[b.value][p % BSIZE..p % BSIZE + m];
    }

    // The loop of readi.
    method ReadAll(i: nat, off: nat, count: nat) returns (dst: seq<byte>)
      requires Valid() && i in icache && off + count <= tab[i].size
      modifies this
      ensures Valid() && disk == old(disk) && icache == old(icache) && tab == old(tab)
      ensures off + count <= |Content(tab[i], disk)| && dst == Content(tab[i], disk)[off..off + count]
    {
      hide Recorded;
      hide StOk;
      hide NoHoles;
      hide Content;
      OkNoHoles(sb, disk, icache, tab, own);
      ghost var s := Content(tab[i], disk);
      dst := [];
      var tot := 0;
      while tot < count
        invariant tot <= count && Valid() && disk == old(disk) && icache == old(icache) && tab == old(tab)
        invariant dst == s[off..off + tot]
      {
        var m := Chunk(off + tot, count - tot);
        var piece := ReadChunk(i, off + tot, m);
        SliceJoins(s, off, off + tot, off + tot + m);
        dst := dst + piece;
        tot := tot + m;
      }
    }

    // Read up to n bytes at off: exactly the bytes of the file that are there, without
    // allocating anything.
    method Readi(i: nat, off: uint, n: uint) returns (r: IoResult, dst: seq<byte>)
      requires Valid() && i in icache
      modifies this
      ensures Valid() && disk == old(disk) && icache == old(icache) && tab == old(tab) && !r.Panicked?
      ensures r == Device <==> tab[i].typ == T_DEV
      ensures r == Failed <==> tab[i].typ != T_DEV && (off > tab[i].size || off + n >= UINT_LIMIT)
      ensures r.Done? ==> r.count == if off + n > tab[i].size then tab[i].size - off else n
      ensures r.Done? ==> off + r.count <= |Content(tab[i], disk)| && dst == Content(tab[i], disk)[off..off + r.count]
    {
      hide Recorded;
      hide StOk;
      hide NoHoles;
      hide Content;
      hide UAdd;
      dst := [];
      if icache[i].typ == T_DEV { return Device, []; }
      UAddWraps(off, n);
      if off > icache[i].size || UAdd(off, n) < off { return Failed, []; }
      var count := if off + n > icache[i].size then icache[i].size - off else n;
      dst := ReadAll(i, off, count);
      r := Done(count);
    }

    // bfree of the block in slot k of inode i, if there is one; it never panics.
    method Release(b: uint, ghost was: Image, ghost i: nat, ghost ks: set<nat>, ghost k: nat) returns (ok: bool)
      requires SuperOk(sb) && |disk| == |was| == sb.size && Wf(sb, was, tab, own, {}) && i < |tab|
      requires k < NSLOT && k !in ks && b == Ptr(tab[i], was, k) && Released(sb, was, disk, SlotPtrs(tab[i], was, ks))
      requires Recorded(sb, disk, ledger)
      modifies this`disk, this`ledger
      ensures Recorded(sb, disk, ledger) && ledger.clean == old(ledger.clean)
      ensures ok && |disk| == sb.size && Released(sb, was, disk, SlotPtrs(tab[i], was, ks + {k}))
    {
      hide Recorded;
      hide Wf;
      hide InUse;
      hide Ptr;
      hide SlotPtrs;
      hide Released;
      NextSlot(sb, was, tab, own, i, ks, k, disk);
      ok := true;
      if b != 0 {
        ghost var disk1 := disk;
        ok := Bfree(b);
        FreeNext(sb, was, disk1, SlotPtrs(tab[i], was, ks), b, disk);
      }
    }

    // The first loop of itrunc: the direct blocks.
    method TruncDirect(i: nat) returns (ok: bool, ghost ks: set<nat>)
      requires Valid() && i in icache
      modifies this`disk, this`ledger, this`icache
      ensures Recorded(sb, disk, ledger) && ledger.clean == old(ledger.clean)
      ensures ok && |disk| == sb.size && ks == UpTo(NDIRECT)
      ensures Released(sb, old(disk), disk, SlotPtrs(tab[i], old(disk), ks))
      ensures i in icache && icache == old(icache)[i := tab[i].(addrs := icache[i].addrs)]
      ensures icache[i].addrs[NDIRECT] == tab[i].addrs[NDIRECT]
      ensures forall m | 0 <= m < NDIRECT :: icache[i].addrs[m] == 0
    {
      hide Recorded;
      hide Wf;
      hide InUse;
      hide SlotPtrs;
      hide NoHoles;
      hide Current;
      hide WordAt;
      ks := {};
      ReleasedNone(sb, disk, tab[i]);
      ok := true;
      var k := 0;
      while k < NDIRECT
        invariant ok && 0 <= k <= NDIRECT && |disk| == sb.size && ks == UpTo(k)
        invariant Recorded(sb, disk, ledger) && ledger.clean == old(ledger.clean)
        invariant Released(sb, old(disk), disk, SlotPtrs(tab[i], old(disk), ks))
        invariant i in icache && icache == old(icache)[i := tab[i].(addrs := icache[i].addrs)]
        invariant forall m | 0 <= m < k :: icache[i].addrs[m] == 0
        invariant forall m | k <= m <= NDIRECT :: icache[i].addrs[m] == tab[i].addrs[m]
      {
        hide Released;
        ok := Release(icache[i].addrs[k], old(disk), i, ks, k);
        icache := icache[i := icache[i].(addrs := icache[i].addrs[k := 0])];
        ks := ks + {k};
        k := k + 1;
      }
    }

    // The second loop of itrunc: the blocks of indirect block ind, then ind itself.
    method TruncIndirect(i: nat, ind: uint, ghost was: Image) returns (ok: bool, ghost ks: set<nat>)
      requires SuperOk(sb) && |disk| == |was| == sb.size && Wf(sb, was, tab, own, {}) && i < |tab|
      requires ind == tab[i].addrs[NDIRECT] != 0 && ind < |disk| && disk[ind] == was[ind]
      requires Released(sb, was, disk, SlotPtrs(tab[i], was, UpTo(NDIRECT))) && Recorded(sb, disk, ledger)
      modifies this`disk, this`ledger
      ensures Recorded(sb, disk, ledger) && ledger.clean == old(ledger.clean)
      ensures ok && |disk| == sb.size && (forall k: nat | k < NSLOT :: k in ks)
      ensures Released(sb, was, disk, SlotPtrs(tab[i], was, ks))
    {
      hide Recorded;
      hide Wf;
      hide InUse;
      hide SlotPtrs;
      hide WordAt;
      hide Released;
      ks := UpTo(NDIRECT);
      ok := true;
      var bp := disk[ind];
      var j := 0;
      while j < NINDIRECT
        invariant ok && 0 <= j <= NINDIRECT && |disk| == sb.size
        invariant Recorded(sb, disk, ledger) && ledger.clean == old(ledger.clean)
        invariant forall k: nat :: k in ks <==> k < NDIRECT || NDIRECT < k < NDIRECT + 1 + j
        invariant Released(sb, was, disk, SlotPtrs(tab[i], was, ks))
      {
        ok := Release(WordAt(bp, j), was, i, ks, NDIRECT + 1 + j);
        ks := ks + {NDIRECT + 1 + j};
        j := j + 1;
      }
      ok := Release(ind, was, i, ks, NDIRECT);
      ks := ks + {NDIRECT};
    }

    // The two loops of itrunc.
    method TruncBlocks(i: nat) returns (ok: bool)
      requires Valid() && i in icache
      modifies this`disk, this`ledger, this`icache
      ensures Recorded(sb, disk, ledger) && ledger.clean == old(ledger.clean)
      ensures ok && |disk| == sb.size && i in icache && icache == old(icache)[i := tab[i].(addrs := NO_ADDRS)]
      ensures forall b | 0 <= b < sb.size ::
                InUse(sb, disk, b) == (InUse(sb, old(disk), b) && !(b in own && own[b].0 == i))
      ensures forall x | 0 <= x < |disk| && !(sb.bmapstart <= x < sb.datastart) :: disk[x] == old(disk)[x]
    {
      hide Recorded;
      hide InUse;
      hide SlotPtrs;
      hide NoHoles;
      hide Current;
      hide WordAt;
      hide Wf;
      ghost var ks;
      ok, ks := TruncDirect(i);
      if icache[i].addrs[NDIRECT] != 0 {
        IndirectOwned(sb, old(disk), tab, own, i);
        ok, ks := TruncIndirect(i, icache[i].addrs[NDIRECT], old(disk));
        icache := icache[i := icache[i].(addrs := icache[i].addrs[NDIRECT := 0])];
      }
      AllFreed(sb, old(disk), tab, own, i, ks, disk);
      assert icache[i].addrs == NO_ADDRS;
    }

    // Discard the contents of an inode: exactly its blocks become free, and nothing panics.
    method Itrunc(i: nat) returns (ok: bool)
      requires Valid() && i in icache
      modifies this
      ensures ok && Synced(i) && icache == old(icache)[i := tab[i]] && ledger.clean == old(ledger.clean)
      ensures tab == old(tab)[i := old(tab[i]).(size := 0, addrs := NO_ADDRS)] && own == Disown(old(own), i)
      ensures forall b | 0 <= b < sb.size ::
                InUse(sb, disk, b) == (InUse(sb, old(disk), b) && !(b in old(own) && old(own)[b].0 == i))
      ensures Content(tab[i], disk) == []
      ensures forall j | 0 <= j < |tab| && j != i :: Content(tab[j], disk) == Content(tab[j], old(disk))
    {
      hide Recorded;
      hide InUse;
      hide StOk;
      hide Decode;
      hide Ptr;
      hide Content;
      ok := TruncBlocks(i);
      icache := icache[i := icache[i].(size := 0)];
      tab := tab[i := icache[i]];
      own := Disown(own, i);
      TruncOk(sb, old(disk), old(icache), old(tab), old(own), disk, icache, tab, own, i);
      ghost var disk1 := disk;
      Iupdate(i);
      UpdatedContents(sb, disk1, icache, tab, own, disk);
      SameBitmap(sb, disk1, disk);
      EmptyContent(tab[i], disk);
    }
  }
}
