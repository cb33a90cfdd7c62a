/** The bytes of a file, as its block map and the data blocks determine them. */
module FsContent {
  import opened Bytes
  import opened FsLayout
  import opened FsMap

  function SlotOf(bn: nat): nat { if bn < NDIRECT then bn else bn + 1 }

  function Addr(d: Dinode, disk: Image, bn: nat): uint
    requires bn < MAXFILE
  {
    Ptr(d, disk, SlotOf(bn))
  }

  function ByteOf(d: Dinode, disk: Image, p: nat): byte
    requires p < MAXFILE * BSIZE
  {
    var b := Addr(d, disk, p / BSIZE);
    if b == 0 || b >= |disk| then 0 else disk[b][p % BSIZE]
  }

  // Every block below the size of the file is mapped.
  ghost predicate NoHoles(d: Dinode, disk: Image)
  {
    d.size <= MAXFILE * BSIZE && forall bn | 0 <= bn < MAXFILE && bn * BSIZE < d.size :: Addr(d, disk, bn) != 0
  }

  function Content(d: Dinode, disk: Image): (r: seq<byte>)
    ensures d.size <= MAXFILE * BSIZE ==> |r| == d.size && forall p | 0 <= p < d.size :: r[p] == ByteOf(d, disk, p)
  {
    if d.size <= MAXFILE * BSIZE then ContentUpTo(d, disk, d.size) else []
  }

  function ContentUpTo(d: Dinode, disk: Image, n: nat): (r: seq<byte>)
    requires n <= MAXFILE * BSIZE
    ensures |r| == n && forall p | 0 <= p < n :: r[p] == ByteOf(d, disk, p)
  {
    if n == 0 then [] else ContentUpTo(d, disk, n - 1) + [ByteOf(d, disk, n - 1)]
  }

  // A write of src at off <= |s|.
  function Splice(s: seq<byte>, off: nat, src: seq<byte>): seq<byte>
    requires off <= |s|
  {
    s[..off] + src + (if off + |src| < |s| then s[off + |src|..] else [])
  }

  ghost predicate KeepPtr(disk: Image, tab: Table, disk': Image, tab': Table, j: nat, k: nat)
  {
    j < |tab| && |tab'| == |tab| && k < NSLOT && Ptr(tab[j], disk, k) != 0 ==>
      Ptr(tab'[j], disk', k) == Ptr(tab[j], disk, k)
  }

  // Blocks may have been added to inode i, but nothing that was mapped has moved or changed.
  ghost predicate Grown(disk: Image, tab: Table, own: Owners, disk': Image, tab': Table, i: nat)
  {
    && |tab'| == |tab| && |disk'| == |disk| && i < |tab|
    && tab' == tab[i := tab[i].(addrs := tab'[i].addrs)]
    && (forall j: nat, k: nat {:trigger KeepPtr(disk, tab, disk', tab', j, k)} :: KeepPtr(disk, tab, disk', tab', j, k))
    && (forall b | b in own && b < |disk| && own[b].1 != NDIRECT :: disk'[b] == disk[b])
  }

  lemma GrownByOne(disk: Image, tab: Table, own: Owners, disk': Image, tab': Table, i: nat, k: nat, b: nat)
    requires OnePtr(tab, disk, tab', disk', i, k, b) && Ptr(tab[i], disk, k) == 0
    requires |disk'| == |disk| && tab' == tab[i := tab[i].(addrs := tab'[i].addrs)]
    requires forall c | c in own && c < |disk| && own[c].1 != NDIRECT :: disk'[c] == disk[c]
    ensures Grown(disk, tab, own, disk', tab', i)
  {
    hide Ptr;
    forall j: nat, m: nat ensures KeepPtr(disk, tab, disk', tab', j, m) {
    }
  }

  lemma GrownTrans(disk: Image, tab: Table, own: Owners, disk1: Image, tab1: Table, own1: Owners, disk2: Image,
                   tab2: Table, i: nat)
    requires Grown(disk, tab, own, disk1, tab1, i) && Grown(disk1, tab1, own1, disk2, tab2, i)
    requires forall b | b in own :: b in own1 && own1[b] == own[b]
    ensures Grown(disk, tab, own, disk2, tab2, i)
  {
    hide Ptr;
    forall j: nat, k: nat ensures KeepPtr(disk, tab, disk2, tab2, j, k) {
      assert KeepPtr(disk, tab, disk1, tab1, j, k) && KeepPtr(disk1, tab1, disk2, tab2, j, k);
    }
  }

  // A mapped byte reads the same after growth.
  lemma GrownByte(sb: Super, disk: Image, tab: Table, own: Owners, extra: set<nat>, disk': Image, tab': Table, i: nat,
                  j: nat, p: nat)
    requires Wf(sb, disk, tab, own, extra) && Grown(disk, tab, own, disk', tab', i)
    requires j < |tab| && p < MAXFILE * BSIZE && Addr(tab[j], disk, p / BSIZE) != 0
    ensures Addr(tab'[j], disk', p / BSIZE) == Addr(tab[j], disk, p / BSIZE)
    ensures ByteOf(tab'[j], disk', p) == ByteOf(tab[j], disk, p)
  {
    hide Ptr;
    var k := SlotOf(p / BSIZE);
    assert KeepPtr(disk, tab, disk', tab', j, k) && SlotOk(disk, tab, own, j, k);
  }

  lemma GrownNoHoles(disk: Image, tab: Table, own: Owners, disk': Image, tab': Table, i: nat, j: nat)
    requires Grown(disk, tab, own, disk', tab', i) && j < |tab| && NoHoles(tab[j], disk)
    ensures NoHoles(tab'[j], disk')
  {
    hide Ptr;
    forall bn | 0 <= bn < MAXFILE && bn * BSIZE < tab[j].size ensures Addr(tab'[j], disk', bn) != 0 {
      assert KeepPtr(disk, tab, disk', tab', j, SlotOf(bn));
      assert Addr(tab[j], disk, bn) != 0;
    }
  }

  lemma SameNoHoles(disk: Image, tab: Table, disk': Image, j: nat)
    requires SamePtrs(tab, disk, tab, disk') && j < |tab| && NoHoles(tab[j], disk)
    ensures NoHoles(tab[j], disk')
  {
    hide Ptr;
    forall bn | 0 <= bn < MAXFILE && bn * BSIZE < tab[j].size ensures Addr(tab[j], disk', bn) != 0 {
      assert Addr(tab[j], disk, bn) != 0;
    }
  }

  // A write to block bn of inode i is seen in that block only.
  lemma PatchByte(sb: Super, disk: Image, tab: Table, own: Owners, extra: set<nat>, i: nat, bn: nat, data: Block,
                  j: nat, p: nat)
    requires Wf(sb, disk, tab, own, extra) && i < |tab| && bn < MAXFILE && Addr(tab[i], disk, bn) != 0
    requires j < |tab| && p < MAXFILE * BSIZE
    ensures var b := Addr(tab[i], disk, bn);
            && b in own && own[b].1 != NDIRECT && sb.datastart <= b < |disk|
            && Addr(tab[j], disk[b := data], p / BSIZE) == Addr(tab[j], disk, p / BSIZE)
            && ByteOf(tab[j], disk[b := data], p) ==
              if j == i && p / BSIZE == bn then data[p % BSIZE] else ByteOf(tab[j], disk, p)
  {
    hide Ptr;
    var b := Addr(tab[i], disk, bn);
    assert SlotOk(disk, tab, own, i, SlotOf(bn)) && SlotOk(disk, tab, own, j, SlotOf(p / BSIZE));
    assert OwnedOk(sb, disk, tab, own, b);
    PatchKeeps(sb, disk, tab, own, extra, b, data);
  }

  // memmove(bp->data + o, src, |src|)
  function Patch(b: Block, o: nat, src: seq<byte>): Block
    requires o + |src| <= BSIZE
  {
    b[..o] + src + b[o + |src|..]
  }

  // Byte p of inode j, if it is mapped, is where it was and reads as it did.
  ghost predicate ByteKept(disk: Image, tab: Table, disk': Image, tab': Table, j: nat, p: nat)
  {
    j < |tab| && |tab'| == |tab| && p < MAXFILE * BSIZE && Addr(tab[j], disk, p / BSIZE) != 0 ==>
      Addr(tab'[j], disk', p / BSIZE) != 0 && ByteOf(tab'[j], disk', p) == ByteOf(tab[j], disk, p)
  }

  // bmap for block bn of inode i, then a change of that block at the bytes of `src` only.
  lemma ChunkKeeps(sb: Super, disk: Image, tab: Table, own: Owners, disk1: Image, tab1: Table, own1: Owners,
                   i: nat, off: nat, src: seq<byte>, b: nat, disk2: Image, j: nat, p: nat)
    requires Wf(sb, disk, tab, own, {}) && Wf(sb, disk1, tab1, own1, {}) && Grown(disk, tab, own, disk1, tab1, i)
    requires i < |tab1| && off / BSIZE < MAXFILE && off % BSIZE + |src| <= BSIZE
    requires b == Addr(tab1[i], disk1, off / BSIZE) != 0 && b < |disk1|
    requires disk2 == disk1[b := Patch(disk1[b], off % BSIZE, src)]
    ensures !(j == i && off <= p < off + |src|) ==> ByteKept(disk, tab, disk2, tab1, j, p)
    ensures j == i && off <= p < off + |src| ==>
              p < MAXFILE * BSIZE && Addr(tab1[i], disk2, p / BSIZE) != 0 && ByteOf(tab1[i], disk2, p) == src[p - off]
  {
    hide Wf;
    hide Ptr;
    hide Grown;
    if j < |tab| && p < MAXFILE * BSIZE && Addr(tab[j], disk, p / BSIZE) != 0 {
      GrownByte(sb, disk, tab, own, {}, disk1, tab1, i, j, p);
    }
    if j < |tab1| && p < MAXFILE * BSIZE {
      PatchByte(sb, disk1, tab1, own1, {}, i, off / BSIZE, Patch(disk1[b], off % BSIZE, src), j, p);
      ChunkBytes(disk1[b], off, src, p);
    }
    if off <= p < off + |src| {
      assert p / BSIZE == off / BSIZE;
    }
  }

  lemma ChunkBytes(b: Block, off: nat, src: seq<byte>, p: nat)
    requires off % BSIZE + |src| <= BSIZE
    ensures off <= p < off + |src| ==> p / BSIZE == off / BSIZE && Patch(b, off % BSIZE, src)[p % BSIZE] == src[p - off]
    ensures p / BSIZE == off / BSIZE && !(off <= p < off + |src|) ==>
              Patch(b, off % BSIZE, src)[p % BSIZE] == b[p % BSIZE]
  {
  }

  // Byte p of inode i is mapped and is the byte of src that belongs there.
  ghost predicate ByteWritten(disk: Image, tab: Table, i: nat, lo: nat, src: seq<byte>, p: nat)
  {
    lo <= p < lo + |src| && i < |tab| ==>
      p < MAXFILE * BSIZE && Addr(tab[i], disk, p / BSIZE) != 0 && ByteOf(tab[i], disk, p) == src[p - lo]
  }

  // src has been written at lo in inode i, and no other byte of any file has changed.
  ghost predicate Written(disk: Image, tab: Table, disk': Image, tab': Table, i: nat, lo: nat, src: seq<byte>)
  {
    && i < |tab| && |tab'| == |tab| && tab' == tab[i := tab[i].(addrs := tab'[i].addrs)]
    && (forall j: nat, p: nat {:trigger ByteKept(disk, tab, disk', tab', j, p)} ::
         !(j == i && lo <= p < lo + |src|) ==> ByteKept(disk, tab, disk', tab', j, p))
    && (forall p: nat {:trigger ByteWritten(disk', tab', i, lo, src, p)} :: ByteWritten(disk', tab', i, lo, src, p))
  }

  lemma WrittenNothing(disk: Image, tab: Table, i: nat, lo: nat)
    requires i < |tab|
    ensures Written(disk, tab, disk, tab, i, lo, [])
  {
    hide Addr;
    hide ByteOf;
    assert tab == tab[i := tab[i].(addrs := tab[i].addrs)];
    forall j: nat, p: nat ensures ByteKept(disk, tab, disk, tab, j, p) {
    }
    forall p: nat ensures ByteWritten(disk, tab, i, lo, [], p) {
    }
  }

  lemma WrittenMore(disk: Image, tab: Table, disk1: Image, tab1: Table, disk2: Image, tab2: Table, i: nat, lo: nat,
                    src: seq<byte>, more: seq<byte>)
    requires Written(disk, tab, disk1, tab1, i, lo, src) && Written(disk1, tab1, disk2, tab2, i, lo + |src|, more)
    ensures Written(disk, tab, disk2, tab2, i, lo, src + more)
  {
    hide Addr;
    hide ByteOf;
    forall j: nat, p: nat | !(j == i && lo <= p < lo + |src + more|) ensures ByteKept(disk, tab, disk2, tab2, j, p) {
      assert ByteKept(disk, tab, disk1, tab1, j, p) && ByteKept(disk1, tab1, disk2, tab2, j, p);
    }
    forall p: nat ensures ByteWritten(disk2, tab2, i, lo, src + more, p) {
      assert ByteWritten(disk1, tab1, i, lo, src, p) && ByteWritten(disk2, tab2, i, lo + |src|, more, p);
      if lo <= p < lo + |src| {
        assert ByteKept(disk1, tab1, disk2, tab2, i, p);
      }
    }
  }

  lemma ChunkWritten(sb: Super, disk: Image, tab: Table, own: Owners, disk1: Image, tab1: Table, own1: Owners,
                     i: nat, off: nat, src: seq<byte>, b: nat, disk2: Image)
    requires Wf(sb, disk, tab, own, {}) && Wf(sb, disk1, tab1, own1, {}) && Grown(disk, tab, own, disk1, tab1, i)
    requires i < |tab1| && off / BSIZE < MAXFILE && off % BSIZE + |src| <= BSIZE
    requires b == Addr(tab1[i], disk1, off / BSIZE) != 0 && b < |disk1|
    requires disk2 == disk1[b := Patch(disk1[b], off % BSIZE, src)]
    ensures Written(disk, tab, disk2, tab1, i, off, src)
  {
    hide Wf;
    hide Addr;
    hide ByteOf;
    hide KeepPtr;
    hide ByteKept;
    forall j: nat, p: nat | !(j == i && off <= p < off + |src|) ensures ByteKept(disk, tab, disk2, tab1, j, p) {
      ChunkKeeps(sb, disk, tab, own, disk1, tab1, own1, i, off, src, b, disk2, j, p);
    }
    forall p: nat ensures ByteWritten(disk2, tab1, i, off, src, p) {
      ChunkKeeps(sb, disk, tab, own, disk1, tab1, own1, i, off, src, b, disk2, i, p);
    }
  }

  // What a complete write means for the contents, once the size has been raised.
  lemma WrittenContent(disk: Image, tab: Table, disk': Image, tab': Table, i: nat, lo: nat, src: seq<byte>, d: Dinode)
    requires i < |tab| == |tab'| && Written(disk, tab, disk', tab', i, lo, src) && NoHoles(tab[i], disk)
    requires lo <= tab[i].size
    requires d.size == (if lo + |src| > tab[i].size then lo + |src| else tab[i].size) && d.addrs == tab'[i].addrs
    requires lo + |src| <= MAXFILE * BSIZE
    ensures NoHoles(d, disk') && Content(d, disk') == Splice(Content(tab[i], disk), lo, src)
  {
    hide ContentUpTo;
    hide Written;
    var s, t := Content(tab[i], disk), Splice(Content(tab[i], disk), lo, src);
    forall p | 0 <= p < d.size ensures Addr(d, disk', p / BSIZE) != 0 && ByteOf(d, disk', p) == t[p] {
      WrittenByte(disk, tab, disk', tab', i, lo, src, p);
      SameAddrs(d, tab'[i], disk', p);
    }
    forall bn | 0 <= bn < MAXFILE && bn * BSIZE < d.size ensures Addr(d, disk', bn) != 0 {
      assert bn * BSIZE / BSIZE == bn;
      assert Addr(d, disk', bn * BSIZE / BSIZE) != 0;
    }
  }

  lemma SameAddrs(d: Dinode, e: Dinode, disk: Image, p: nat)
    requires d.addrs == e.addrs && p < MAXFILE * BSIZE
    ensures Addr(d, disk, p / BSIZE) == Addr(e, disk, p / BSIZE) && ByteOf(d, disk, p) == ByteOf(e, disk, p)
  {
  }

  lemma WrittenByte(disk: Image, tab: Table, disk': Image, tab': Table, i: nat, lo: nat, src: seq<byte>, p: nat)
    requires Written(disk, tab, disk', tab', i, lo, src) && NoHoles(tab[i], disk) && lo <= tab[i].size
    requires p < MAXFILE * BSIZE && (p < tab[i].size || lo <= p < lo + |src|)
    ensures Addr(tab'[i], disk', p / BSIZE) != 0
    ensures ByteOf(tab'[i], disk', p) == if lo <= p < lo + |src| then src[p - lo] else ByteOf(tab[i], disk, p)
  {
    hide Ptr;
    if lo <= p < lo + |src| {
      assert ByteWritten(disk', tab', i, lo, src, p);
    } else {
      assert p / BSIZE * BSIZE < tab[i].size;
      assert Addr(tab[i], disk, p / BSIZE) != 0;
      assert ByteKept(disk, tab, disk', tab', i, p);
    }
  }

  lemma OtherContent(disk: Image, tab: Table, disk': Image, tab': Table, i: nat, lo: nat, src: seq<byte>, j: nat)
    requires Written(disk, tab, disk', tab', i, lo, src) && j < |tab| && j != i && NoHoles(tab[j], disk)
    ensures tab'[j] == tab[j] && Content(tab'[j], disk') == Content(tab[j], disk)
  {
    hide ContentUpTo;
    hide Ptr;
    forall p | 0 <= p < tab[j].size ensures ByteOf(tab'[j], disk', p) == ByteOf(tab[j], disk, p) {
      assert p / BSIZE * BSIZE < tab[j].size;
      assert Addr(tab[j], disk, p / BSIZE) != 0;
      assert ByteKept(disk, tab, disk', tab', j, p);
    }
  }

  // Contents do not depend on what lies below the data blocks.
  lemma ContentFrame(sb: Super, disk: Image, tab: Table, own: Owners, disk': Image, j: nat)
    requires Wf(sb, disk, tab, own, {}) && SamePtrs(tab, disk, tab, disk') && |disk'| == |disk| && j < |tab|
    requires forall x | sb.datastart <= x < |disk| :: disk'[x] == disk[x]
    ensures Content(tab[j], disk') == Content(tab[j], disk)
  {
    hide ContentUpTo;
    hide Ptr;
    if tab[j].size > MAXFILE * BSIZE { return; }
    forall p | 0 <= p < tab[j].size ensures ByteOf(tab[j], disk', p) == ByteOf(tab[j], disk, p) {
      var k := SlotOf(p / BSIZE);
      assert SlotOk(disk, tab, own, j, k) && OwnedOk(sb, disk, tab, own, Ptr(tab[j], disk, k));
    }
  }
}
