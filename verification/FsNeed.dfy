/** Which blocks a write of file blocks lo up to hi touches, and how many of them are new. */
module FsNeed {
  import opened Bytes
  import opened FsLayout
  import opened FsMap
  import opened FsContent

  // What the rounds of writei have added up: the rounds, the new data blocks and new indirect
  // blocks, the data blocks logged, and whether the indirect block has changed.
  datatype Acc = Acc(rounds: nat, added: nat, w: nat, blocks: set<nat>, ind: bool)

  ghost function DataBlocks(d: Dinode, disk: Image, lo: nat, hi: nat): set<nat>
  {
    set bn: nat | lo <= bn < hi && bn < MAXFILE :: Addr(d, disk, bn) as nat
  }

  function NewData(d: Dinode, disk: Image, lo: nat, hi: nat): (r: nat)
    requires hi <= MAXFILE
    ensures r <= if lo < hi then hi - lo else 0
  {
    if hi <= lo then 0 else NewData(d, disk, lo, hi - 1) + if Addr(d, disk, hi - 1) == 0 then 1 else 0
  }

  function NewIndirect(d: Dinode, lo: nat, hi: nat): nat
  {
    if lo < hi && hi > NDIRECT && d.addrs[NDIRECT] == 0 then 1 else 0
  }

  // The blocks that have to be allocated.
  function Need(d: Dinode, disk: Image, lo: nat, hi: nat): nat
    requires hi <= MAXFILE
  {
    NewData(d, disk, lo, hi) + NewIndirect(d, lo, hi)
  }

  // An entry of the indirect block has to be set.
  predicate NewEntries(d: Dinode, disk: Image, lo: nat, hi: nat)
    requires hi <= MAXFILE
  {
    lo < hi && (NewEntries(d, disk, lo, hi - 1) || (hi - 1 >= NDIRECT && Addr(d, disk, hi - 1) == 0))
  }

  function BlockOfSlot(k: nat): nat { if k < NDIRECT then k else k - 1 }

  predicate InRange(k: nat, lo: nat, hi: nat)
  {
    lo < hi && if k == NDIRECT then hi > NDIRECT else lo <= BlockOfSlot(k) < hi
  }

  // The slots of the file that the range does not reach are as they were, and the others are set.
  ghost predicate Extended(d: Dinode, disk: Image, d': Dinode, disk': Image, lo: nat, hi: nat)
  {
    && (forall k | 0 <= k < NSLOT && !InRange(k, lo, hi) :: Ptr(d', disk', k) == Ptr(d, disk, k))
    && (forall k | 0 <= k < NSLOT && InRange(k, lo, hi) :: Ptr(d', disk', k) != 0)
  }

  ghost predicate Tally(d: Dinode, disk: Image, d': Dinode, disk': Image, lo: nat, hi: nat, acc: Acc)
    requires hi <= MAXFILE
  {
    && Extended(d, disk, d', disk', lo, hi)
    && acc.blocks == DataBlocks(d', disk', lo, hi) && acc.added == NewData(d, disk, lo, hi)
    && acc.w == NewIndirect(d, lo, hi) && acc.ind == NewEntries(d, disk, lo, hi)
  }

  lemma TallyStart(d: Dinode, disk: Image, lo: nat)
    requires lo <= MAXFILE
    ensures Tally(d, disk, d, disk, lo, lo, Acc(0, 0, 0, {}, false))
  {
    hide Ptr;
  }

  // bmap has mapped block bn of the file, with the indirect block if that was missing.
  ghost predicate MappedOne(d: Dinode, disk: Image, d': Dinode, disk': Image, bn: nat)
    requires bn < MAXFILE
  {
    && (forall k | 0 <= k < NSLOT && k != SlotOf(bn) && !(k == NDIRECT && bn >= NDIRECT) ::
      Ptr(d', disk', k) == Ptr(d, disk, k))
    && (d.addrs[NDIRECT] != 0 ==> d'.addrs[NDIRECT] == d.addrs[NDIRECT])
    && Addr(d', disk', bn) != 0 && (bn >= NDIRECT ==> d'.addrs[NDIRECT] != 0)
  }

  lemma TallyNext(d: Dinode, disk: Image, d1: Dinode, disk1: Image, d2: Dinode, disk2: Image, lo: nat, hi: nat,
                  acc: Acc, acc': Acc)
    requires lo <= hi < MAXFILE && Tally(d, disk, d1, disk1, lo, hi, acc) && MappedOne(d1, disk1, d2, disk2, hi)
    requires acc'.blocks == acc.blocks + {Addr(d2, disk2, hi) as nat}
    requires acc'.added == acc.added + (if Addr(d1, disk1, hi) == 0 then 1 else 0)
    requires acc'.w == acc.w + (if hi >= NDIRECT && d1.addrs[NDIRECT] == 0 then 1 else 0)
    requires acc'.ind == (acc.ind || (hi >= NDIRECT && Addr(d1, disk1, hi) == 0))
    ensures Tally(d, disk, d2, disk2, lo, hi + 1, acc')
  {
    hide Ptr;
    IndirectPtr(d, disk);
    IndirectPtr(d1, disk1);
    IndirectPtr(d2, disk2);
    assert !InRange(SlotOf(hi), lo, hi);
    assert Addr(d1, disk1, hi) == Addr(d, disk, hi);
    DataBlocksNext(d1, disk1, d2, disk2, lo, hi);
  }

  lemma IndirectPtr(d: Dinode, disk: Image)
    ensures Ptr(d, disk, NDIRECT) == d.addrs[NDIRECT]
  {
  }

  lemma DataBlocksNext(d1: Dinode, disk1: Image, d2: Dinode, disk2: Image, lo: nat, hi: nat)
    requires lo <= hi < MAXFILE && MappedOne(d1, disk1, d2, disk2, hi)
    ensures DataBlocks(d2, disk2, lo, hi + 1) == DataBlocks(d1, disk1, lo, hi) + {Addr(d2, disk2, hi) as nat}
  {
    hide Ptr;
    var now, was := DataBlocks(d2, disk2, lo, hi + 1), DataBlocks(d1, disk1, lo, hi) + {Addr(d2, disk2, hi) as nat};
    forall bn: nat | lo <= bn < hi ensures Addr(d2, disk2, bn) == Addr(d1, disk1, bn) {
      assert SlotOf(bn) != SlotOf(hi) && SlotOf(bn) != NDIRECT;
    }
    forall b: nat ensures b in now <==> b in was {
    }
  }

  // How many blocks bmap allocates for block bn.
  function NewBlocks(d: Dinode, disk: Image, bn: nat): nat
    requires bn < MAXFILE
  {
    (if Addr(d, disk, bn) == 0 then 1 else 0) + (if bn >= NDIRECT && d.addrs[NDIRECT] == 0 then 1 else 0)
  }

  // One slot set, and no other, maps one block.
  lemma DirectMapped(tab: Table, disk: Image, tab': Table, disk': Image, i: nat, bn: nat, b: nat)
    requires OnePtr(tab, disk, tab', disk', i, bn, b) && bn < NDIRECT && b != 0
    ensures MappedOne(tab[i], disk, tab'[i], disk', bn)
  {
    hide Ptr;
    IndirectPtr(tab[i], disk);
    IndirectPtr(tab'[i], disk');
  }

  lemma EntryMapped(tab: Table, disk: Image, tab': Table, disk': Image, i: nat, bn: nat, b: nat)
    requires OnePtr(tab, disk, tab', disk', i, SlotOf(bn), b) && NDIRECT <= bn < MAXFILE && b != 0
    requires tab[i].addrs[NDIRECT] != 0
    ensures MappedOne(tab[i], disk, tab'[i], disk', bn)
  {
    hide Ptr;
    IndirectPtr(tab[i], disk);
    IndirectPtr(tab'[i], disk');
  }

  lemma IndirectMapped(tab: Table, disk: Image, tab1: Table, disk1: Image, d: Dinode, disk2: Image, i: nat, ind: nat,
                       bn: nat)
    requires OnePtr(tab, disk, tab1, disk1, i, NDIRECT, ind) && tab[i].addrs[NDIRECT] == 0 && NDIRECT <= bn < MAXFILE
    requires MappedOne(tab1[i], disk1, d, disk2, bn)
    ensures MappedOne(tab[i], disk, d, disk2, bn)
  {
    hide Ptr;
  }

  lemma MappedSame(d: Dinode, disk: Image, bn: nat)
    requires bn < MAXFILE && Addr(d, disk, bn) != 0
    ensures MappedOne(d, disk, d, disk, bn)
  {
    hide WordAt;
  }

  lemma MappedThen(tab: Table, d: Dinode, disk: Image, disk1: Image, disk2: Image, i: nat, bn: nat)
    requires i < |tab| && bn < MAXFILE && MappedOne(d, disk, tab[i], disk1, bn) && SamePtrs(tab, disk1, tab, disk2)
    ensures MappedOne(d, disk, tab[i], disk2, bn)
  {
    hide Ptr;
  }

  // Rounds only add to what is needed.
  lemma {:induction false} NeedGrows(d: Dinode, disk: Image, lo: nat, m: nat, hi: nat)
    requires lo <= m <= hi <= MAXFILE
    ensures Need(d, disk, lo, m) <= Need(d, disk, lo, hi)
    decreases hi
  {
    hide Ptr;
    if m < hi {
      NeedGrows(d, disk, lo, m, hi - 1);
    }
  }

  lemma {:induction false} NewDataJoin(d: Dinode, disk: Image, lo: nat, m: nat, hi: nat)
    requires lo <= m <= hi <= MAXFILE
    ensures NewData(d, disk, lo, hi) == NewData(d, disk, lo, m) + NewData(d, disk, m, hi)
    decreases hi
  {
    hide Ptr;
    if m < hi {
      NewDataJoin(d, disk, lo, m, hi - 1);
    }
  }

  // Once blocks lo up to m are there, a range that starts among them needs what lies behind m.
  lemma {:induction false} NewDataBehind(d: Dinode, disk: Image, d1: Dinode, disk1: Image, lo: nat, m: nat, lo1: nat,
                                         hi: nat)
    requires lo <= lo1 <= m <= hi <= MAXFILE && Extended(d, disk, d1, disk1, lo, m)
    ensures NewData(d1, disk1, lo1, hi) == NewData(d, disk, m, hi)
    decreases hi
  {
    hide Ptr;
    if lo1 < hi {
      var k := SlotOf(hi - 1);
      assert InRange(k, lo, m) <==> lo <= hi - 1 < m;
      if m < hi {
        NewDataBehind(d, disk, d1, disk1, lo, m, lo1, hi - 1);
      } else {
        NewDataNone(d1, disk1, lo, m, lo1, hi);
      }
    }
  }

  lemma {:induction false} NewDataNone(d: Dinode, disk: Image, lo: nat, m: nat, lo1: nat, hi: nat)
    requires lo <= lo1 <= hi <= m <= MAXFILE && forall k | 0 <= k < NSLOT && InRange(k, lo, m) :: Ptr(d, disk, k) != 0
    ensures NewData(d, disk, lo1, hi) == 0
    decreases hi
  {
    hide Ptr;
    if lo1 < hi {
      assert InRange(SlotOf(hi - 1), lo, m);
      NewDataNone(d, disk, lo, m, lo1, hi - 1);
    }
  }

  // Two writes, the second of which starts where the first ends, need what one write needs.
  lemma NeedJoin(d: Dinode, disk: Image, d1: Dinode, disk1: Image, d2: Dinode, disk2: Image, lo: nat, m: nat, lo1: nat,
                 hi: nat)
    requires lo <= lo1 <= m <= hi <= MAXFILE && lo1 < hi
    requires Extended(d, disk, d1, disk1, lo, m)
    ensures Need(d, disk, lo, hi) == Need(d, disk, lo, m) + Need(d1, disk1, lo1, hi)
    ensures Extended(d1, disk1, d2, disk2, lo1, hi) ==> Extended(d, disk, d2, disk2, lo, hi)
  {
    hide Ptr;
    NewDataJoin(d, disk, lo, m, hi);
    NewDataBehind(d, disk, d1, disk1, lo, m, lo1, hi);
    IndirectPtr(d, disk);
    IndirectPtr(d1, disk1);
    assert InRange(NDIRECT, lo, m) <==> lo < m && m > NDIRECT;
  }
}
