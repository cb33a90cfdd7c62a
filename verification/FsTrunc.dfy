/** The bitmap while itrunc gives the blocks of one inode back, slot by slot. */
module FsTrunc {
  import opened Bytes
  import opened FsLayout
  import opened FsMap

  ghost function UpTo(n: nat): (r: set<nat>)
    ensures forall k: nat :: k in r <==> k < n
  {
    if n == 0 then {} else UpTo(n - 1) + {n - 1}
  }

  // The blocks in the slots ks of inode d.
  ghost function SlotPtrs(d: Dinode, disk: Image, ks: set<nat>): set<nat>
  {
    set k | k in ks && k < NSLOT && Ptr(d, disk, k) != 0 :: Ptr(d, disk, k) as nat
  }

  // Relative to `was`, exactly the blocks in `freed` have been given back.
  ghost predicate Released(sb: Super, was: Image, disk: Image, freed: set<nat>)
    requires SuperOk(sb) && |was| == sb.size
  {
    && |disk| == |was|
    && (forall c | 0 <= c < |was| :: InUse(sb, disk, c) == (InUse(sb, was, c) && c !in freed))
    && (forall x | 0 <= x < |was| && !(sb.bmapstart <= x < sb.datastart) :: disk[x] == was[x])
  }

  // The next slot holds a block that is still in use, or none at all.
  lemma NextSlot(sb: Super, was: Image, tab: Table, own: Owners, i: nat, ks: set<nat>, k: nat, disk: Image)
    requires Wf(sb, was, tab, own, {}) && SuperOk(sb) && |was| == sb.size && i < |tab| && k < NSLOT && k !in ks
    requires Released(sb, was, disk, SlotPtrs(tab[i], was, ks))
    ensures Ptr(tab[i], was, k) != 0 ==> sb.datastart <= Ptr(tab[i], was, k) < sb.size
    ensures Ptr(tab[i], was, k) != 0 ==> InUse(sb, disk, Ptr(tab[i], was, k))
    ensures Ptr(tab[i], was, k) == 0 ==> SlotPtrs(tab[i], was, ks + {k}) == SlotPtrs(tab[i], was, ks)
    ensures Ptr(tab[i], was, k) != 0 ==>
              SlotPtrs(tab[i], was, ks + {k}) == SlotPtrs(tab[i], was, ks) + {Ptr(tab[i], was, k) as nat}
  {
    hide Ptr;
    hide InUse;
    var b := Ptr(tab[i], was, k);
    assert SlotOk(was, tab, own, i, k) && OwnedOk(sb, was, tab, own, b) && MarkOk(sb, was, own, {}, b);
    forall m | m in ks && m < NSLOT && Ptr(tab[i], was, m) != 0 ensures Ptr(tab[i], was, m) != b {
      assert SlotOk(was, tab, own, i, m);
    }
  }

  lemma FreeNext(sb: Super, was: Image, disk: Image, freed: set<nat>, b: nat, disk': Image)
    requires SuperOk(sb) && |was| == |disk| == sb.size && Released(sb, was, disk, freed) && Freed(sb, disk, b, disk')
    ensures Released(sb, was, disk', freed + {b})
  {
    hide InUse;
  }

  // When every slot has been handled, exactly the blocks that inode i owned are free.
  lemma AllFreed(sb: Super, was: Image, tab: Table, own: Owners, i: nat, ks: set<nat>, disk: Image)
    requires Wf(sb, was, tab, own, {}) && SuperOk(sb) && |was| == sb.size && i < |tab|
    requires forall k: nat | k < NSLOT && Ptr(tab[i], was, k) != 0 :: k in ks
    requires Released(sb, was, disk, SlotPtrs(tab[i], was, ks))
    ensures forall b | 0 <= b < sb.size :: InUse(sb, disk, b) == (InUse(sb, was, b) && !(b in own && own[b].0 == i))
  {
    hide Ptr;
    hide InUse;
    forall b | 0 <= b < sb.size ensures b in SlotPtrs(tab[i], was, ks) <==> b in own && own[b].0 == i {
      assert OwnedOk(sb, was, tab, own, b);
      if b in SlotPtrs(tab[i], was, ks) {
        var k :| k in ks && k < NSLOT && Ptr(tab[i], was, k) != 0 && Ptr(tab[i], was, k) == b;
        assert SlotOk(was, tab, own, i, k);
      }
    }
  }

  const NO_ADDRS: Addrs := Fill(NDIRECT + 1, 0)

  lemma NoPtrs(d: Dinode, disk: Image, k: nat)
    requires d.addrs == NO_ADDRS && k < NSLOT
    ensures Ptr(d, disk, k) == 0
  {
  }
}
