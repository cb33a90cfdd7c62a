/** What one address space may do to memory: take free frames, give frames back, and touch nothing else. */
module VmSteps {

  import opened Bytes
  import opened PageTables

  // Frame f is the directory d, or a table or page of d.
  predicate Belongs(o: Owner, d: nat, f: nat)
  {
    (f == d && o.Dir?) || (o.Table? && o.dir == d) || (o.Page? && o.dir == d)
  }

  ghost predicate TookAt(owner: Owners, owner': Owners, d: nat, f: nat)
  {
    f in owner && f in owner' ==> owner'[f] == owner[f] || (owner[f].Free? && Belongs(owner'[f], d, f))
  }

  ghost predicate DataAt(mem: Mem, owner: Owners, mem': Mem, f: nat)
  {
    f in owner && (owner[f].Page? || owner[f].Other?) ==> f in mem && f in mem' && mem'[f] == mem[f]
  }

  ghost predicate ViewAt(mem: Mem, owner: Owners, mem': Mem, d: nat, d': nat, u: nat)
  {
    IsDir(owner, d') && d' != d ==> Lookup(mem', d', u) == Lookup(mem, d', u)
  }

  // Frames in use keep their contents, other directories their mappings.
  ghost predicate Untouched(mem: Mem, owner: Owners, mem': Mem, d: nat)
  {
    && (forall f: nat {:trigger DataAt(mem, owner, mem', f)} :: DataAt(mem, owner, mem', f))
    && (forall d': nat, u: nat {:trigger ViewAt(mem, owner, mem', d, d', u)} :: ViewAt(mem, owner, mem', d, d', u))
  }

  // Only free frames are taken, and only for d.  The frame in `hand`, if any, is left out of account.
  ghost predicate Grown(mem: Mem, owner: Owners, mem': Mem, owner': Owners, d: nat, hand: Option<nat>)
  {
    && owner.Keys == owner'.Keys && Untouched(mem, owner, mem', d)
    && (forall f: nat {:trigger TookAt(owner, owner', d, f)} :: hand != Some(f) ==> TookAt(owner, owner', d, f))
  }

  lemma GrownRefl(mem: Mem, owner: Owners, d: nat, hand: Option<nat>)
    requires mem.Keys == owner.Keys
    ensures Grown(mem, owner, mem, owner, d, hand)
  {
  }

  lemma GrownTrans(mem0: Mem, owner0: Owners, mem1: Mem, owner1: Owners, mem2: Mem, owner2: Owners, d: nat,
                   hand: Option<nat>)
    requires Grown(mem0, owner0, mem1, owner1, d, hand) && Grown(mem1, owner1, mem2, owner2, d, hand)
    requires hand.Some? ==> hand.value in owner0 && hand.value in owner1
    requires hand.Some? ==> owner0[hand.value].Free? || (owner0[hand.value].Other? && owner1[hand.value].Other?)
    ensures Grown(mem0, owner0, mem2, owner2, d, hand)
  {
    hide Lookup;
    forall f: nat ensures DataAt(mem0, owner0, mem2, f) && (hand != Some(f) ==> TookAt(owner0, owner2, d, f)) {
      assert DataAt(mem0, owner0, mem1, f) && DataAt(mem1, owner1, mem2, f);
      assert hand != Some(f) ==> TookAt(owner0, owner1, d, f) && TookAt(owner1, owner2, d, f);
    }
    forall d': nat, u: nat ensures ViewAt(mem0, owner0, mem2, d, d', u) {
      assert ViewAt(mem0, owner0, mem1, d, d', u) && ViewAt(mem1, owner1, mem2, d, d', u);
      assert hand != Some(d') ==> TookAt(owner0, owner1, d, d');
    }
  }

  // A frame changes that no table uses, and may move between the list and the hand.
  lemma IdleView(mem: Mem, owner: Owners, mem': Mem, owner': Owners, f: nat)
    requires Wf(mem, owner) && f in owner && Idle(owner[f]) && f in mem' && mem' == mem[f := mem'[f]]
    requires f in owner' && Idle(owner'[f]) && owner' == owner[f := owner'[f]]
    ensures Wf(mem', owner')
    ensures forall d: nat, u: nat {:trigger Lookup(mem', d, u)} | IsDir(owner, d) ::
              Lookup(mem', d, u) == Lookup(mem, d, u)
    ensures forall d: nat, i: nat {:trigger TableAt(mem', d, i)} | IsDir(owner, d) ::
              TableAt(mem', d, i) == TableAt(mem, d, i)
  {
    hide Lookup;
    hide TableAt;
    hide Wf;
    WfKeys(mem, owner);
    forall g: nat ensures TableKept(owner, mem, mem', g) && IdleAt(owner, owner', g) {
    }
    IdleKeeps(mem, owner, mem', owner');
    forall d: nat, u: nat | IsDir(owner, d)
      ensures Lookup(mem', d, u) == Lookup(mem, d, u) && TableAt(mem', d, u) == TableAt(mem, d, u)
    {
      LookupKept(mem, owner, mem', d, u);
    }
  }

  // A free frame is taken in hand, to be filled.
  lemma TakeHand(mem0: Mem, owner0: Owners, mem1: Mem, owner1: Owners, mem2: Mem, owner2: Owners, d: nat, f: nat)
    requires Grown(mem0, owner0, mem1, owner1, d, None) && Wf(mem1, owner1) && f in owner1 && owner1[f].Free?
    requires f in mem2
    requires mem2 == mem1[f := mem2[f]] && owner2 == owner1[f := Other]
    ensures Grown(mem0, owner0, mem2, owner2, d, Some(f)) && f in owner0 && owner0[f].Free?
  {
    hide Lookup;
    hide Wf;
    IdleView(mem1, owner1, mem2, owner2, f);
    assert TookAt(owner0, owner1, d, f);
    forall g: nat ensures DataAt(mem0, owner0, mem2, g) && (g != f ==> TookAt(owner0, owner2, d, g)) {
      assert DataAt(mem0, owner0, mem1, g) && TookAt(owner0, owner1, d, g);
    }
    forall d': nat, u: nat ensures ViewAt(mem0, owner0, mem2, d, d', u) {
      assert ViewAt(mem0, owner0, mem1, d, d', u) && TookAt(owner0, owner1, d, d');
    }
  }

  // The frame in hand goes back on the list.
  lemma DropHand(mem0: Mem, owner0: Owners, mem1: Mem, owner1: Owners, mem2: Mem, owner2: Owners, d: nat, f: nat)
    requires Grown(mem0, owner0, mem1, owner1, d, Some(f)) && Wf(mem1, owner1) && f in owner1 && owner1[f].Other?
    requires f in mem2
    requires mem2 == mem1[f := mem2[f]] && owner2 == owner1[f := Free] && f in owner0 && owner0[f].Free?
    ensures Grown(mem0, owner0, mem2, owner2, d, None)
  {
    hide Lookup;
    hide Wf;
    IdleView(mem1, owner1, mem2, owner2, f);
    forall g: nat ensures DataAt(mem0, owner0, mem2, g) && TookAt(owner0, owner2, d, g) {
      assert DataAt(mem0, owner0, mem1, g) && (g != f ==> TookAt(owner0, owner1, d, g));
    }
    forall d': nat, u: nat ensures ViewAt(mem0, owner0, mem2, d, d', u) {
      assert ViewAt(mem0, owner0, mem1, d, d', u) && (d' != f ==> TookAt(owner0, owner1, d, d'));
    }
  }

  // The frame in hand is now d's.
  lemma KeepHand(mem0: Mem, owner0: Owners, mem1: Mem, owner1: Owners, d: nat, f: nat)
    requires Grown(mem0, owner0, mem1, owner1, d, Some(f)) && f in owner1 && Belongs(owner1[f], d, f)
    requires f in owner0 && owner0[f].Free?
    ensures Grown(mem0, owner0, mem1, owner1, d, None)
  {
    hide Lookup;
    forall g: nat ensures TookAt(owner0, owner1, d, g) {
      assert g != f ==> TookAt(owner0, owner1, d, g);
    }
  }

  // ---- Giving back ----

  // The use of a frame once pages [from, to) of d are gone.
  function Released(o: Owner, d: nat, from: nat, to: nat): Owner
  {
    if o.Page? && o.dir == d && from <= o.page < to then Free else o
  }

  ghost predicate ReleasedAt(owner: Owners, owner': Owners, d: nat, from: nat, to: nat, f: nat)
  {
    f in owner && f in owner' ==> owner'[f] == Released(owner[f], d, from, to)
  }

  ghost predicate ReleasedRange(owner: Owners, owner': Owners, d: nat, from: nat, to: nat)
  {
    owner.Keys == owner'.Keys &&
    forall f: nat {:trigger ReleasedAt(owner, owner', d, from, to, f)} :: ReleasedAt(owner, owner', d, from, to, f)
  }

  ghost predicate UnmapsAt(mem: Mem, mem': Mem, d: nat, from: nat, to: nat, u: nat)
  {
    Lookup(mem', d, u) == if from <= u < to then None else Lookup(mem, d, u)
  }

  // Pages [from, to) of d are gone, the others as they were.
  ghost predicate Unmaps(mem: Mem, mem': Mem, d: nat, from: nat, to: nat)
  {
    forall u: nat {:trigger UnmapsAt(mem, mem', d, from, to, u)} :: UnmapsAt(mem, mem', d, from, to, u)
  }

  ghost predicate KeptAt(mem: Mem, owner': Owners, mem': Mem, f: nat)
  {
    f in owner' && (owner'[f].Page? || owner'[f].Other?) ==> f in mem && f in mem' && mem'[f] == mem[f]
  }

  ghost predicate GaveAt(owner: Owners, owner': Owners, d: nat, f: nat)
  {
    f in owner && f in owner' ==> owner'[f] == owner[f] || (Belongs(owner[f], d, f) && owner'[f].Free?)
  }

  // Frames of d go back to the list; those still in use keep their contents.
  ghost predicate Shrunk(mem: Mem, owner: Owners, mem': Mem, owner': Owners, d: nat)
  {
    && owner.Keys == owner'.Keys
    && (forall f: nat {:trigger GaveAt(owner, owner', d, f)} :: GaveAt(owner, owner', d, f))
    && (forall f: nat {:trigger KeptAt(mem, owner', mem', f)} :: KeptAt(mem, owner', mem', f))
    && (forall d': nat, u: nat {:trigger ViewAt(mem, owner, mem', d, d', u)} :: ViewAt(mem, owner, mem', d, d', u))
  }

  lemma ShrunkTrans(mem0: Mem, owner0: Owners, mem1: Mem, owner1: Owners, mem2: Mem, owner2: Owners, d: nat)
    requires Shrunk(mem0, owner0, mem1, owner1, d) && Shrunk(mem1, owner1, mem2, owner2, d)
    ensures Shrunk(mem0, owner0, mem2, owner2, d)
  {
    hide Lookup;
    forall f: nat ensures GaveAt(owner0, owner2, d, f) && KeptAt(mem0, owner2, mem2, f) {
      assert GaveAt(owner0, owner1, d, f) && GaveAt(owner1, owner2, d, f);
      assert KeptAt(mem0, owner1, mem1, f) && KeptAt(mem1, owner2, mem2, f);
    }
    forall d': nat, u: nat ensures ViewAt(mem0, owner0, mem2, d, d', u) {
      assert ViewAt(mem0, owner0, mem1, d, d', u) && ViewAt(mem1, owner1, mem2, d, d', u);
      assert GaveAt(owner0, owner1, d, d');
    }
  }

  // Taking and then giving back only what was taken is no more than taking less.
  lemma GrownShrunk(mem0: Mem, owner0: Owners, mem1: Mem, owner1: Owners, mem2: Mem, owner2: Owners, d: nat,
                    hand: Option<nat>)
    requires Grown(mem0, owner0, mem1, owner1, d, hand) && Shrunk(mem1, owner1, mem2, owner2, d)
    requires forall f: nat {:trigger owner2[f]} | f in owner2 && f in owner1 && f in owner0 && owner2[f] != owner1[f] ::
               owner0[f].Free?
    requires hand.Some? ==> hand.value in owner0 && owner0[hand.value].Free?
    ensures Grown(mem0, owner0, mem2, owner2, d, hand)
  {
    hide Lookup;
    forall f: nat ensures DataAt(mem0, owner0, mem2, f) && (hand != Some(f) ==> TookAt(owner0, owner2, d, f)) {
      assert DataAt(mem0, owner0, mem1, f) && (hand != Some(f) ==> TookAt(owner0, owner1, d, f));
      assert GaveAt(owner1, owner2, d, f) && KeptAt(mem1, owner2, mem2, f);
    }
    forall d': nat, u: nat ensures ViewAt(mem0, owner0, mem2, d, d', u) {
      assert ViewAt(mem0, owner0, mem1, d, d', u) && ViewAt(mem1, owner1, mem2, d, d', u);
      assert hand != Some(d') ==> TookAt(owner0, owner1, d, d');
    }
  }

  // With everything of d given back, what was taken for it is free again.
  lemma GrownNothing(mem0: Mem, owner0: Owners, mem2: Mem, owner2: Owners, d: nat)
    requires Grown(mem0, owner0, mem2, owner2, d, None)
    requires forall f: nat {:trigger owner2[f]} | f in owner2 :: !Belongs(owner2[f], d, f)
    ensures owner2 == owner0
  {
    forall f: nat | f in owner0 ensures owner2[f] == owner0[f] {
      assert TookAt(owner0, owner2, d, f);
    }
  }

  function Gone(o: Owner, d: nat, f: nat): Owner
  {
    if Belongs(o, d, f) then Free else o
  }
}
