/** The physical page allocator: a free list threaded through the first word of each free page. */
module Kalloc {

  import opened Bytes
  import opened PageTables

  const PHYSTOP: nat := 0xE00_0000
  const TOP: nat := 0xE000  // PHYSTOP in pages

  // The kernel address of page f.
  function P2V(f: nat): (v: nat)
    ensures KERNBASE <= v
  {
    KERNBASE + PGSIZE * f
  }

  function V2P(v: nat): nat
    requires KERNBASE <= v
  {
    (v - KERNBASE) / PGSIZE
  }

  lemma P2VV2P(f: nat)
    ensures V2P(P2V(f)) == f && P2V(f) % PGSIZE == 0
  {
  }

  // The first page at or above the end of the kernel.
  function FirstPage(end: nat): nat
    requires KERNBASE <= end
  {
    (end - KERNBASE + PGSIZE - 1) / PGSIZE
  }

  predicate KfreePanics(end: nat, v: nat)
    requires KERNBASE <= end
  {
    v % PGSIZE != 0 || v < end || v - KERNBASE >= PHYSTOP
  }

  // kfree stops the machine exactly when v is not the address of a page between end and PHYSTOP.
  lemma PanicsIff(end: nat, v: nat)
    requires KERNBASE <= end
    ensures KfreePanics(end, v) <==> !exists f: nat :: FirstPage(end) <= f < TOP && v == P2V(f)
  {
    if !KfreePanics(end, v) {
      var f: nat := V2P(v);
      assert FirstPage(end) <= f < TOP && v == P2V(f);
    }
    forall f: nat | FirstPage(end) <= f < TOP && v == P2V(f) ensures !KfreePanics(end, v) {
      P2VV2P(f);
      assert PGSIZE * FirstPage(end) >= end - KERNBASE;
    }
  }

  lemma PageFreeable(end: nat, f: nat)
    requires KERNBASE <= end && FirstPage(end) <= f < TOP
    ensures !KfreePanics(end, P2V(f)) && V2P(P2V(f)) == f && P2V(f) < UINT_LIMIT
  {
    P2VV2P(f);
    PanicsIff(end, P2V(f));
  }

  ghost function Link(list: seq<nat>, i: nat): nat { if i < |list| then P2V(list[i]) else 0 }

  ghost predicate LinkOk(mem: Mem, owner: Owners, list: seq<nat>, i: nat)
  {
    i < |list| ==> list[i] in mem && list[i] in owner && owner[list[i]].Free? && mem[list[i]][0] == Link(list, i + 1)
  }

  ghost predicate Differ(list: seq<nat>, i: nat, j: nat) { i < j < |list| ==> list[i] != list[j] }

  ghost predicate Listed(owner: Owners, list: seq<nat>, f: nat) { f in owner && owner[f].Free? ==> f in list }

  // The list holds every free frame once, in the order of its links.
  ghost predicate ListOk(first: nat, mem: Mem, owner: Owners, list: seq<nat>, freelist: uint)
  {
    && mem.Keys == owner.Keys
    && (forall f: nat {:trigger f in owner} :: f in owner <==> first <= f < TOP)
    && freelist == Link(list, 0)
    && (forall i: nat {:trigger LinkOk(mem, owner, list, i)} :: LinkOk(mem, owner, list, i))
    && (forall i: nat, j: nat {:trigger Differ(list, i, j)} :: Differ(list, i, j))
    && (forall f: nat {:trigger Listed(owner, list, f)} :: Listed(owner, list, f))
  }

  lemma Popped(first: nat, mem: Mem, owner: Owners, list: seq<nat>, freelist: uint, owner': Owners, list': seq<nat>,
               freelist': uint)
    requires ListOk(first, mem, owner, list, freelist) && |list| > 0 && list[0] in mem
    requires owner' == owner[list[0] := Other] && list' == list[1..] && freelist' == mem[list[0]][0]
    ensures ListOk(first, mem, owner', list', freelist')
  {
    hide P2V;
    assert LinkOk(mem, owner, list, 0);
    forall i: nat ensures LinkOk(mem, owner', list', i) {
      assert LinkOk(mem, owner, list, i + 1) && Differ(list, 0, i + 1);
    }
    forall i: nat, j: nat ensures Differ(list', i, j) {
      assert Differ(list, i + 1, j + 1);
    }
    forall f: nat ensures Listed(owner', list', f) {
      assert Listed(owner, list, f);
    }
  }

  lemma Pushed(first: nat, mem: Mem, owner: Owners, list: seq<nat>, freelist: uint, f: nat, mem': Mem, owner': Owners,
               list': seq<nat>, freelist': uint)
    requires ListOk(first, mem, owner, list, freelist) && f in owner && !owner[f].Free? && f in mem'
    requires mem' == mem[f := mem'[f]] && mem'[f][0] == freelist && freelist' == P2V(f)
    requires owner' == owner[f := Free] && list' == [f] + list
    ensures ListOk(first, mem', owner', list', freelist')
  {
    hide P2V;
    forall i: nat ensures LinkOk(mem', owner', list', i) {
      if i > 0 {
        assert LinkOk(mem, owner, list, i - 1);
      }
    }
    forall i: nat, j: nat ensures Differ(list', i, j) {
      if 0 < i < j {
        assert Differ(list, i - 1, j - 1);
      } else if 0 == i < j < |list'| {
        assert LinkOk(mem, owner, list, j - 1);
      }
    }
    forall g: nat ensures Listed(owner', list', g) {
      assert Listed(owner, list, g);
    }
  }

  // Frames that are not free may change, and may change hands, without touching the list.
  lemma ListKept(first: nat, mem: Mem, owner: Owners, list: seq<nat>, freelist: uint, mem': Mem, owner': Owners, f: nat,
                 g: nat)
    requires ListOk(first, mem, owner, list, freelist)
    requires f in owner && !owner[f].Free? && f in mem' && mem' == mem[f := mem'[f]]
    requires g in owner && !owner[g].Free? && g in owner' && owner' == owner[g := owner'[g]] && !owner'[g].Free?
    ensures ListOk(first, mem', owner', list, freelist)
  {
    hide P2V;
    forall i: nat ensures LinkOk(mem', owner', list, i) {
      assert LinkOk(mem, owner, list, i);
    }
    forall h: nat ensures Listed(owner', list, h) {
      assert Listed(owner, list, h);
    }
  }

  // Page f lies whole between the addresses vstart and vend.
  predicate Whole(f: nat, vstart: nat, vend: nat) { vstart <= P2V(f) && P2V(f) + PGSIZE <= vend }

  lemma WholeIs(f: nat, vstart: nat, vend: nat)
    ensures Whole(f, vstart, vend) <==> vstart <= KERNBASE + f * PGSIZE <= vend - PGSIZE
  {
  }

  class Memory {
    const end: nat
    var mem: Mem
    var freelist: uint
    ghost var list: seq<nat>
    ghost var owner: Owners

    ghost predicate Listing()
      reads this
    {
      KERNBASE < end && ListOk(FirstPage(end), mem, owner, list, freelist)
    }

    ghost predicate Valid()
      reads this
    {
      Listing() && Wf(mem, owner)
    }

    // Before kinit1 every page is taken.
    constructor (end: nat, mem: Mem)
      requires KERNBASE < end && forall f: nat :: f in mem <==> FirstPage(end) <= f < TOP
      ensures Valid() && this.end == end && this.mem == mem
      ensures forall f | f in owner :: owner[f].Other?
    {
      this.end, this.mem, freelist := end, mem, 0;
      list, owner := [], map f | f in mem :: Other;
      new;
      hide Pdx;
      hide Ptx;
      hide Present;
      hide Pn;
    }

    method Kalloc() returns (r: Option<nat>)
      requires Listing()
      modifies this`freelist, this`list, this`owner
      ensures Listing()
      ensures r.None? <==> forall f :: f in old(owner) ==> !old(owner)[f].Free?
      ensures r.None? ==> unchanged(this)
      ensures r.Some? ==> r.value in old(owner) && old(owner)[r.value].Free? && owner == old(owner)[r.value := Other]
    {
      hide P2V;
      hide V2P;
      if freelist == 0 {
        forall f | f in owner ensures !owner[f].Free? {
          assert Listed(owner, list, f);
          ZeroIsEnd(list);
        }
        return None;
      }
      ZeroIsEnd(list);
      P2VV2P(list[0]);
      assert LinkOk(mem, owner, list, 0);
      var f := V2P(freelist);
      Popped(FirstPage(end), mem, owner, list, freelist, owner[f := Other], list[1..], mem[f][0]);
      freelist := mem[f][0];
      owner, list := owner[f := Other], list[1..];
      r := Some(f);
    }

    method Kfree(v: uint) returns (halted: bool)
      requires Listing()
      requires !KfreePanics(end, v) ==> V2P(v) in owner && !owner[V2P(v)].Free?
      modifies this
      ensures Listing()
      ensures halted <==> KfreePanics(end, v)
      ensures halted <==> v % PGSIZE != 0 || v < end || v >= KERNBASE + PHYSTOP
      ensures halted ==> unchanged(this)
      ensures !halted ==> owner == old(owner)[V2P(v) := Free] && V2P(v) in mem && mem == old(mem)[V2P(v) := mem[V2P(v)]]
      ensures !halted ==> mem[V2P(v)] == Fill(ENTRIES, 0x0101_0101)[0 := old(freelist)]
    {
      if v % PGSIZE != 0 || v < end || v - KERNBASE >= PHYSTOP {
        return true;
      }
      var f := V2P(v);
      var junk := Fill(ENTRIES, 0x0101_0101);
      ghost var mem0 := mem;
      mem := mem[f := junk[0 := freelist]];
      Pushed(FirstPage(end), mem0, owner, list, freelist, f, mem, owner[f := Free], [f] + list, v);
      freelist := v;
      owner, list := owner[f := Free], [f] + list;
      halted := false;
    }

    // Pages that lie whole between vstart and vend become free.
    method FreeRange(vstart: uint, vend: uint)
      requires Valid() && end <= vstart && vend <= P2V(TOP)
      requires forall f: nat {:trigger Whole(f, vstart, vend)} | Whole(f, vstart, vend) :: f in owner && owner[f].Other?
      modifies this
      ensures Valid() && owner.Keys == old(owner).Keys
      ensures forall f: nat | f in owner :: owner[f] == if Whole(f, vstart, vend) then Free else old(owner)[f]
    {
      hide Wf;
      hide ListOk;
      WfKeys(mem, owner);
      var a := FirstPage(vstart);
      ghost var mem0, owner0 := mem, owner;
      while P2V(a) + PGSIZE <= vend
        invariant FirstPage(vstart) <= a && Listing() && owner.Keys == owner0.Keys == mem0.Keys == mem.Keys
        invariant forall f: nat {:trigger owner[f]} | f in owner ::
                    owner[f] == if Whole(f, vstart, vend) && f < a then Free else owner0[f]
        invariant SameTables(owner0, mem0, mem)
        decreases vend - a
      {
        assert Whole(a, vstart, vend);
        PageFreeable(end, a);
        ghost var mem1, owner1 := mem, owner;
        var halted := Kfree(P2V(a));
        assert owner == owner1[a := Free];
        forall f: nat ensures TableKept(owner0, mem0, mem, f) {
          assert TableKept(owner0, mem0, mem1, f);
        }
        a := a + 1;
      }
      forall f: nat ensures IdleAt(owner0, owner, f) {
      }
      IdleKeeps(mem0, owner0, mem, owner);
    }
  }

  lemma ZeroIsEnd(list: seq<nat>)
    ensures Link(list, 0) == 0 <==> list == []
  {
  }
}
