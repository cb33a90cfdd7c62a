/** Address spaces: the page table walks of vm.c over the frames of kalloc. */
module Vm {

  import opened Bytes
  import opened PageTables
  import opened Kalloc
  import opened VmRoom
  import opened VmSteps

  // Directory d maps what it mapped before.
  ghost predicate SameMap(mem: Mem, mem': Mem, d: nat)
  {
    forall u: nat {:trigger Lookup(mem', d, u)} :: Lookup(mem', d, u) == Lookup(mem, d, u)
  }

  // ---- walkpgdir ----

  // Every frame that has changed hands, but the one in hand, is now a table.
  ghost predicate OnlyTablesTaken(owner: Owners, owner': Owners, hand: Option<nat>)
  {
    forall f: nat {:trigger owner'[f]} | f in owner' && f in owner && owner'[f] != owner[f] && hand != Some(f) ::
      owner'[f].Table?
  }

  // Taking frame f for the table of entry i changes no mapping at all.
  lemma TableTaken(mem0: Mem, owner0: Owners, mem1: Mem, owner1: Owners, mem2: Mem, owner2: Owners, d: nat, i: nat,
                   f: nat, e: uint)
    requires Wf(mem0, owner0) && IsDir(owner0, d) && f in owner0 && owner0[f].Free? && f in mem1
    requires mem1 == mem0[f := mem1[f]] && owner1 == owner0[f := Other]
    requires i < ENTRIES && TableAt(mem0, d, i).None? && Blank(mem1, f) && Present(e) && Pn(e) == f && d in mem1
    requires Flags(e) == PTE_P + PTE_W + PTE_U
    requires mem2 == mem1[d := mem1[d][i := e]] && owner2 == owner1[f := Table(d, i)]
    ensures Wf(mem2, owner2) && Grown(mem0, owner0, mem2, owner2, d, None) && SameMap(mem0, mem2, d)
    ensures TableAt(mem2, d, i) == Some(f)
    ensures forall j: nat {:trigger TableAt(mem2, d, j)} ::
              TableAt(mem2, d, j).Some? <==> TableAt(mem0, d, j).Some? || j == i
  {
    hide Lookup;
    hide TableAt;
    hide Blank;
    hide Wf;
    WfKeys(mem0, owner0);
    IdleView(mem0, owner0, mem1, owner1, f);
    assert TableAdded(mem1, owner1, d, i, f, e, mem2, owner2);
    AddTable(mem1, owner1, d, i, f, e, mem2, owner2);
    AddedLookup(mem1, owner1, d, i, f, e, mem2, owner2, d, i);
    forall u: nat ensures Lookup(mem2, d, u) == Lookup(mem0, d, u) {
      AddedLookup(mem1, owner1, d, i, f, e, mem2, owner2, d, u);
    }
    forall j: nat ensures TableAt(mem2, d, j).Some? <==> TableAt(mem0, d, j).Some? || j == i {
      AddedLookup(mem1, owner1, d, i, f, e, mem2, owner2, d, j);
    }
    forall d': nat, u: nat ensures ViewAt(mem0, owner0, mem2, d, d', u) {
      if IsDir(owner0, d') {
        AddedLookup(mem1, owner1, d, i, f, e, mem2, owner2, d', u);
      }
    }
    forall g: nat ensures DataAt(mem0, owner0, mem2, g) && TookAt(owner0, owner2, d, g) {
    }
  }

  lemma TableFrame(mem: Mem, owner: Owners, d: nat, i: nat)
    requires Wf(mem, owner) && IsDir(owner, d)
    ensures TableAt(mem, d, i).Some? ==> TableAt(mem, d, i).value in mem && TableAt(mem, d, i).value in owner
    ensures TableAt(mem, d, i).Some? ==> owner[TableAt(mem, d, i).value] == Table(d, i)
    ensures d in mem
    ensures TableAt(mem, d, i).Some? ==>
              i < ENTRIES && mem[d][i] == PGSIZE * TableAt(mem, d, i).value + PTE_P + PTE_W + PTE_U
  {
    assert TableOk(mem, owner, d, i);
  }

  // The table that holds the entry of page v, made on demand.
  method WalkPgdir(m: Memory, d: nat, v: nat, alloc: bool) returns (t: Option<nat>)
    requires m.Valid() && IsDir(m.owner, d) && v < PAGES
    modifies m
    ensures m.Valid() && IsDir(m.owner, d)
    ensures Grown(old(m.mem), old(m.owner), m.mem, m.owner, d, None) && SameMap(old(m.mem), m.mem, d)
    ensures t == TableAt(m.mem, d, Pdx(v)) && (t.Some? ==> t.value in m.mem)
    ensures t.None? || !alloc || old(TableAt(m.mem, d, Pdx(v))).Some? ==> unchanged(m)
    ensures t.None? <==> old(TableAt(m.mem, d, Pdx(v))).None? && (!alloc || forall f ::
              f in old(m.owner) ==> !old(m.owner)[f].Free?)
    ensures OnlyTablesTaken(old(m.owner), m.owner, None)
    // The entry for a new table lets every access through, and leaves it to the entries of the table.
    ensures t.Some? ==> m.mem[d][Pdx(v)] == PGSIZE * t.value + PTE_P + PTE_W + PTE_U
    // A table that is missing takes one frame.
    ensures alloc && t.Some? ==> Tabled(old(m.mem), m.mem, d, v, v + 1)
    ensures alloc && t.Some? ==> Room(m.owner) == Room(old(m.owner)) - Missing(old(m.mem), d, v, v + 1)
    ensures alloc && t.None? ==> Room(old(m.owner)) == 0 < Missing(old(m.mem), d, v, v + 1)
  {
    hide Wf;
    hide Room;
    hide Tabled;
    hide Missing;
    hide ListOk;
    hide Pdx;
    hide Present;
    hide Pn;
    hide Lookup;
    PageParts(v, v);
    WfKeys(m.mem, m.owner);
    TableFrame(m.mem, m.owner, d, Pdx(v));
    GrownRefl(m.mem, m.owner, d, None);
    var pde := m.mem[d][Pdx(v)];
    OneMissing(m.mem, d, v);
    NoRoom(m.owner);
    if Present(pde) {
      OneTable(m.mem, m.mem, d, v);
      return Some(Pn(pde));
    }
    if !alloc {
      return None;
    }
    ghost var mem0, owner0 := m.mem, m.owner;
    t := m.Kalloc();
    if t.None? {
      return;
    }
    var f := t.value;
    ghost var owner1 := m.owner;
    FrameRange(m.end, mem0, owner0, old(m.list), old(m.freelist), f);
    var mem1 := m.mem[f := Fill(ENTRIES, 0)];
    var e := Entry(f, PTE_W + PTE_U);
    var mem2 := mem1[d := mem1[d][Pdx(v) := e]];
    BlankZero(mem1, f);
    TableTaken(mem0, owner0, mem1, owner1, mem2, owner1[f := Table(d, Pdx(v))], d, Pdx(v), f, e);
    ListKept(FirstPage(m.end), mem0, owner1, m.list, m.freelist, mem1, owner1, f, f);
    ListKept(FirstPage(m.end), mem1, owner1, m.list, m.freelist, mem2, owner1[f := Table(d, Pdx(v))], d, f);
    RoomTaken(owner0, f, Other);
    RoomKept(owner1, f, Table(d, Pdx(v)));
    OneTable(mem0, mem2, d, v);
    m.mem := mem2;
    m.owner := owner1[f := Table(d, Pdx(v))];
  }

  lemma OneMissing(mem: Mem, d: nat, v: nat)
    ensures Missing(mem, d, v, v + 1) == if TableAt(mem, d, Pdx(v)).None? then 1 else 0
  {
    hide TableAt;
    assert v + 1 - 1 == v && Missing(mem, d, v, v) == 0;
  }

  lemma OneTable(mem: Mem, mem': Mem, d: nat, v: nat)
    requires forall j: nat {:trigger TableAt(mem', d, j)} ::
               TableAt(mem', d, j).Some? <==> TableAt(mem, d, j).Some? || j == Pdx(v)
    ensures Tabled(mem, mem', d, v, v + 1)
  {
    hide TableAt;
  }

  lemma BlankZero(mem: Mem, f: nat)
    requires f in mem && mem[f] == Fill(ENTRIES, 0)
    ensures Blank(mem, f)
  {
  }

  lemma FrameRange(end: nat, mem: Mem, owner: Owners, list: seq<nat>, freelist: uint, f: nat)
    requires KERNBASE < end && ListOk(FirstPage(end), mem, owner, list, freelist)
    ensures f in owner <==> FirstPage(end) <= f < TOP
    ensures mem.Keys == owner.Keys
  {
  }

  // ---- mappages ----

  datatype MapResult = Mapped | NoMemory | Remap

  ghost predicate MapsAt(mem: Mem, mem': Mem, d: nat, first: nat, to: nat, pn: nat, perm: nat, u: nat)
  {
    if first <= u < to
    then pn + (u - first) < PAGES && perm < PGSIZE && Lookup(mem', d, u) == Some(Entry(pn + (u - first), perm))
    else Lookup(mem', d, u) == Lookup(mem, d, u)
  }

  // Pages [first, to) of d lead to frames from pn on; every other page is as it was.
  ghost predicate MapsRange(mem: Mem, mem': Mem, d: nat, first: nat, to: nat, pn: nat, perm: nat)
  {
    forall u: nat {:trigger MapsAt(mem, mem', d, first, to, pn, perm, u)} ::
      MapsAt(mem, mem', d, first, to, pn, perm, u)
  }

  // Who holds frame pn while page v is mapped to it: below KERNBASE the page takes it over.
  function Hand(v: nat, pn: nat): Option<nat> { if v < UPAGES then Some(pn) else None }

  lemma EntryMapped(mem: Mem, owner: Owners, d: nat, v: nat, t: nat, pn: nat, perm: nat, mem': Mem, owner': Owners)
    requires pn < PAGES && perm < PGSIZE && EntrySet(mem, owner, d, v, t, Entry(pn, perm), mem')
    requires Lookup(mem, d, v).None?
    requires v < UPAGES ==> pn in owner && owner[pn].Other?
    requires owner' == if v < UPAGES then owner[pn := Page(d, v)] else owner
    ensures Wf(mem', owner') && Grown(mem, owner, mem', owner', d, Hand(v, pn))
    ensures MapsRange(mem, mem', d, v, v + 1, pn, perm)
  {
    hide Lookup;
    hide TableAt;
    hide Wf;
    hide Pdx;
    hide Ptx;
    hide Entry;
    var e := Entry(pn, perm);
    WfKeys(mem, owner);
    if v < UPAGES {
      MapPage(mem, owner, d, v, t, e, mem', owner');
    } else {
      MapKernel(mem, owner, d, v, t, e, mem');
    }
    var to := v + 1;
    forall u: nat ensures MapsAt(mem, mem', d, v, to, pn, perm, u) {
      SetLookup(mem, owner, d, v, t, e, mem', d, u);
    }
    forall d': nat, u: nat ensures ViewAt(mem, owner, mem', d, d', u) {
      if IsDir(owner, d') {
        SetLookup(mem, owner, d, v, t, e, mem', d', u);
      }
    }
    TableFrame(mem, owner, d, Pdx(v));
    forall g: nat ensures DataAt(mem, owner, mem', g) && (Hand(v, pn) != Some(g) ==> TookAt(owner, owner', d, g)) {
    }
  }

  lemma LookupIs(mem: Mem, owner: Owners, d: nat, v: nat, t: nat)
    requires Wf(mem, owner) && IsDir(owner, d) && TableAt(mem, d, Pdx(v)) == Some(t)
    ensures t in mem && t in owner && owner[t].Table?
    ensures Lookup(mem, d, v) == if Present(mem[t][Ptx(v)]) then Some(mem[t][Ptx(v)]) else None
  {
    TableFrame(mem, owner, d, Pdx(v));
  }

  // One round of mappages.
  method MapOne(m: Memory, d: nat, v: nat, pn: nat, perm: nat) returns (r: MapResult)
    requires m.Valid() && IsDir(m.owner, d) && v < PAGES && pn < PAGES && perm < PGSIZE
    requires v < UPAGES ==> pn in m.owner && m.owner[pn].Other?
    modifies m
    ensures m.Valid() && IsDir(m.owner, d)
    ensures r.Remap? <==> old(Lookup(m.mem, d, v)).Some?
    ensures r.Mapped? ==> Grown(old(m.mem), old(m.owner), m.mem, m.owner, d, Hand(v, pn))
    ensures r.Mapped? ==> MapsRange(old(m.mem), m.mem, d, v, v + 1, pn, perm)
    ensures r.Mapped? && v < UPAGES ==> pn in m.owner && m.owner[pn] == Page(d, v)
    ensures !r.Mapped? ==> Grown(old(m.mem), old(m.owner), m.mem, m.owner, d, None) && SameMap(old(m.mem), m.mem, d)
    ensures OnlyTablesTaken(old(m.owner), m.owner, Hand(v, pn))
    ensures r.Mapped? ==> Tabled(old(m.mem), m.mem, d, v, v + 1)
    ensures r.Mapped? ==> Room(m.owner) == Room(old(m.owner)) - Missing(old(m.mem), d, v, v + 1)
    ensures r.NoMemory? ==> Room(old(m.owner)) < Missing(old(m.mem), d, v, v + 1)
  {
    hide Wf;
    hide Room;
    hide Tabled;
    hide Missing;
    hide ListOk;
    hide Pdx;
    hide Ptx;
    hide Present;
    hide Pn;
    hide Lookup;
    hide TableAt;
    hide Grown;
    hide Entry;
    ghost var mem0, owner0 := m.mem, m.owner;
    var t := WalkPgdir(m, d, v, true);
    if t.None? {
      NoTableNoPage(m.mem, d, v);
      return NoMemory;
    }
    LookupIs(m.mem, m.owner, d, v, t.value);
    if Present(m.mem[t.value][Ptx(v)]) {
      return Remap;
    }
    ghost var mem1, owner1 := m.mem, m.owner;
    var mem2 := m.mem[t.value := m.mem[t.value][Ptx(v) := Entry(pn, perm)]];
    ghost var owner2 := if v < UPAGES then owner1[pn := Page(d, v)] else owner1;
    HandStays(mem0, owner0, mem1, owner1, d, pn);
    EntryMapped(mem1, owner1, d, v, t.value, pn, perm, mem2, owner2);
    GrownMore(mem0, owner0, mem1, owner1, mem2, owner2, d, Hand(v, pn));
    SameThenRange(mem0, mem1, mem2, d, v, pn, perm);
    ListKept(FirstPage(m.end), mem1, owner1, m.list, m.freelist, mem2, owner2, t.value,
             if v < UPAGES then pn else t.value);
    if v < UPAGES { RoomKept(owner1, pn, Page(d, v)); }
    EntrySetTables(mem1, owner1, d, v, t.value, Entry(pn, perm), mem2);
    TabledThen(mem0, mem1, mem2, d, v, v + 1);
    m.mem := mem2;
    m.owner := owner2;
    r := Mapped;
  }

  lemma EntrySetTables(mem: Mem, owner: Owners, d: nat, v: nat, t: nat, e: uint, mem': Mem)
    requires EntrySet(mem, owner, d, v, t, e, mem')
    ensures Tabled(mem, mem', d, 0, 0)
  {
    hide TableAt;
    hide Lookup;
    hide Wf;
    forall i: nat ensures TabledAt(mem, mem', d, 0, 0, i) {
      SetLookup(mem, owner, d, v, t, e, mem', d, i);
    }
  }

  lemma NoTableNoPage(mem: Mem, d: nat, v: nat)
    requires TableAt(mem, d, Pdx(v)).None?
    ensures Lookup(mem, d, v).None?
  {
  }

  lemma HandStays(mem0: Mem, owner0: Owners, mem1: Mem, owner1: Owners, d: nat, pn: nat)
    requires Grown(mem0, owner0, mem1, owner1, d, None)
    ensures pn in owner0 && owner0[pn].Other? ==> pn in owner1 && owner1[pn].Other?
    ensures IsDir(owner0, d) ==> IsDir(owner1, d)
    ensures owner0.Keys == owner1.Keys
  {
    assert TookAt(owner0, owner1, d, pn) && TookAt(owner0, owner1, d, d);
  }

  lemma GrownMore(mem0: Mem, owner0: Owners, mem1: Mem, owner1: Owners, mem2: Mem, owner2: Owners, d: nat,
                  hand: Option<nat>)
    requires Grown(mem0, owner0, mem1, owner1, d, None) && Grown(mem1, owner1, mem2, owner2, d, hand)
    requires hand.Some? ==> hand.value in owner0 && owner0[hand.value].Other?
    ensures Grown(mem0, owner0, mem2, owner2, d, hand)
  {
    if hand.Some? {
      HandStays(mem0, owner0, mem1, owner1, d, hand.value);
    }
    forall f: nat ensures hand != Some(f) ==> TookAt(owner0, owner1, d, f) {
      assert TookAt(owner0, owner1, d, f);
    }
    GrownTrans(mem0, owner0, mem1, owner1, mem2, owner2, d, hand);
  }

  lemma RangeMore(mem0: Mem, mem1: Mem, mem2: Mem, d: nat, first: nat, a: nat, pn: nat, perm: nat)
    requires first <= a && MapsRange(mem0, mem1, d, first, a, pn, perm)
    requires MapsRange(mem1, mem2, d, a, a + 1, pn + (a - first), perm)
    ensures MapsRange(mem0, mem2, d, first, a + 1, pn, perm)
  {
    hide Lookup;
    hide Entry;
    var to := a + 1;
    forall u: nat ensures MapsAt(mem0, mem2, d, first, to, pn, perm, u) {
      assert MapsAt(mem0, mem1, d, first, a, pn, perm, u) && MapsAt(mem1, mem2, d, a, a + 1, pn + (a - first), perm, u);
    }
  }

  lemma RangeSame(mem0: Mem, mem1: Mem, mem2: Mem, d: nat, first: nat, a: nat, pn: nat, perm: nat)
    requires MapsRange(mem0, mem1, d, first, a, pn, perm) && SameMap(mem1, mem2, d)
    ensures MapsRange(mem0, mem2, d, first, a, pn, perm)
  {
    hide Lookup;
    hide Entry;
    forall u: nat ensures MapsAt(mem0, mem2, d, first, a, pn, perm, u) {
      assert MapsAt(mem0, mem1, d, first, a, pn, perm, u) && Lookup(mem2, d, u) == Lookup(mem1, d, u);
    }
  }

  lemma SameThenRange(mem0: Mem, mem1: Mem, mem2: Mem, d: nat, v: nat, pn: nat, perm: nat)
    requires SameMap(mem0, mem1, d) && MapsRange(mem1, mem2, d, v, v + 1, pn, perm)
    ensures MapsRange(mem0, mem2, d, v, v + 1, pn, perm)
  {
    hide Lookup;
    hide Entry;
    var to := v + 1;
    forall u: nat ensures MapsAt(mem0, mem2, d, v, to, pn, perm, u) {
      assert MapsAt(mem1, mem2, d, v, v + 1, pn, perm, u) && Lookup(mem1, d, u) == Lookup(mem0, d, u);
    }
  }

  // Pages first..last of d lead to frames pn and up.  `done` is how far it got.
  method MapPages(m: Memory, d: nat, va: uint, size: uint, pa: uint, perm: nat) returns (r: MapResult, ghost done: nat)
    requires m.Valid() && IsDir(m.owner, d) && perm < PGSIZE && pa % PGSIZE == 0
    requires 0 < size && va + size <= UINT_LIMIT && pa / PGSIZE + (Last(va, size) - va / PGSIZE) < PAGES
    requires va >= KERNBASE || (va / PGSIZE == Last(va, size) && pa / PGSIZE in m.owner && m.owner[pa / PGSIZE].Other?)
    modifies m
    ensures m.Valid() && IsDir(m.owner, d)
    ensures va / PGSIZE <= done <= Last(va, size) + 1
    ensures MapsRange(old(m.mem), m.mem, d, va / PGSIZE, done, pa / PGSIZE, perm)
    ensures r.Mapped? <==> done == Last(va, size) + 1
    ensures r.Remap? <==> done <= Last(va, size) && old(Lookup(m.mem, d, done)).Some?
    ensures Grown(old(m.mem), old(m.owner), m.mem, m.owner, d,
                  if r.Mapped? then Hand(va / PGSIZE, pa / PGSIZE) else None)
    ensures r.Mapped? && va < KERNBASE ==> pa / PGSIZE in m.owner && m.owner[pa / PGSIZE] == Page(d, va / PGSIZE)
    ensures OnlyTablesTaken(old(m.owner), m.owner, Hand(va / PGSIZE, pa / PGSIZE))
    // The tables that are missing take a frame each, and memory runs out exactly when there are fewer.
    ensures r.Mapped? ==> Tabled(old(m.mem), m.mem, d, va / PGSIZE, done)
    ensures r.Mapped? ==> Room(m.owner) == Room(old(m.owner)) - Missing(old(m.mem), d, va / PGSIZE, done)
    ensures Room(old(m.owner)) >= Missing(old(m.mem), d, va / PGSIZE, done)
    ensures r.NoMemory? ==> Room(old(m.owner)) < Missing(old(m.mem), d, va / PGSIZE, done + 1)
  {
    hide Wf;
    hide Room;
    hide Tabled;
    hide Missing;
    hide ListOk;
    hide Lookup;
    hide TableAt;
    hide Grown;
    hide Entry;
    hide MapsRange;
    hide SameMap;
    var a, last, pn := va / PGSIZE, Last(va, size), pa / PGSIZE;
    ghost var first, pn0 := a, pn;
    ghost var mem0, owner0 := m.mem, m.owner;
    RangeEmpty(mem0, d, first, pn0, perm);
    NothingMissing(mem0, d, first);
    WfKeys(mem0, owner0);
    GrownRefl(mem0, owner0, d, None);
    while true
      invariant m.Valid() && IsDir(m.owner, d) && first <= a <= last < PAGES && pn == pn0 + (a - first)
      invariant pn0 + (last - first) < PAGES
      invariant MapsRange(mem0, m.mem, d, first, a, pn0, perm) && Grown(mem0, owner0, m.mem, m.owner, d, None)
      invariant m.owner.Keys == owner0.Keys
      invariant Tabled(mem0, m.mem, d, first, a) && Room(m.owner) == Room(owner0) - Missing(mem0, d, first, a)
      invariant first < UPAGES ==> a == first == last && m.owner == owner0 && m.mem == mem0
      invariant OnlyTablesTaken(owner0, m.owner, None)
      decreases last - a
    {
      ghost var mem1, owner1 := m.mem, m.owner;
      r := MapOne(m, d, a, pn, perm);
      done := a;
      OutsideSame(mem0, mem1, d, first, a, pn0, perm);
      MissingJoin(mem0, mem1, d, first, a, a + 1);
      if !r.Mapped? {
        RangeSame(mem0, mem1, m.mem, d, first, a, pn0, perm);
        GrownMore(mem0, owner0, mem1, owner1, m.mem, m.owner, d, None);
        return;
      }
      done := a + 1;
      TabledTrans(mem0, mem1, m.mem, d, first, a, a + 1);
      RangeMore(mem0, mem1, m.mem, d, first, a, pn0, perm);
      GrownMore(mem0, owner0, mem1, owner1, m.mem, m.owner, d, Hand(a, pn));
      if a == last {
        return;
      }
      GrownKeys(mem0, owner0, m.mem, m.owner, d, None);
      a, pn := a + 1, pn + 1;
    }
  }

  lemma NothingMissing(mem: Mem, d: nat, a: nat)
    ensures Missing(mem, d, a, a) == 0 && Tabled(mem, mem, d, a, a)
  {
    TabledNone(mem, mem, d, a, a);
  }

  // The page that holds the last byte.
  function Last(va: nat, size: nat): (p: nat)
    requires 0 < size
    ensures va / PGSIZE <= p
  {
    (va + size - 1) / PGSIZE
  }

  lemma RangeEmpty(mem: Mem, d: nat, first: nat, pn: nat, perm: nat)
    ensures MapsRange(mem, mem, d, first, first, pn, perm)
  {
  }

  lemma GrownKeys(mem: Mem, owner: Owners, mem': Mem, owner': Owners, d: nat, hand: Option<nat>)
    requires Grown(mem, owner, mem', owner', d, hand)
    ensures owner.Keys == owner'.Keys
  {
  }

  lemma OutsideSame(mem: Mem, mem': Mem, d: nat, first: nat, a: nat, pn: nat, perm: nat)
    requires MapsRange(mem, mem', d, first, a, pn, perm)
    ensures Lookup(mem', d, a) == Lookup(mem, d, a)
  {
    assert MapsAt(mem, mem', d, first, a, pn, perm, a);
  }

  // ---- deallocuvm ----

  // PGROUNDUP, in pages.
  function RoundUp(sz: nat): nat { (sz + PGSIZE - 1) / PGSIZE }

  // Page v of d loses its frame f, which has become free and been overwritten.
  lemma PageDropped(mem: Mem, owner: Owners, d: nat, v: nat, t: nat, f: nat, junk: Frame, mem': Mem, owner': Owners)
    requires Wf(mem, owner) && IsDir(owner, d) && v < UPAGES && TableAt(mem, d, Pdx(v)) == Some(t) && t in mem
    requires Lookup(mem, d, v).Some? && Pn(Lookup(mem, d, v).value) == f && f in owner
    requires t != f && f in mem && mem' == mem[f := junk][t := mem[t][Ptx(v) := 0]] && owner' == owner[f := Free]
    ensures Wf(mem', owner') && Shrunk(mem, owner, mem', owner', d)
    ensures Unmaps(mem, mem', d, v, v + 1) && ReleasedRange(owner, owner', d, v, v + 1)
  {
    hide Lookup;
    hide TableAt;
    hide Wf;
    hide Pdx;
    hide Ptx;
    hide Pn;
    WfKeys(mem, owner);
    PageFrame(mem, owner, d, v);
    TableFrame(mem, owner, d, Pdx(v));
    var mem1 := mem[t := mem[t][Ptx(v) := 0]];
    assert mem' == mem1[f := junk] && owner'.Keys == owner.Keys;
    UnmapPage(mem, owner, d, v, t, 0, mem1, owner');
    IdleView(mem1, owner', mem', owner', f);
    var to := v + 1;
    forall u: nat ensures UnmapsAt(mem, mem', d, v, to, u) {
      SetLookup(mem, owner, d, v, t, 0, mem1, d, u);
    }
    forall d': nat, u: nat ensures ViewAt(mem, owner, mem', d, d', u) {
      if IsDir(owner, d') {
        SetLookup(mem, owner, d, v, t, 0, mem1, d', u);
      }
    }
    forall g: nat ensures GaveAt(owner, owner', d, g) && KeptAt(mem, owner', mem', g) {
    }
    forall g: nat ensures ReleasedAt(owner, owner', d, v, to, g) {
      OnePage(mem, owner, d, v, f, g);
    }
  }

  lemma PageFrame(mem: Mem, owner: Owners, d: nat, v: nat)
    requires Wf(mem, owner) && IsDir(owner, d) && v < UPAGES && Lookup(mem, d, v).Some?
    ensures Pn(Lookup(mem, d, v).value) in owner && owner[Pn(Lookup(mem, d, v).value)] == Page(d, v)
  {
    assert PageOk(mem, owner, d, v);
  }

  lemma OnePage(mem: Mem, owner: Owners, d: nat, v: nat, f: nat, g: nat)
    requires Wf(mem, owner) && Lookup(mem, d, v).Some? && Pn(Lookup(mem, d, v).value) == f
    ensures g in owner && owner[g] == Page(d, v) ==> g == f
  {
    assert OwnedOk(mem, owner, g);
  }

  // No page with an entry in a missing table is mapped.
  lemma SkipTable(mem: Mem, owner: Owners, d: nat, v: nat, u: nat)
    requires Wf(mem, owner) && TableAt(mem, d, Pdx(v)).None? && v <= u < (Pdx(v) + 1) * ENTRIES
    ensures Lookup(mem, d, u).None?
    ensures forall f: nat {:trigger owner[f]} | f in owner :: owner[f] != Page(d, u)
  {
    assert Pdx(u) == Pdx(v);
    forall f: nat | f in owner ensures owner[f] != Page(d, u) {
      assert OwnedOk(mem, owner, f);
    }
  }

  // The state after pages [from, to) of d have been dropped.
  ghost predicate Dropped(mem: Mem, owner: Owners, mem': Mem, owner': Owners, d: nat, from: nat, to: nat)
  {
    Unmaps(mem, mem', d, from, to) && ReleasedRange(owner, owner', d, from, to) && Shrunk(mem, owner, mem', owner', d)
  }

  lemma DroppedNone(mem: Mem, owner: Owners, d: nat, from: nat, to: nat)
    requires to <= from
    requires mem.Keys == owner.Keys
    ensures Dropped(mem, owner, mem, owner, d, from, to)
  {
    hide Lookup;
  }

  lemma DroppedMore(mem0: Mem, owner0: Owners, mem1: Mem, owner1: Owners, mem2: Mem, owner2: Owners, d: nat, from: nat,
                    v: nat)
    requires Dropped(mem0, owner0, mem1, owner1, d, from, v) && Dropped(mem1, owner1, mem2, owner2, d, v, v + 1)
    requires from <= v
    ensures Dropped(mem0, owner0, mem2, owner2, d, from, v + 1)
  {
    hide Lookup;
    hide Shrunk;
    ShrunkTrans(mem0, owner0, mem1, owner1, mem2, owner2, d);
    var to := v + 1;
    forall u: nat ensures UnmapsAt(mem0, mem2, d, from, to, u) {
      assert UnmapsAt(mem0, mem1, d, from, v, u) && UnmapsAt(mem1, mem2, d, v, v + 1, u);
    }
    forall f: nat ensures ReleasedAt(owner0, owner2, d, from, to, f) {
      assert ReleasedAt(owner0, owner1, d, from, v, f) && ReleasedAt(owner1, owner2, d, v, v + 1, f);
    }
  }

  // Pages that are not there need no dropping.
  lemma DroppedSkip(mem0: Mem, owner0: Owners, mem: Mem, owner: Owners, d: nat, from: nat, v: nat, w: nat)
    requires Dropped(mem0, owner0, mem, owner, d, from, v) && from <= v <= w
    requires forall u: nat {:trigger Lookup(mem, d, u)} | v <= u < w :: Lookup(mem, d, u).None?
    requires forall f: nat {:trigger owner[f]} | f in owner && owner[f].Page? && owner[f].dir == d ::
               !(v <= owner[f].page < w)
    ensures Dropped(mem0, owner0, mem, owner, d, from, w)
  {
    hide Lookup;
    hide Shrunk;
    forall u: nat ensures UnmapsAt(mem0, mem, d, from, w, u) {
      assert UnmapsAt(mem0, mem, d, from, v, u);
    }
    forall f: nat ensures ReleasedAt(owner0, owner, d, from, w, f) {
      assert ReleasedAt(owner0, owner, d, from, v, f);
    }
  }

  lemma DroppedDir(mem0: Mem, owner0: Owners, mem: Mem, owner: Owners, d: nat, from: nat, to: nat)
    requires Dropped(mem0, owner0, mem, owner, d, from, to) && IsDir(owner0, d)
    ensures IsDir(owner, d) && owner.Keys == owner0.Keys
  {
    assert ReleasedAt(owner0, owner, d, from, to, d);
  }

  method DeallocUvm(m: Memory, d: nat, oldsz: uint, newsz: uint) returns (sz: uint)
    requires m.Valid() && IsDir(m.owner, d) && oldsz <= KERNBASE
    modifies m
    ensures m.Valid() && IsDir(m.owner, d) && sz == if newsz < oldsz then newsz else oldsz
    ensures Dropped(old(m.mem), old(m.owner), m.mem, m.owner, d, RoundUp(newsz), RoundUp(oldsz))
  {
    hide Wf;
    hide ListOk;
    hide Lookup;
    hide TableAt;
    hide Dropped;
    hide Pdx;
    hide Ptx;
    hide Pn;
    hide Present;
    hide SameMap;
    hide Grown;
    var v := RoundUp(newsz);
    ghost var from, to, mem0, owner0 := v, RoundUp(oldsz), m.mem, m.owner;
    WfKeys(mem0, owner0);
    DroppedNone(mem0, owner0, d, from, if from <= to then from else to);
    if newsz >= oldsz {
      return oldsz;
    }
    while PGSIZE * v < oldsz
      invariant m.Valid() && IsDir(m.owner, d) && from <= v && m.owner.Keys == owner0.Keys
      invariant Dropped(mem0, owner0, m.mem, m.owner, d, from, if v < to then v else to)
      decreases oldsz - PGSIZE * v
    {
      var t := WalkPgdir(m, d, v, false);
      if t.None? {
        ghost var next := (Pdx(v) + 1) * ENTRIES;
        SkipTables(m.mem, m.owner, d, v, next);
        NextTable(v);
        DroppedSkip(mem0, owner0, m.mem, m.owner, d, from, v, if next < to then next else to);
        v := (Pdx(v) + 1) * ENTRIES - 1;
      } else {
        DropOne(m, d, v, t.value, mem0, owner0, from);
      }
      v := v + 1;
    }
    sz := newsz;
  }

  lemma NextTable(v: nat)
    ensures v < (Pdx(v) + 1) * ENTRIES
  {
  }

  lemma SkipTables(mem: Mem, owner: Owners, d: nat, v: nat, next: nat)
    requires Wf(mem, owner) && TableAt(mem, d, Pdx(v)).None? && next == (Pdx(v) + 1) * ENTRIES
    ensures forall u: nat {:trigger Lookup(mem, d, u)} | v <= u < next :: Lookup(mem, d, u).None?
    ensures forall f: nat {:trigger owner[f]} | f in owner && owner[f].Page? && owner[f].dir == d ::
              !(v <= owner[f].page < next)
  {
    hide Wf;
    hide Pdx;
    hide Lookup;
    forall u: nat | v <= u < next ensures Lookup(mem, d, u).None? {
      SkipTable(mem, owner, d, v, u);
    }
    forall f: nat | f in owner && owner[f].Page? && owner[f].dir == d ensures !(v <= owner[f].page < next) {
      if v <= owner[f].page < next {
        SkipTable(mem, owner, d, v, owner[f].page);
      }
    }
  }

  // The body of deallocuvm's loop for a page whose table exists.
  method DropOne(m: Memory, d: nat, v: nat, t: nat, ghost mem0: Mem, ghost owner0: Owners, ghost from: nat)
    requires m.Valid() && IsDir(m.owner, d) && from <= v < UPAGES && TableAt(m.mem, d, Pdx(v)) == Some(t)
    requires Dropped(mem0, owner0, m.mem, m.owner, d, from, v)
    modifies m
    ensures m.Valid() && IsDir(m.owner, d) && Dropped(mem0, owner0, m.mem, m.owner, d, from, v + 1)
    ensures m.owner.Keys == old(m.owner).Keys
  {
    hide Wf;
    hide ListOk;
    hide Lookup;
    hide TableAt;
    hide Unmaps;
    hide ReleasedRange;
    hide Shrunk;
    hide Pdx;
    hide Ptx;
    hide Pn;
    hide Present;
    LookupIs(m.mem, m.owner, d, v, t);
    var pte := m.mem[t][Ptx(v)];
    ghost var mem1, owner1 := m.mem, m.owner;
    if Present(pte) {
      var pa := Pn(pte);
      PageFrame(mem1, owner1, d, v);
      FrameRange(m.end, mem1, owner1, m.list, m.freelist, pa);
      PageFreeable(m.end, pa);
      var halted := m.Kfree(P2V(pa));
      ghost var mem2 := m.mem;
      m.mem := m.mem[t := m.mem[t][Ptx(v) := 0]];
      ListKept(FirstPage(m.end), mem2, m.owner, m.list, m.freelist, m.mem, m.owner, t, t);
      PageDropped(mem1, owner1, d, v, t, pa, mem2[pa], m.mem, m.owner);
      DroppedMore(mem0, owner0, mem1, owner1, m.mem, m.owner, d, from, v);
    } else {
      NoPage(mem1, owner1, d, v);
      DroppedSkip(mem0, owner0, mem1, owner1, d, from, v, v + 1);
    }
  }

  lemma NoPage(mem: Mem, owner: Owners, d: nat, v: nat)
    requires Wf(mem, owner) && Lookup(mem, d, v).None?
    ensures forall f: nat {:trigger owner[f]} | f in owner && owner[f].Page? && owner[f].dir == d :: owner[f].page != v
  {
    forall f: nat | f in owner && owner[f].Page? && owner[f].dir == d ensures owner[f].page != v {
      assert OwnedOk(mem, owner, f);
    }
  }
}
